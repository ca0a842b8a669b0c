# aurora-library-parser: the HTML node model and the category extractor

This project models, in Dafny, the two parts of aurora-library-parser that
turn an exported Google Docs page into a list of categories of questions:

- **The node model of `src/HTMLNode.js`.**
  - A node is a lower-cased tag, an ordered attribute map and an ordered list of children. Each child is either text or a node.
  - The derived views are modelled with their source behaviour: `tagName`, `children`, `childElementCount`, `firstChild`, `textContent`, `innerHTML` and `outerHTML`. So is `escapeForHTML`.
  - `outerHTML` self-closes the 14 void tags of `voidTagNames`.
  - The constructor is a method with loops over the parsed attributes and child nodes. It is proved equal to a normalising function that lower-cases the tag, replaces NBSP in text, drops comments and other non-element nodes, and keeps the last value of a repeated attribute.
- **The extraction engine of `src/breakIntoCategories.js`:**
  - **String helpers.** `formatForMarkdown` is a loop with a backslash counter. `stripProxyURL` and `stripHTML` are written as left-to-right scanners for the source's regular expressions. The link step of `stripHTML` escapes with `formatForMarkdown` as written, including its flaw (see Findings). `formatAndTrim` maps U+2019 to `'` and trims newlines.
  - **Structure helpers.** `getDepth`, `getQuestionWithDepth`, `getLastCategory` and `getLastAsk`.
  - **Classifier and converters.** `findBoldSelector`, `isQuestion`, `convertToQuestionObject` with its in-place splices, and `expandAndFormatReplies`.
  - **The walk of `extractData`.** It runs over BODY's element children with two pieces of state: the list of categories and the `inShiftedTree` flag.

The model is organised as follows:

- **Categories and asks are values.** `extractData` pushes into arrays it reached through aliases, e.g. `lastQuestion.subAsks.push(...)`. Each such push is modelled as rebuilding the ask tree along the path of last sub-asks that `getQuestionWithDepth` followed (`Structure.ReplaceAt`). The rebuilt category is then written back as the last one.
- **Each imperative piece is a method.** These are the constructor, the loop of `formatForMarkdown`, the loop of `getQuestionWithDepth`, the splices of `convertToQuestionObject`, the reply-numbering loop and the `forEach` of `extractData`. Each method's `ensures` equates its result to a function, and the properties are proved about that function.
- **Module globals and library calls become parameters.** `config.boldClassId`, the "Miscellaneous" flag and `decodeURIComponent` are passed in explicitly.
- **Errors are values.** A JavaScript `throw` becomes a `Failure` value that names the error class: `TypeError`, `RangeError` or `Error`.

The files are:

| file | module | what it holds |
|---|---|---|
| `wrappers.dfy` | `Wrappers` | `Option`, `Result`, the three error classes, and `Number` (an integer or `NaN`) |
| `js_text.dfy` | `JsText` | the JavaScript string built-ins the core uses: ASCII `toUpperCase`/`toLowerCase`, one-character `split`, `join`, unary `+` on text, and number-to-text |
| `html_node.dfy` | `HtmlNode` | `src/HTMLNode.js` |
| `markdown.dfy` | `Markdown` | `formatForMarkdown` |
| `text_format.dfy` | `TextFormat` | `stripProxyURL`, `stripHTML`, `formatAndTrim` |
| `structure.dfy` | `Structure` | Ask and Category, `getQuestionWithDepth`, `getLastCategory`, `getLastAsk`, the write-back along the sub-ask path, and the index invariant |
| `converters.dfy` | `Converters` | `findBoldSelector`, `getDepth`, `isQuestion`, `convertToQuestionObject`, `expandAndFormatReplies` |
| `extraction.dfy` | `Extraction` | the `forEach` of `extractData`, its fold, the invariants it keeps, and `extractData` from a parsed document |

## Model

| member | source | states |
|---|---|---|
| JsText.ToUpper | src/HTMLNode.js:34-36 | `toUpperCase` keeps the length and maps each character by the ASCII upper-case map |
| JsText.ToLower | src/HTMLNode.js:135 | `toLowerCase` keeps the length and maps each character by the ASCII lower-case map |
| JsText.LowerThenUpper | src/HTMLNode.js:34-36 | a lower-cased tag holds no upper-case letter, upper-casing it gives the upper-case of the original tag, and lower-casing twice changes nothing |
| JsText.Split | src/breakIntoCategories.js:44 | `split` on a one-character separator always yields at least one part |
| JsText.SplitJoin | src/breakIntoCategories.js:44 | joining the parts of a split with the separator gives back the text, and no part holds the separator |
| JsText.SplitWithoutSeparator | src/breakIntoCategories.js:242 | text without the separator splits into itself alone |
| JsText.SplitAtFirst | src/breakIntoCategories.js:242 | splitting `a + sep + b`, where `a` holds no separator, gives `a` followed by the parts of `b` |
| JsText.ConcatAppend | src/HTMLNode.js:85 | `join('')` of two lists appended is the join of the first followed by the join of the second |
| JsText.ParseNumber | src/breakIntoCategories.js:44 | unary `+` on text: the empty text is 0, and a number results only from an optionally signed run of digits; anything else is `NaN` |
| JsText.NatToStringValue | src/breakIntoCategories.js:192 | the decimal text of `n` holds only digits and reads back as `n` |
| JsText.IntToStringParses | src/breakIntoCategories.js:192 | unary `+` on the decimal text of any integer gives that integer back |
| HtmlNode.MapGet | src/HTMLNode.js:38-42 | `attributes.get(name)` is absent exactly when no attribute has that name |
| HtmlNode.MapSet | src/HTMLNode.js:138 | `Map.set` keeps names unique, adds the name, makes `get` return the new value, and leaves every other name's value as it was |
| HtmlNode.SetAll | src/HTMLNode.js:137-139 | setting the attributes one by one gives a map with unique names |
| HtmlNode.SetAllLastWins | src/HTMLNode.js:137-139 | for a repeated attribute the map holds the last value given, and it holds exactly the names that were given |
| HtmlNode.ReplaceNbsp | src/HTMLNode.js:141 | `replaceAll('\xa0', ' ')` keeps the length, replaces each NBSP by a space, keeps every other character, and leaves no NBSP |
| HtmlNode.NormalizedChildren | src/HTMLNode.js:140-143 | no text child of a constructed node holds an NBSP |
| HtmlNode.NormalizedChildrenKeepsOrder | src/HTMLNode.js:140-143 | the constructed children are, in order, the normalised text and element entries of the parsed child nodes; every other kind of node is dropped |
| HtmlNode.Build | src/HTMLNode.js:129-144 | the constructor's loops over `attrs` and `childNodes` build exactly the normalised node of the parsed element |
| HtmlNode.NewHTMLNode | src/HTMLNode.js:129-144 | a missing element is rejected with a TypeError; otherwise the result is the normalised node |
| HtmlNode.Normalized | src/HTMLNode.js:129-144 | the constructed node's tag has no upper-case letter and `tagName` is the upper-case form of the parsed `nodeName`; its attribute names are unique; none of its text children holds an NBSP |
| HtmlNode.ChildrenAreTheElements | src/HTMLNode.js:59-64 | `children` keeps exactly the element entries of `allChildren`, in order: an element contributes itself, text contributes nothing, and appending lists appends their elements |
| HtmlNode.Children | src/HTMLNode.js:59-64 | `children` holds a node exactly when that node is an entry of `allChildren`, and is no longer than `allChildren` |
| HtmlNode.ElementsAreElemEntries | src/HTMLNode.js:59-64 | the element filter keeps exactly the nodes that are entries of the list, and never lengthens it |
| HtmlNode.ChildElementCount | src/HTMLNode.js:74-76 | `childElementCount` is the length of `children` |
| HtmlNode.FirstChild | src/HTMLNode.js:118-123 | `firstChild()` is the first of `children`, or nothing when there are no element children |
| HtmlNode.ElementsAppend | src/HTMLNode.js:59-64 | the element filter distributes over appending child lists |
| HtmlNode.CountIsLength | src/HTMLNode.js:74-76 | the `reduce` count of `childElementCount` equals the number of element entries |
| HtmlNode.FirstChildIsFirstOfChildren | src/HTMLNode.js:118-123 | `firstChild()` is nothing exactly when there are no element children, and otherwise it is the first of them |
| HtmlNode.TextContentIsLeaves | src/HTMLNode.js:84-86 | `textContent` is the join of all descendant text entries, in depth-first order |
| HtmlNode.TextOfIsLeaves | src/HTMLNode.js:84-86 | the text of a child list is the join of its descendant text entries in order |
| HtmlNode.ChildTextIsLeaves | src/HTMLNode.js:84-86 | the text of one child is the join of its descendant text entries |
| HtmlNode.TextOfAppend | src/HTMLNode.js:84-86 | the text of appended child lists is the text of the first followed by the text of the second |
| HtmlNode.EscapeMarkup | src/HTMLNode.js:177 | the `<>&` replacement leaves no `<` or `>` and never shortens the text |
| HtmlNode.EscapeQuotes | src/HTMLNode.js:178 | the `"` replacement leaves no `"`, and it neither adds nor removes any character outside those of `&quot;` |
| HtmlNode.EscapeQuotesAppend | src/HTMLNode.js:178 | the quote replacement distributes over appending |
| HtmlNode.EscapeQuotesWithoutQuotes | src/HTMLNode.js:178 | text without `"` is left as it is by the quote replacement |
| HtmlNode.EscapeForHTMLIsPerCharacter | src/HTMLNode.js:176-181 | `escapeForHTML` maps each character independently: `<`, `>`, `&` become `&lt;`, `&gt;`, `&amp;`, `"` becomes `&quot;` only in an attribute, and every other character stays |
| HtmlNode.EscapeForHTML | src/HTMLNode.js:176-181 | escaped text holds no `<` or `>`, and an escaped attribute value holds no `"` |
| HtmlNode.EscapeForHTMLAppend | src/HTMLNode.js:176-181 | escaping distributes over appending |
| HtmlNode.EscapeForHTMLWithoutMarkup | src/HTMLNode.js:176-181 | text without `<`, `>`, `&` and `"` is left as it is |
| HtmlNode.InnerOfAppend | src/HTMLNode.js:91-93 | `innerHTML` of appended child lists is the first's followed by the second's |
| HtmlNode.AttributesHTMLEndsWithQuote | src/HTMLNode.js:104 | the attribute text is empty exactly when there are no attributes, and otherwise ends with `"` |
| HtmlNode.VoidNamesEndWithLetters | src/HTMLNode.js:21 | every one of the 14 void tag names is non-empty and ends with a capital letter |
| HtmlNode.VoidStartTagLacksEndTag | src/HTMLNode.js:98-110 | a start tag never ends with its own end tag, so a self-closed element really has no end tag |
| HtmlNode.OuterHTMLEndTag | src/HTMLNode.js:98-110 | `outerHTML` starts with the start tag, and it ends with `</tag>` exactly when it is not the case that `innerHTML` is empty and the tag is void; in that case it is the start tag alone |
| HtmlNode.VoidWithoutChildren | src/HTMLNode.js:101-107 | a void element with empty inner HTML is written as its start tag only |
| HtmlNode.NonVoidHasEndTag | src/HTMLNode.js:103-107 | any other element is start tag, inner HTML and end tag, even when the inner HTML is empty |
| Markdown.Backslashes | src/breakIntoCategories.js:215 | `'\\'.repeat(n)` is `n` backslashes |
| Markdown.FormatForMarkdown | src/breakIntoCategories.js:207-231 | the loop with `buffer` and `escCount` computes the as-written escape function |
| Markdown.ScanStep | src/breakIntoCategories.js:212-228 | one iteration of the loop moves one character from the input to the output without changing the eventual result |
| Markdown.EscapedInsertsOnlyBackslashes | src/breakIntoCategories.js:207-231 | the escape never drops or reorders a character: it only inserts backslashes |
| Markdown.EscapedWithoutBackslashes | src/breakIntoCategories.js:207-231 | on text without backslashes, exactly one backslash is inserted before each avoided character and nothing else changes |
| Markdown.Escaped | src/breakIntoCategories.js:207-231 | when the backslash is not itself an avoided character, the escape of a text only inserts backslashes into it |
| Markdown.EscapeEachAvoidedOfPlain | src/breakIntoCategories.js:207-231 | escaping each avoided character leaves text without avoided characters as it is |
| Markdown.EscapedLeavesPlainText | src/breakIntoCategories.js:207-231 | text with no backslash and no avoided character comes out of the escape unchanged, under either rule |
| Markdown.CorrectedRunsAreOdd | src/breakIntoCategories.js:213-216 | with the corrected rule, every avoided character in the output after a given point follows a backslash run of odd length |
| Markdown.CorrectedEscapeOddRuns | src/breakIntoCategories.js:207-231 | with the corrected rule, every avoided character of the output follows an odd backslash run, i.e. it is escaped |
| Markdown.AsWrittenOddRunBecomesEven | src/breakIntoCategories.js:213-216 | as written, `\]` with avoided `]()` becomes `\\]`: the `]` follows a run of two and is not escaped; the corrected rule gives `\\\]` |
| TextFormat.LineLength | src/breakIntoCategories.js:257 | the run matched by regex `.` stops exactly at the first line terminator |
| TextFormat.FindFound | src/breakIntoCategories.js:257 | what the search for a literal delimiter finds is an occurrence of it lying inside the searched range |
| TextFormat.FindIsFirst | src/breakIntoCategories.js:257 | no occurrence lies before the one found, and when nothing is found the delimiter occurs nowhere in the range |
| TextFormat.FindReturns | src/breakIntoCategories.js:257 | conversely, the first occurrence in the range is exactly what the search returns |
| TextFormat.IndexOf | src/breakIntoCategories.js:242 | `indexOf('?')` is the position of the first `?` |
| TextFormat.FindQParam | src/breakIntoCategories.js:242 | the `find` over query parts returns the first part starting with `q=`, and nothing exactly when no part does |
| TextFormat.QParamIndex | src/breakIntoCategories.js:242 | the index of the first query part starting with `q=`, or -1 when no part does |
| TextFormat.StripProxyURL | src/breakIntoCategories.js:238-246 | the link is unchanged unless it starts with the redirector host, holds a `?`, and some `&`-separated query part starts with `q=`; in that case the result is the decoded rest of the first such part |
| TextFormat.ProxyLinkUnwrapped | src/breakIntoCategories.js:238-246 | `https://www.google.com<path>?q=<v>&<rest>` becomes the decoded `v` |
| TextFormat.AnchorAt | src/breakIntoCategories.js:257 | an anchor match starts with `<a` and consumes at most the remaining text |
| TextFormat.LinkAndText | src/breakIntoCategories.js:257 | the rest of the anchor match, from the link on, ends within the first line and past the link |
| TextFormat.AnchorAtFinds | src/breakIntoCategories.js:257 | a match pins down where ` href="`, the closing `"`, the next `>` and `</a>` are first found in the line, and the link and text are the slices between them |
| TextFormat.LinkAndTextFinds | src/breakIntoCategories.js:257 | the rest of a match pins down the first closing `"`, the next `>` and the next `</a>` in the line |
| TextFormat.AnchorLinkHasNoQuote | src/breakIntoCategories.js:257 | the captured link holds no `"`, and the whole anchor match holds no line terminator |
| TextFormat.AnchorMatched | src/breakIntoCategories.js:257 | the anchor pattern matches `<a href="link">text</a>` with exactly that link and text, for a link without `"` and a text without `</a>`, both on one line |
| TextFormat.LinkMarkdown | src/breakIntoCategories.js:257-264 | for a text and a link with nothing to escape, the Markdown link is `[text](link)` with the link unwrapped by `stripProxyURL` |
| TextFormat.ConvertAnchors | src/breakIntoCategories.js:257-264 | text without `<` is left as it is by the anchor rewrite |
| TextFormat.AnchorRewritten | src/breakIntoCategories.js:257-264 | `<a href="link">text</a>` becomes the Markdown link of its text and link, and the rewrite carries on after `</a>` |
| TextFormat.ConvertAnchorsPrefix | src/breakIntoCategories.js:257-264 | text without `<` before the rest is copied unchanged by the anchor rewrite |
| TextFormat.AnchorsNeedAnchorStart | src/breakIntoCategories.js:257 | text in which no `<a` occurs is left as it is by the anchor rewrite |
| TextFormat.AnchorsSkipLineBreak | src/breakIntoCategories.js:257 | a `<br>` between texts without `<` survives the anchor rewrite |
| TextFormat.ReplaceBr | src/breakIntoCategories.js:266 | the `<br>` replacement never lengthens the text and leaves text without `<` as it is |
| TextFormat.ReplaceBrPrefix | src/breakIntoCategories.js:266 | text without `<` before the rest is copied unchanged by the `<br>` replacement |
| TextFormat.ReplaceLineBreak | src/breakIntoCategories.js:266 | `<br>` becomes a newline |
| TextFormat.StripTags | src/breakIntoCategories.js:266 | the tag strip never lengthens the text and leaves text without `<` as it is; TagStripped says what it removes |
| TextFormat.TagStripped | src/breakIntoCategories.js:266 | a one-line tag `<…>` with at least one character inside is removed whole, and the strip goes on after it |
| TextFormat.StripTagsPrefix | src/breakIntoCategories.js:266 | text without `<` before the rest is copied unchanged by the tag strip |
| TextFormat.LeadingSpaces | src/breakIntoCategories.js:279 | the `( +)` group takes exactly the leading spaces |
| TextFormat.LinkRunAt | src/breakIntoCategories.js:279 | a link-run match starts with `[` and consumes at most the remaining text |
| TextFormat.SecondLink | src/breakIntoCategories.js:279 | the rest of a link-run match ends within the first line, past the first target and the second link |
| TextFormat.CollapseLinkRuns | src/breakIntoCategories.js:279 | text without `[` is left as it is by the link-run clean-up |
| TextFormat.LinkRunMatched | src/breakIntoCategories.js:279 | the link-run pattern matches a laid-out `[ ](u)[text](link)`, and the clean-up puts the spaces and the second link in its place |
| TextFormat.LinkRunCollapsed | src/breakIntoCategories.js:279 | `[` spaces `](u)[text](link)` becomes the spaces followed by `[text](link)`, and the clean-up carries on after it, for a `u` without `)[`, a text without `](` and a link without `)`, all on one line |
| TextFormat.CollapsePrefix | src/breakIntoCategories.js:279 | text without `[` before the rest is copied unchanged by the link-run clean-up |
| TextFormat.DecodeEntities | src/breakIntoCategories.js:268-277 | entity decoding never lengthens the text and leaves text without `&` as it is |
| TextFormat.NbspDecoded | src/breakIntoCategories.js:270 | `&nbsp;` becomes a space, and decoding goes on after it |
| TextFormat.DecodeLeavesUnknownEntities | src/breakIntoCategories.js:268-277 | text in which none of `&nbsp;`, `&amp;`, `&lt;`, `&gt;` occurs is left as it is, whatever other `&` it holds |
| TextFormat.DecodeAfterEscapedChar | src/breakIntoCategories.js:268-277 | an escaped character decodes back to itself, and decoding goes on after it |
| TextFormat.DecodeEscapedText | src/breakIntoCategories.js:268-277 | entity decoding undoes `escapeForHTML` outside attributes |
| TextFormat.StripHTML | src/breakIntoCategories.js:255-282 | text without `<`, `&` and `[` passes through `stripHTML` unchanged |
| TextFormat.StripHTMLOfEscapedText | src/breakIntoCategories.js:255-282 | `stripHTML(escapeForHTML(t))` is `t`: the text of a plain text node survives a round trip through `innerHTML` |
| TextFormat.EscapeAroundNewline | src/HTMLNode.js:176-181 | escaping two texts around a newline is escaping the joined text |
| TextFormat.StripHTMLOfLineBreak | src/breakIntoCategories.js:255-282 | two escaped texts joined by `<br>` come out of `stripHTML` as the texts joined by a newline |
| TextFormat.ReplaceRightQuotes | src/breakIntoCategories.js:295 | U+2019 becomes `'`, every other character stays, and no U+2019 remains |
| TextFormat.FormatAndTrim | src/breakIntoCategories.js:290-298 | no U+2019 remains; without trimming the length is kept; with trimming, one leading and one trailing newline are dropped and each remaining character is mapped by the quote replacement |
| TextFormat.FormatAndTrimKeepsPrefix | src/breakIntoCategories.js:290-298 | a prefix that neither starts nor ends with a newline and holds no U+2019 survives trimming |
| Structure.GetQuestionWithDepth | src/breakIntoCategories.js:332-339 | the loop steps into the last sub-ask `floor(depth/2)-1` times, staying put at an ask with no sub-asks; for `NaN` or any depth below 4 it returns the base ask |
| Structure.DescendFromNext | src/breakIntoCategories.js:335-337 | one more step is a step into the last sub-ask (or staying put), followed by the rest of the steps |
| Structure.DescendAlongSpine | src/breakIntoCategories.js:304-308 | stepping in stops at the end of the last-sub-ask path: before it there are sub-asks, and past it the result no longer changes |
| Structure.DocumentedDescents | src/breakIntoCategories.js:310-326 | on the documented tree, depth 4 reaches ask_1_1, depth 6 and depth 8 both reach ask_2_2, and depth 3 stays at ask_0_0 |
| Structure.ReplaceAt | src/breakIntoCategories.js:456-497 | writing a changed ask back along the path keeps the top ask's index unless the top ask itself is replaced; the three lemmas below give the rest |
| Structure.ReplaceAtIsFound | src/breakIntoCategories.js:456-497 | after the write-back, the descent finds the changed ask after as many steps as the spine allows, so a push through the alias is seen from the category; a longer descent goes on into the changed ask's own sub-asks |
| Structure.ReplaceAtKeepsPath | src/breakIntoCategories.js:456-497 | every ask on the path above the changed one keeps its question, answers, self-replies, index and earlier sub-asks |
| Structure.ReplaceAtOwnAsk | src/breakIntoCategories.js:456-497 | writing back the ask that the descent reached, unchanged, leaves the tree as it was |
| Structure.Numbered | src/breakIntoCategories.js:494-497 | the self-replies are the replies in order, numbered consecutively from the start index |
| Structure.NumberReplies | src/breakIntoCategories.js:494-497 | the `ind++` numbering computes exactly that |
| Structure.Apply | src/breakIntoCategories.js:458-497 | a push never changes the index or the question of the ask it pushes into |
| Structure.ApplyNumbersFromTotal | src/breakIntoCategories.js:465-497 | each push keeps what was there; a new sub-ask gets index `answers + selfReplies + subAsks`, self-replies get that index and the ones after it, and the total grows by what was added |
| Structure.NewAskIsWellIndexed | src/breakIntoCategories.js:444-450 | a new ask satisfies the index invariant: sub-ask and self-reply indices are increasing, below the total, and never shared |
| Structure.ApplyKeepsIndexed | src/breakIntoCategories.js:458-497 | every push keeps the index invariant |
| Structure.SubAskKeepsIndexed | src/breakIntoCategories.js:478-484 | pushing a sub-ask keeps the index invariant |
| Structure.AnswersKeepIndexed | src/breakIntoCategories.js:470 | pushing answers keeps the index invariant |
| Structure.SelfRepliesKeepIndexed | src/breakIntoCategories.js:494-497 | pushing numbered self-replies keeps the index invariant |
| Structure.DescendKeepsIndexed | src/breakIntoCategories.js:332-339 | the ask `getQuestionWithDepth` reaches in a well-indexed ask is itself well-indexed |
| Structure.ReplaceKeepsIndexed | src/breakIntoCategories.js:456-497 | writing a well-indexed ask back into a well-indexed ask keeps the index invariant |
| Structure.GetLastCategory | src/breakIntoCategories.js:347-359 | on a non-empty list: the last category, nothing changed; on an empty list with the throw flag: RangeError, nothing changed; otherwise exactly one `(unknown category)` appended and returned |
| Structure.GetLastAsk | src/breakIntoCategories.js:367-386 | on a non-empty category: its last ask, nothing changed; on an empty one with the throw flag: RangeError, nothing changed; otherwise exactly one placeholder ask with index 0 appended and returned; the header never changes |
| Converters.IndexOfTag | src/breakIntoCategories.js:28-29 | the position of the first element with the tag name from a start position, or -1 when there is none |
| Converters.FindByTag | src/breakIntoCategories.js:28-29 | `children.find` by tag name returns the first element with that name, and finds nothing exactly when no element has it |
| Converters.SelectorEnd | src/breakIntoCategories.js:33 | the lazy `[^.]+?` stops at the first `{font-weight:700}` reachable without crossing a `.` |
| Converters.FirstSelector | src/breakIntoCategories.js:33 | the first position after a `.` where the pattern matches, with the shortest selector there; no match exists when none is found |
| Converters.FindBoldSelector | src/breakIntoCategories.js:27-36 | without a STYLE element in HEAD: "Could not find style element."; with one but no match: "No bold selector found"; otherwise the first match, which is non-empty and holds no `.` |
| Converters.BoldSelectorExample | src/breakIntoCategories.js:21-23 | `.c9{font-weight:700}` yields `c9` |
| Converters.GetDepth | src/breakIntoCategories.js:43-45 | without a class, or when the last `-` part of the second token is not a number, the depth is `NaN` |
| Converters.DepthWithoutSecondToken | src/breakIntoCategories.js:44 | a class with a single token gives depth `NaN` |
| Converters.LastPartAfterSeparator | src/breakIntoCategories.js:44 | `split('-').at(-1)` of `a + '-' + b`, where `b` holds no `-`, is `b` |
| Converters.SecondToken | src/breakIntoCategories.js:44 | `split(' ')[1]` of `first + ' ' + token + rest`, where neither `first` nor `token` holds a space, is `token` |
| Converters.DepthFromClass | src/breakIntoCategories.js:43-45 | class `"<list> <prefix>-<level><rest>"` gives depth `level`, plus one for an OL |
| Converters.Texts | src/breakIntoCategories.js:72-75 | one stripped text per remaining child of the LI |
| Converters.AccumulateIsPrefix | src/breakIntoCategories.js:72-75 | the `reduce` stops growing once it holds two characters, and it is always a prefix of the full join; if it is shorter than two, it is the full join |
| Converters.AccumulateDecidesAsJoin | src/breakIntoCategories.js:72-76 | testing the accumulated text for `": "` or `":\n"` gives the same answer as testing the full join |
| Converters.IsQuestion | src/breakIntoCategories.js:56-79 | TypeError exactly when there is no element child; otherwise true exactly when there are at most two element children, the first is LI, its first element is a SPAN whose class is the bold id, and the rest of its text starts with `": "` or `":\n"` |
| Converters.Spans | src/breakIntoCategories.js:100 | the SPAN children: every SPAN of the list and nothing else, empty exactly when there is none, and the first is the first SPAN of the list |
| Converters.FirstTagInTail | src/breakIntoCategories.js:100 | when the head of a list lacks the tag name, the first element with it is the first of the tail, one index on |
| Converters.SpansAppend | src/breakIntoCategories.js:100 | the SPAN filter distributes over appending, so it keeps the SPANs in their order |
| Converters.SpanFragments | src/breakIntoCategories.js:102-108 | a span with element children that are not all BRs gives one fragment per child, the child's `src` or else its stripped inner HTML; any other span gives its own stripped inner HTML alone |
| Converters.ContentFragments | src/breakIntoCategories.js:102-108 | at least one fragment per span, and a single span gives exactly its own fragments |
| Converters.ContentFragmentsAppend | src/breakIntoCategories.js:102-108 | the fragments of two runs of spans are those of the first followed by those of the second, so the `flatMap` keeps span order |
| Converters.Splice | src/breakIntoCategories.js:114-125 | `splice` returns what it removed and leaves the rest with the items inserted; together they are a permutation of the array plus the items |
| Converters.FindIndex | src/breakIntoCategories.js:120-129 | `findIndex` by the `images/` test returns the first matching position or -1 |
| Converters.LeadingRun | src/breakIntoCategories.js:120 | the length of the leading run of fragments that pass (or fail) the `images/` test |
| Converters.FindIndexEndsRun | src/breakIntoCategories.js:120-121 | the first fragment failing the test ends the leading run, or there is none |
| Converters.ArrangedIsPermutation | src/breakIntoCategories.js:119-126 | moving the leading images is a permutation of the fragments |
| Converters.ArrangedSplitsAtFirstImage | src/breakIntoCategories.js:117-131 | after the move, no fragment before `firstImageIndex` is an image path, and the fragment at `firstImageIndex`, if any, is one |
| Converters.SplicesOnImagesOnly | src/breakIntoCategories.js:119-126 | when every fragment is an image path, `splice(-1, -1)` removes nothing and the array stays as it is, with an empty query |
| Converters.SplicesAroundText | src/breakIntoCategories.js:119-126 | when a text fragment exists, the leading images are cut out and put back before the next image path, or at the end |
| Converters.SplicesMoveLeadingImages | src/breakIntoCategories.js:119-127 | the source's two splices compute the arrangement and its `firstImageIndex` |
| Converters.ArrangedWithoutLeadingImage | src/breakIntoCategories.js:128-131 | without a leading image the fragments are left in place |
| Converters.NoMoveWithoutLeadingImage | src/breakIntoCategories.js:128-131 | without a leading image, `firstImageIndex` is the first image path, or the length when there is none |
| Converters.Assemble | src/breakIntoCategories.js:139-146 | the asker is the first span's formatted text; the query is the fragments before `firstImageIndex`, joined, without their first two characters and formatted; the attachments are the formatted fragments from it on; the context is as given |
| Converters.FormatEach | src/breakIntoCategories.js:142 | one formatted attachment per fragment, in order |
| Converters.QuestionObject | src/breakIntoCategories.js:86-147 | TypeError exactly when there is no element child or the first has no SPAN; otherwise `context` is set exactly when a second LI element child exists |
| Converters.QuestionOf | src/breakIntoCategories.js:110-146 | the question carries the context it was given; QuestionOfSplits gives the rest |
| Converters.QuestionOfSplits | src/breakIntoCategories.js:110-146 | the query is the text fragments the move leaves before the first image, behind `": "` when a colon fragment was taken out, joined, without two characters and formatted; each fragment from the first image on is one formatted attachment |
| Converters.ArrangedParts | src/breakIntoCategories.js:120-136 | after the move, the fragments before `firstImageIndex` are text, the one at it is an image path, and the two parts together are the fragments moved |
| Converters.QuestionObjectSplits | src/breakIntoCategories.js:86-147 | for an element, the asker is the first span's text, the query holds text fragments only, the first attachment comes from an image path, each later fragment gives exactly one attachment, and the fragments only change order |
| Converters.DropColon | src/breakIntoCategories.js:110-115 | the in-place `splice(0, 3 - contentArr[0].length)` leaves the fragments without the colon part |
| Converters.MoveLeadingImages | src/breakIntoCategories.js:117-131 | the in-place splices leave the arranged fragments, and `firstImageIndex` is the query length, within the array |
| Converters.ArrangeQuestion | src/breakIntoCategories.js:110-146 | the colon handling, the image move and the `unshift(': ')` build the question the pure definition describes |
| Converters.ConvertToQuestionObject | src/breakIntoCategories.js:86-147 | the method with its in-place splices computes the question object, errors included |
| Converters.ItemReplies | src/breakIntoCategories.js:161-193 | a non-LI yields nothing; an all-image LI yields one reply per span; any other LI yields at most one reply, and none when its first element is not a SPAN |
| Converters.FlatMapAppend | src/breakIntoCategories.js:161 | the replies follow child order: the `flatMap` over appended children is the first part's replies followed by the second's, with positions carried on |
| Converters.NonItemAddsNothing | src/breakIntoCategories.js:162 | a non-LI child between others adds no reply, but it still counts as a position |
| Converters.NumberTextIsPlain | src/breakIntoCategories.js:192 | a number's decimal text is non-empty, does not start with a newline and holds no U+2019 |
| Converters.TextItemIsOneReply | src/breakIntoCategories.js:185-192 | an LI starting with a non-image SPAN yields one reply: its number prefix and its stripped inner HTML, trimmed |
| Converters.OrderedItemIsNumbered | src/breakIntoCategories.js:192 | in an OL, that reply starts with `${start + index}. `, where `index` counts all element children |
| Converters.TextOnlyItemsYieldNothing | src/breakIntoCategories.js:157-194 | `<ol start="3"><li>first</li><li>second</li></ol>` yields no replies: an LI without element children counts as all-images |
| Extraction.WriteBack | src/breakIntoCategories.js:456-497 | writing the changed ask back changes only the last ask of the last category, and there exactly along the descent |
| Extraction.AddAsk | src/breakIntoCategories.js:444-450 | a depth-0 list appends one ask to the last category, with index equal to the prior question count, and changes nothing else |
| Extraction.VisitElement | src/breakIntoCategories.js:425-438 | the callback on one element computes one step of the fold |
| Extraction.VisitList | src/breakIntoCategories.js:438-501 | the callback on a UL or OL computes the fold's list step, errors included |
| Extraction.VisitAsk | src/breakIntoCategories.js:440-453 | a depth-0 list appends the converted question as a new ask |
| Extraction.VisitNested | src/breakIntoCategories.js:455-501 | a nested list, through the alias of the ask it reached, computes the fold's nested step |
| Extraction.ExtractBody | src/breakIntoCategories.js:419-504 | the `forEach` over BODY's element children computes the fold, and stops at the first throw |
| Extraction.HtmlFileName | src/breakIntoCategories.js:396 | the file name is the folder name with its spaces removed, followed by `.html` |
| Extraction.RemoveSpaces | src/breakIntoCategories.js:396 | `replaceAll(' ', '')` leaves no space, keeps every other character with its multiplicity, and leaves text without spaces as it is |
| Extraction.RemoveSpacesAppend | src/breakIntoCategories.js:396 | removing spaces distributes over appending, so the characters kept stay in order |
| Extraction.HtmlIndex | src/breakIntoCategories.js:399-400 | the index of the first `html` element from a start position, or -1 when there is none |
| Extraction.HtmlElement | src/breakIntoCategories.js:399-400 | the `find` returns the first `html` element of the document, and nothing exactly when there is none |
| Extraction.ExtractData | src/breakIntoCategories.js:412-505 | from a parsed document: the base element, the bold selector, the BODY and the walk, each error in order |
| Extraction.PushStepsByDepth | src/breakIntoCategories.js:455-473 | a nested list of depth `2m+1` or `2m+2` outside a shifted tree, or of depth `2m` or `2m+3` inside one, pushes `m` steps down the last sub-asks |
| Extraction.NoDepthPushesIntoLastAsk | src/breakIntoCategories.js:455-473 | a `NaN` or negative depth makes no step down the sub-asks: the push goes into the last ask itself |
| Extraction.EditKeepsIndexed | src/breakIntoCategories.js:456-497 | a push at the end of a descent keeps the ask well-indexed and keeps its index |
| Extraction.PushKeepsConsistent | src/breakIntoCategories.js:455-501 | every push into the last ask keeps every ask of every category well-indexed |
| Extraction.AddAskKeepsConsistent | src/breakIntoCategories.js:444-450 | adding an ask keeps every category well-indexed |
| Extraction.NestedStepKeepsConsistent | src/breakIntoCategories.js:455-501 | a nested-list step keeps every category well-indexed |
| Extraction.StepKeepsConsistent | src/breakIntoCategories.js:425-502 | every step keeps every category well-indexed |
| Extraction.WalkKeepsConsistent | src/breakIntoCategories.js:425-502 | the whole walk keeps every category well-indexed |
| Extraction.DocumentDataIsConsistent | src/breakIntoCategories.js:412-505 | whatever `extractData` returns has every ask well-indexed at every level |
| Extraction.NestedStepChangesLastOnly | src/breakIntoCategories.js:455-501 | a nested-list step changes only the last category |
| Extraction.ListStepChangesLastOnly | src/breakIntoCategories.js:438-501 | a list step changes only the last category |
| Extraction.AskStepChangesLastOnly | src/breakIntoCategories.js:440-453 | a depth-0 list changes only the last category |
| Extraction.StepKeepsHeaders | src/breakIntoCategories.js:429-437 | a heading appends one category with the heading's text, and any other element changes no header and only the last category |
| Extraction.WalkFollowsHeadings | src/breakIntoCategories.js:425-502 | the headers after the walk are the ones before it, followed by the texts of the headings walked, in order |
| Extraction.ExtractedFollowsHeadings | src/breakIntoCategories.js:412-505 | the categories returned are exactly the document's headings, in order |
| Extraction.StepIgnoresOthers | src/breakIntoCategories.js:427-438 | a skipped element, or one that is neither heading nor list, changes nothing |
| Extraction.StepNoCategories | src/breakIntoCategories.js:438-440 | a step throws "No categories present." exactly on a list that is not skipped and comes before any heading |
| Extraction.NestedStepErrors | src/breakIntoCategories.js:455-501 | a nested step can fail only with a TypeError |
| Extraction.StepNoQuestions | src/breakIntoCategories.js:455-473 | a step throws the no-questions RangeError exactly on a nested list whose category has no ask yet |
| Extraction.StepShift | src/breakIntoCategories.js:423-468 | `inShiftedTree` is cleared by a heading and by a depth-0 list, flips only when a sub-ask is added on the parity branch, and is otherwise kept |
| Extraction.ListFirstFails | src/breakIntoCategories.js:438-440 | a document whose first element is a list throws "No categories present." |
| Extraction.PlainHeading | src/breakIntoCategories.js:431-434 | a heading holding only plain text gets that text as its header |
| Extraction.HeadingAndListTagNames | src/HTMLNode.js:34-36 | the tag names `h1` and `ul` read as `H1` and `UL` |
| Extraction.WalkOfHeading | src/breakIntoCategories.js:429-437 | a document of one heading gives one empty category with its text, and the flag cleared |
| Extraction.SecondLevelListDepth | src/breakIntoCategories.js:43-45 | a list of class `lst c9-1` has depth 1 |
| Extraction.SecondLevelListNeedsAsk | src/breakIntoCategories.js:455-456 | such a list throws the no-questions RangeError when its category has no ask yet |
| Extraction.NestedListBeforeAnyAsk | src/breakIntoCategories.js:425-473 | `<h1>Intro</h1><ul class="lst c9-1">` throws the no-questions RangeError |
| Extraction.HeadingOnly | src/breakIntoCategories.js:425-437 | `<h1>Intro</h1>` alone gives one category `Intro` with no questions |

## Left out

- `loadHTMLDoc` (src/breakIntoCategories.js:395-405): the file read and `parse5.parse` are not modelled. `ExtractData` starts from the parsed document's top-level nodes and the folder name. It keeps the rest of `loadHTMLDoc`: the file-name rule, the search for the `html` element and its error, the node construction, and `findBoldSelector`.
- `decodeURIComponent` is a parameter: a function from text to text. Its `URIError` on malformed percent-encoding is not modelled.
- `config.boldClassId` and `folderName === 'Miscellaneous'` are explicit parameters, not a module global and a comparison inside the walk. `ExtractData` still derives both from the document and the folder name.
- `toUpperCase` and `toLowerCase` map ASCII letters only. Tags and attribute names from the parser are ASCII, but other case mappings are not modelled.
- JsText.ParseNumber: unary `+` is modelled as an optionally signed decimal integer (the empty text is 0). Text with surrounding white space, a decimal point, an exponent, a hexadecimal prefix or `Infinity` yields `NaN` in the model, whereas JavaScript converts it.
- Numbers are unbounded integers. JavaScript numbers are doubles: `start + index` loses precision above 2^53, and `${start+index}` prints values of 10^21 and above in exponent form (`1e+21`). Wrappers.Number, JsText.ParseNumber, JsText.IntToString and Converters.NumberText model neither.
- Strings are sequences of characters. JavaScript strings are UTF-16 code units and `for...of` walks code points, so text outside the Basic Multilingual Plane is not modelled.
- Aliasing is modelled by value. `lastCategory` and `lastQuestion` are references into `arr` in the source. The model writes the changed ask back along the path it was reached by. It proves that the descent finds the changed ask again after as many steps as the spine allows, and that a longer descent goes on into the changed ask's own sub-asks (Structure.ReplaceAtIsFound). It also proves that every ask on the path keeps all but its last sub-ask (Structure.ReplaceAtKeepsPath), and that writing back the ask that was reached changes nothing (Structure.ReplaceAtOwnAsk).
- Structure.GetLastAsk: the RangeError carries the fixed text "No questions found in the given category. " without the `JSON.stringify(category)` that the source appends.
- The `depth--` at src/breakIntoCategories.js:499 decrements a variable nothing reads afterwards, so it has no counterpart.
- The regular expressions of `stripHTML` and `findBoldSelector` are modelled as scanners for these particular patterns, not through a general regex engine.
- `escapeForHTML`'s `createRegExp` (src/HTMLNode.js:152-154) builds a pattern from the map's keys. The model writes out the resulting character-by-character replacement instead.
- The optional `context` property of a Question is an `Option`: an absent property is `None`.
- `getLastCategory` and `getLastAsk` are modelled with both values of their flag, but `extractData` always passes the throwing default.
- src/downloadZips.js, src/syncFromZips.js, src/index.js and the scripts under tests/ are network, file-system and process I/O; they are not part of this model.

Some consequences of the code that are easy to misread:

- **`<ol start="3"><li>first</li><li>second</li></ol>` yields no replies.** The all-images test runs over each LI's element children. An LI without element children passes it vacuously and contributes no replies (Converters.TextOnlyItemsYieldNothing).
- **A question written `<span>: Hello <br> world</span>` has the query `Hello \n world`.** The span's inner HTML keeps the space after `<br>`.
- **`<ul class="lst c9-1">` has depth 1.** The depth is the last `-` part of the second class token. Under a heading with no asks yet, the list therefore throws a RangeError instead of starting an ask (Extraction.NestedListBeforeAnyAsk).
- **A first fragment `:` alone drops the following fragment too.** `splice(0, 3 - 1)` removes two entries.

## Findings

| source | as written | input that shows it | evidently intended | confidence | as-written member | corrected member |
|---|---|---|---|---|---|---|
| src/breakIntoCategories.js:213-216 | before an avoided character, an odd run of `k` backslashes gets `k` more, giving an even run of `2k`, so the avoided character is not escaped | `formatForMarkdown("\\]", "]()")` gives `\\]`, where `]` follows two backslashes and closes the link text | the run before an avoided character is always made odd: `escCount + 1` more backslashes, giving `\\\]` | high (not executed) | Markdown.AsWrittenOddRunBecomesEven | Markdown.CorrectedEscapeOddRuns |

The link rewrite of `stripHTML` (TextFormat.LinkMarkdown), like
Markdown.FormatForMarkdown, uses the escape as written, so everything built
on `stripHTML` keeps the flaw. The corrected rule, `Escaped(…, true)`, is
proved correct on its own and is not used by the rest of the model.
