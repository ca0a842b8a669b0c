/**
 * The node utilities and converters of src/breakIntoCategories.js:
 * `findBoldSelector`, `getDepth`, `isQuestion`, `convertToQuestionObject`
 * and `expandAndFormatReplies`.
 *
 * `config.boldClassId` is passed as the parameter `boldClassId`, and
 * `decodeURIComponent` (reached through `stripHTML`) as `decodeURIComponent`.
 */
module Converters {
  import opened Wrappers
  import opened JsText
  import opened HtmlNode
  import opened TextFormat
  import opened Structure

  // -----------------------------------------------------------------------
  // findBoldSelector
  // -----------------------------------------------------------------------

  /** The index of the first node with the tag name, or -1: `findIndex(v => v.tagName === name)`. */
  function IndexOfTag(nodes: seq<Node>, name: string, from: nat): (r: int)
    requires from <= |nodes|
    ensures r == -1 || from <= r < |nodes|
    ensures r >= 0 ==> TagName(nodes[r]) == name
    ensures forall k :: from <= k < |nodes| && (r < 0 || k < r) ==> TagName(nodes[k]) != name
    decreases |nodes| - from
  {
    if from == |nodes| then -1
    else if TagName(nodes[from]) == name then from
    else IndexOfTag(nodes, name, from + 1)
  }

  /** `nodes.find(v => v.tagName === name)`. */
  function FindByTag(nodes: seq<Node>, name: string): (r: Option<Node>)
    ensures r.Some? ==> exists k :: 0 <= k < |nodes| && nodes[k] == r.value && TagName(nodes[k]) == name
                                    && forall j :: 0 <= j < k ==> TagName(nodes[j]) != name
    ensures r.None? <==> forall k :: 0 <= k < |nodes| ==> TagName(nodes[k]) != name
  {
    var k := IndexOfTag(nodes, name, 0);
    if k < 0 then None else Some(nodes[k])
  }

  /** `head?.children.find(v => v.tagName === 'STYLE')` for the first HEAD child. */
  function StyleElement(baseNode: Node): Option<Node> {
    match FindByTag(Children(baseNode), "HEAD")
    case None => None
    case Some(head) => FindByTag(Children(head), "STYLE")
  }

  const BoldRule := "{font-weight:700}"
  const NoStyle := "Could not find style element."
  const NoSelector := "No bold selector found"

  /** `s[i..j]` exists and holds no dot. */
  predicate DotFree(s: string, i: nat, j: nat) {
    j <= |s| && forall k :: i <= k < j ==> s[k] != '.'
  }

  /** `/(?<=\.)[^.]+?(?=\{font-weight:700\})/` matches exactly `s[i..e]`. */
  predicate SelectorAt(s: string, i: nat, e: nat) {
    1 <= i < e && DotFree(s, i, e) && s[i - 1] == '.' && OccursAt(s, BoldRule, e)
  }

  /** The lazy end of a dot-free run started at `i`, trying ends from `j` on. */
  function SelectorEnd(s: string, i: nat, j: nat): (r: Option<nat>)
    requires i <= j && DotFree(s, i, j)
    ensures r.Some? ==> j <= r.value && DotFree(s, i, r.value) && OccursAt(s, BoldRule, r.value)
    ensures r.Some? ==> forall e :: j <= e < r.value ==> !OccursAt(s, BoldRule, e)
    ensures r.None? ==> forall e :: j <= e && DotFree(s, i, e) ==> !OccursAt(s, BoldRule, e)
    decreases |s| - j
  {
    if OccursAt(s, BoldRule, j) then Some(j)
    else if j < |s| && s[j] != '.' then SelectorEnd(s, i, j + 1)
    else
      assert forall e :: j < e ==> !DotFree(s, i, e);
      None
  }

  /** The first match of the selector pattern starting at `from` or later: leftmost start, then shortest. */
  function FirstSelector(s: string, from: nat): (r: Option<(nat, nat)>)
    ensures r.Some? ==> from <= r.value.0 && SelectorAt(s, r.value.0, r.value.1)
    ensures r.Some? ==> forall e :: r.value.0 < e < r.value.1 ==> !SelectorAt(s, r.value.0, e)
    ensures r.Some? ==> forall i, e :: from <= i < r.value.0 ==> !SelectorAt(s, i, e)
    ensures r.None? ==> forall i, e :: from <= i ==> !SelectorAt(s, i, e)
    decreases |s| - from
  {
    if from >= |s| then None
    else if from >= 1 && s[from - 1] == '.' && s[from] != '.' then
      match SelectorEnd(s, from, from + 1)
      case Some(e) => Some((from, e))
      case None => FirstSelector(s, from + 1)
    else FirstSelector(s, from + 1)
  }

  /**
   * `findBoldSelector(baseNode)`: the class name styled `{font-weight:700}`
   * in the first STYLE of the first HEAD, or the error the source throws.
   */
  function FindBoldSelector(baseNode: Node): (r: Result<string>)
    ensures r == Failure(GeneralError(NoStyle)) <==> StyleElement(baseNode).None?
    ensures r.Success? ==> |r.value| > 0 && forall k :: 0 <= k < |r.value| ==> r.value[k] != '.'
    ensures StyleElement(baseNode).Some? && r.Failure? ==>
              r.error == GeneralError(NoSelector)
              && forall i, e :: !SelectorAt(TextContent(StyleElement(baseNode).value), i, e)
    ensures r.Success? ==>
              var t := TextContent(StyleElement(baseNode).value);
              var m := FirstSelector(t, 0);
              m.Some? && SelectorAt(t, m.value.0, m.value.1) && r.value == t[m.value.0..m.value.1]
  {
    match StyleElement(baseNode)
    case None => Failure(GeneralError(NoStyle))
    case Some(style) =>
      var t := TextContent(style);
      var m := FirstSelector(t, 0);
      if m.None? then Failure(GeneralError(NoSelector))
      else
        var i := m.value.0;
        var e := m.value.1;
        assert SelectorAt(t, i, e);
        assert forall k :: 0 <= k < e - i ==> t[i..e][k] == t[i + k];
        Success(t[i..e])
  }

  /** In `.c9{font-weight:700}` the bold class is `c9`. */
  lemma BoldSelectorExample()
    ensures FirstSelector(".c9{font-weight:700}", 0) == Some((1, 3))
  {
    var s := ".c9{font-weight:700}";
    assert s[2..2 + |BoldRule|][0] == '9' != BoldRule[0];
    assert OccursAt(s, BoldRule, 3);
    assert SelectorEnd(s, 1, 3) == Some(3);
    assert SelectorEnd(s, 1, 2) == Some(3);
  }

  // -----------------------------------------------------------------------
  // getDepth
  // -----------------------------------------------------------------------

  /** The text `getDepth` coerces: the last `-`-separated part of the second class token. */
  function LevelText(elem: Node): Option<string> {
    match MapGet(elem.attributes, "class")
    case None => None
    case Some(cls) =>
      var tokens := Split(cls, ' ');
      if |tokens| < 2 then None
      else
        var parts := Split(tokens[1], '-');
        Some(parts[|parts| - 1])
  }

  /** `getDepth(elem)`: the indentation level in the class, one more for an OL, NaN when absent. */
  function GetDepth(elem: Node): (r: Number)
    ensures MapGet(elem.attributes, "class").None? ==> r.NaN?
    ensures LevelText(elem).Some? && ParseNumber(LevelText(elem).value).NaN? ==> r.NaN?
  {
    var level := match LevelText(elem) case None => NaN case Some(t) => ParseNumber(t);
    level.Plus(Num(if TagName(elem) == "OL" then 1 else 0))
  }

  /** A class of one token has no second token, so the depth is NaN. */
  lemma DepthWithoutSecondToken(elem: Node)
    requires MapGet(elem.attributes, "class").Some? && ' ' !in MapGet(elem.attributes, "class").value
    ensures GetDepth(elem).NaN?
  {
    SplitWithoutSeparator(MapGet(elem.attributes, "class").value, ' ');
  }

  /** The last part of a split is what follows the last separator. */
  lemma {:induction false} LastPartAfterSeparator(a: string, sep: char, b: string)
    requires sep !in b
    ensures |Split(a + [sep] + b, sep)| >= 2
    ensures Split(a + [sep] + b, sep)[|Split(a + [sep] + b, sep)| - 1] == b
    decreases |a|
  {
    SplitWithoutSeparator(b, sep);
    if |a| == 0 {
      assert a + [sep] + b == [sep] + b;
      assert ([sep] + b)[1..] == b;
    } else {
      var s := a + [sep] + b;
      assert s[1..] == a[1..] + [sep] + b;
      LastPartAfterSeparator(a[1..], sep, b);
    }
  }

  /** The second of the space-separated tokens `first token rest`. */
  lemma SecondToken(first: string, token: string, rest: string)
    requires ' ' !in first && ' ' !in token
    requires rest == "" || rest[0] == ' '
    ensures |Split(first + " " + token + rest, ' ')| >= 2
    ensures Split(first + " " + token + rest, ' ')[1] == token
  {
    assert first + " " + token + rest == first + [' '] + (token + rest);
    SplitAtFirst(first, ' ', token + rest);
    if rest == "" {
      assert token + rest == token;
      SplitWithoutSeparator(token, ' ');
    } else {
      assert token + rest == token + [' '] + rest[1..];
      SplitAtFirst(token, ' ', rest[1..]);
    }
  }

  /**
   * A list whose second class token ends in `-<level>` (as in
   * `c3 lst-kix_list_1-2`) has that level as its depth, plus one for an OL.
   */
  lemma DepthFromClass(elem: Node, first: string, prefix: string, level: nat, rest: string)
    requires MapGet(elem.attributes, "class") == Some(first + " " + (prefix + "-" + NatToString(level)) + rest)
    requires ' ' !in first && ' ' !in prefix
    requires rest == "" || rest[0] == ' '
    ensures GetDepth(elem) == Num(level + if TagName(elem) == "OL" then 1 else 0)
  {
    var digits := NatToString(level);
    assert forall k :: 0 <= k < |digits| ==> IsDigit(digits[k]);
    assert ' ' !in digits && '-' !in digits;
    SecondToken(first, prefix + "-" + digits, rest);
    assert prefix + "-" + digits == prefix + ['-'] + digits;
    LastPartAfterSeparator(prefix, '-', digits);
    NatToStringValue(level);
    assert LevelText(elem) == Some(digits);
  }

  // -----------------------------------------------------------------------
  // isQuestion
  // -----------------------------------------------------------------------

  /** `stripHTML(v.textContent)` for every node, in order. */
  function Texts(others: seq<Node>, decodeURIComponent: UriDecoder): (r: seq<string>)
    ensures |r| == |others|
  {
    seq(|others|, k requires 0 <= k < |others| => StripHTML(TextContent(others[k]), decodeURIComponent))
  }

  /** The `reduce` of `isQuestion`: texts are appended only while fewer than two characters have been gathered. */
  function Accumulate(str: string, texts: seq<string>): string
    decreases |texts|
  {
    if |texts| == 0 then str
    else Accumulate(if |str| >= 2 then str else str + texts[0], texts[1..])
  }

  predicate IsPrefix(a: string, b: string) {
    |a| <= |b| && b[..|a|] == a
  }

  /** The reduce gathers a prefix of the joined text: at least two characters of it, or all of it. */
  lemma {:induction false} AccumulateIsPrefix(str: string, texts: seq<string>)
    ensures |str| >= 2 ==> Accumulate(str, texts) == str
    ensures IsPrefix(Accumulate(str, texts), str + Concat(texts))
    ensures |Accumulate(str, texts)| >= 2 || Accumulate(str, texts) == str + Concat(texts)
    decreases |texts|
  {
    if |texts| == 0 {
      assert str + "" == str;
    } else {
      var t := texts[0];
      var rest := Concat(texts[1..]);
      assert Concat(texts) == t + rest;
      if |str| >= 2 {
        AccumulateIsPrefix(str, texts[1..]);
        assert (str + (t + rest))[..|str|] == str;
      } else {
        AccumulateIsPrefix(str + t, texts[1..]);
        assert str + t + rest == str + (t + rest);
      }
    }
  }

  predicate StartsAsReply(joined: string) {
    StartsWith(joined, ": ") || StartsWith(joined, ":\n")
  }

  /**
   * For the two-character openings `isQuestion` looks for, the reduce
   * decides as joining every text first would.
   */
  lemma AccumulateDecidesAsJoin(texts: seq<string>)
    ensures StartsAsReply(Accumulate("", texts)) <==> StartsAsReply(Concat(texts))
  {
    AccumulateIsPrefix("", texts);
    var a := Accumulate("", texts);
    var j := Concat(texts);
    assert "" + j == j;
    if |a| >= 2 {
      assert a[..2] == j[..2];
    }
  }

  /** The first element child of the first element child, if both exist. */
  function Author(elem: Node): Option<Node> {
    if |Children(elem)| == 0 || |Children(Children(elem)[0])| == 0 then None
    else Some(Children(Children(elem)[0])[0])
  }

  /**
   * `isQuestion(elem)`. With no element children at all the source reads a
   * property of `undefined` and throws a TypeError.
   */
  function IsQuestion(elem: Node, boldClassId: string, decodeURIComponent: UriDecoder): (r: Result<bool>)
    ensures r.Failure? <==> |Children(elem)| == 0
    ensures r.Failure? ==> r.error.TypeError?
    ensures r == Success(true) <==>
              && 1 <= |Children(elem)| <= 2
              && TagName(Children(elem)[0]) == "LI"
              && Author(elem).Some?
              && TagName(Author(elem).value) == "SPAN"
              && MapGet(Author(elem).value.attributes, "class") == Some(boldClassId)
              && StartsAsReply(Concat(Texts(Children(Children(elem)[0])[1..], decodeURIComponent)))
  {
    var children := Children(elem);
    if |children| > 2 then Success(false)
    else if |children| == 0 then Failure(TypeError("Cannot read properties of undefined (reading 'tagName')"))
    else
      var child := children[0];
      if TagName(child) != "LI" then Success(false)
      else
        var grand := Children(child);
        if |grand| == 0 || TagName(grand[0]) != "SPAN" then Success(false)
        else if MapGet(grand[0].attributes, "class") != Some(boldClassId) then Success(false)
        else
          var texts := Texts(grand[1..], decodeURIComponent);
          AccumulateDecidesAsJoin(texts);
          Success(StartsAsReply(Accumulate("", texts)))
  }

  // -----------------------------------------------------------------------
  // convertToQuestionObject
  // -----------------------------------------------------------------------

  /** The SPAN elements among `nodes`, in order. */
  function Spans(nodes: seq<Node>): (r: seq<Node>)
    ensures forall k :: 0 <= k < |r| ==> TagName(r[k]) == "SPAN" && r[k] in nodes
    ensures forall k :: 0 <= k < |nodes| && TagName(nodes[k]) == "SPAN" ==> nodes[k] in r
    ensures |r| == 0 <==> forall k :: 0 <= k < |nodes| ==> TagName(nodes[k]) != "SPAN"
    ensures |r| > 0 ==> r[0] == nodes[IndexOfTag(nodes, "SPAN", 0)]
    decreases |nodes|
  {
    if |nodes| == 0 then []
    else
      var rest := Spans(nodes[1..]);
      assert forall k :: 0 <= k < |rest| ==> rest[k] in nodes;
      assert forall k :: 1 <= k < |nodes| ==> nodes[k] == nodes[1..][k - 1];
      if TagName(nodes[0]) == "SPAN" then [nodes[0]] + rest
      else
        if |rest| > 0 then
          FirstTagInTail(nodes, "SPAN");
          rest
        else rest
  }

  /** When the head does not have the name, the first element that does is the tail's first, one index on. */
  lemma FirstTagInTail(nodes: seq<Node>, name: string)
    requires |nodes| > 0 && TagName(nodes[0]) != name && IndexOfTag(nodes[1..], name, 0) >= 0
    ensures IndexOfTag(nodes, name, 0) == IndexOfTag(nodes[1..], name, 0) + 1
  {
    var i := IndexOfTag(nodes, name, 0);
    var j := IndexOfTag(nodes[1..], name, 0);
    assert nodes[j + 1] == nodes[1..][j];
    assert nodes[1..][i - 1] == nodes[i];
  }

  /** The SPAN filter keeps every SPAN in order: it distributes over appending. */
  lemma {:induction false} SpansAppend(a: seq<Node>, b: seq<Node>)
    ensures Spans(a + b) == Spans(a) + Spans(b)
    decreases |a|
  {
    if |a| > 0 {
      assert (a + b)[1..] == a[1..] + b;
      SpansAppend(a[1..], b);
    } else {
      assert a + b == b;
    }
  }

  /** `attributes.get('src') ?? fallback`. */
  function SrcOr(n: Node, fallback: string): string {
    match MapGet(n.attributes, "src")
    case Some(src) => src
    case None => fallback
  }

  predicate AllBreaks(nodes: seq<Node>) {
    forall k :: 0 <= k < |nodes| ==> TagName(nodes[k]) == "BR"
  }

  /**
   * The fragments one content span contributes: one per element child (its
   * `src`, or its text) unless it has none or only BRs, in which case its
   * whole text.
   */
  function SpanFragments(span: Node, decodeURIComponent: UriDecoder): (r: seq<string>)
    ensures |r| >= 1
    ensures var kids := Children(span);
            |kids| > 0 && !AllBreaks(kids) ==>
              |r| == |kids| && forall k :: 0 <= k < |kids| ==> r[k] == SrcOr(kids[k], StripHTML(InnerHTML(kids[k]), decodeURIComponent))
    ensures var kids := Children(span);
            |kids| == 0 || AllBreaks(kids) ==> r == [StripHTML(InnerHTML(span), decodeURIComponent)]
  {
    var kids := Children(span);
    if |kids| > 0 && !AllBreaks(kids) then
      seq(|kids|, k requires 0 <= k < |kids| => SrcOr(kids[k], StripHTML(InnerHTML(kids[k]), decodeURIComponent)))
    else [StripHTML(InnerHTML(span), decodeURIComponent)]
  }

  /** `spans.flatMap(...)`: the fragments of every span, in order. */
  function ContentFragments(spans: seq<Node>, decodeURIComponent: UriDecoder): (r: seq<string>)
    ensures |r| >= |spans|
    ensures |spans| == 1 ==> r == SpanFragments(spans[0], decodeURIComponent)
    decreases |spans|
  {
    if |spans| == 0 then [] else SpanFragments(spans[0], decodeURIComponent) + ContentFragments(spans[1..], decodeURIComponent)
  }

  /** The fragments of two runs of spans are those of the first followed by those of the second. */
  lemma {:induction false} ContentFragmentsAppend(a: seq<Node>, b: seq<Node>, decodeURIComponent: UriDecoder)
    ensures ContentFragments(a + b, decodeURIComponent) == ContentFragments(a, decodeURIComponent) + ContentFragments(b, decodeURIComponent)
    decreases |a|
  {
    if |a| > 0 {
      assert (a + b)[1..] == a[1..] + b;
      ContentFragmentsAppend(a[1..], b, decodeURIComponent);
    } else {
      assert a + b == b;
    }
  }

  /** `/^:(?:.|\n)?$/`: a colon, then at most one character that is not a line terminator other than `\n`. */
  predicate IsColonFragment(s: string) {
    s == ":" || (|s| == 2 && s[0] == ':' && (s[1] == '\n' || !IsLineTerminator(s[1])))
  }

  predicate IsImagePath(s: string) {
    StartsWith(s, "images/")
  }

  /** The start index `Array.prototype.splice` uses. */
  function SpliceStart(len: nat, start: int): (s: nat)
    ensures s <= len
  {
    if start < 0 then (if len + start < 0 then 0 else len + start)
    else if start > len then len
    else start
  }

  /** `a.splice(start, deleteCount, ...items)`: the removed elements and the array afterwards. */
  function Splice<T>(a: seq<T>, start: int, deleteCount: int, items: seq<T>): (r: (seq<T>, seq<T>))
    ensures |r.0| + |r.1| == |a| + |items|
    ensures multiset(r.0) + multiset(r.1) == multiset(a) + multiset(items)
  {
    var s := SpliceStart(|a|, start);
    var c := if deleteCount < 0 then 0 else if deleteCount > |a| - s then |a| - s else deleteCount;
    assert a == a[..s] + a[s..s + c] + a[s + c..];
    (a[s..s + c], a[..s] + items + a[s + c..])
  }

  /** `findIndex(v => v.startsWith('images/') === image)`, or -1. */
  function FindIndex(a: seq<string>, image: bool): (r: int)
    ensures -1 <= r < |a|
    ensures r >= 0 ==> IsImagePath(a[r]) == image
    ensures forall k :: 0 <= k < |a| && (r < 0 || k < r) ==> IsImagePath(a[k]) != image
    decreases |a|
  {
    if |a| == 0 then -1
    else if IsImagePath(a[0]) == image then 0
    else
      var r := FindIndex(a[1..], image);
      if r < 0 then -1 else r + 1
  }

  /** The number of leading fragments that are images (`image`) or that are not. */
  function LeadingRun(a: seq<string>, image: bool): (n: nat)
    ensures n <= |a|
    ensures forall k :: 0 <= k < n ==> IsImagePath(a[k]) == image
    ensures n < |a| ==> IsImagePath(a[n]) != image
    decreases |a|
  {
    if |a| == 0 || IsImagePath(a[0]) != image then 0 else 1 + LeadingRun(a[1..], image)
  }

  /**
   * The fragments after the image move: the leading images are put after
   * the run of text that follows them.
   */
  function Arranged(a: seq<string>): seq<string> {
    var n := LeadingRun(a, true);
    var rest := a[n..];
    var m := LeadingRun(rest, false);
    rest[..m] + a[..n] + rest[m..]
  }

  /** The length of that run of text: where the first image sits after the move. */
  function QueryLength(a: seq<string>): nat {
    LeadingRun(a[LeadingRun(a, true)..], false)
  }

  /** The move keeps the number of fragments, and the text run fits inside them. */
  lemma ArrangedFits(a: seq<string>)
    ensures |Arranged(a)| == |a| && QueryLength(a) <= |a|
  {
    var n := LeadingRun(a, true);
    assert QueryLength(a) <= |a[n..]|;
  }

  /** The image move only reorders the fragments. */
  lemma ArrangedIsPermutation(a: seq<string>)
    ensures multiset(Arranged(a)) == multiset(a)
  {
    var n := LeadingRun(a, true);
    var rest := a[n..];
    var m := LeadingRun(rest, false);
    assert a == a[..n] + rest;
    assert rest == rest[..m] + rest[m..];
  }

  /** After the move, the fragments before `QueryLength` are text and the one at it is an image. */
  lemma ArrangedSplitsAtFirstImage(a: seq<string>)
    ensures |Arranged(a)| == |a| && QueryLength(a) <= |a|
    ensures forall k :: 0 <= k < QueryLength(a) ==> !IsImagePath(Arranged(a)[k])
    ensures QueryLength(a) < |a| ==> IsImagePath(Arranged(a)[QueryLength(a)])
  {
    var n := LeadingRun(a, true);
    var rest := a[n..];
    var m := LeadingRun(rest, false);
    var r := Arranged(a);
    assert forall k :: 0 <= k < m ==> r[k] == rest[k];
    if m < |a| {
      if n > 0 {
        assert r[m] == a[0];
      } else {
        assert rest == a && r == a;
      }
    }
  }

  /** `findIndex` finds the end of the leading run of the other kind. */
  lemma {:induction false} FindIndexEndsRun(a: seq<string>, image: bool)
    ensures FindIndex(a, image) == if LeadingRun(a, !image) == |a| then -1 else LeadingRun(a, !image)
    decreases |a|
  {
    if |a| > 0 && IsImagePath(a[0]) != image {
      FindIndexEndsRun(a[1..], image);
    }
  }

  /** `splice(0, c)` takes the first `c` elements off the front. */
  lemma SpliceFront(a: seq<string>, c: nat)
    requires c <= |a|
    ensures Splice(a, 0, c, []) == (a[..c], a[c..])
  {
    assert SpliceStart(|a|, 0) == 0;
    assert a[0..c] == a[..c];
    assert a[..0] + [] + a[c..] == a[c..];
  }

  /** `splice(s, 0, ...items)` inserts the items before index `s`. */
  lemma SpliceInsert(a: seq<string>, s: nat, items: seq<string>)
    requires s <= |a|
    ensures Splice(a, s, 0, items).1 == a[..s] + items + a[s..]
  {
    assert SpliceStart(|a|, s) == s;
  }

  /** `splice(-1, -1)` removes nothing. */
  lemma SpliceNegative(a: seq<string>)
    requires |a| > 0
    ensures Splice(a, -1, -1, []) == ([], a)
  {
    var s := SpliceStart(|a|, -1);
    assert s == |a| - 1;
    assert a[s..s] == [];
    assert a[..s] + [] + a[s..] == a;
  }

  /** When every fragment is an image, `splice(-1, -1)` removes nothing and nothing moves. */
  lemma SplicesOnImagesOnly(a: seq<string>)
    requires |a| > 0 && LeadingRun(a, true) == |a|
    ensures FindIndex(a, false) == -1
    ensures Splice(a, -1, -1, []) == ([], a)
    ensures FindIndex(a, true) == 0 && Splice(a, 0, 0, []).1 == a
    ensures Arranged(a) == a && QueryLength(a) == 0
  {
    FindIndexEndsRun(a, false);
    FindIndexEndsRun(a, true);
    SpliceNegative(a);
    SpliceInsert(a, 0, []);
    assert a[..0] + [] + a[0..] == a;
    var rest := a[|a|..];
    assert rest == [];
    assert LeadingRun(rest, false) == 0;
    assert Arranged(a) == [] + a[..|a|] + [];
  }

  /** With text after the leading images, they are spliced out and back in after that text. */
  lemma SplicesAroundText(a: seq<string>, n: nat)
    requires 0 < n == LeadingRun(a, true) < |a|
    ensures FindIndex(a, false) == n
    ensures Splice(a, 0, n, []) == (a[..n], a[n..])
    ensures var rest := a[n..];
            var found := FindIndex(rest, true);
            var newInd := if found < 0 then |rest| else found;
            newInd == QueryLength(a) && Splice(rest, newInd, 0, a[..n]).1 == Arranged(a)
  {
    FindIndexEndsRun(a, false);
    SpliceFront(a, n);
    var rest := a[n..];
    FindIndexEndsRun(rest, true);
    var m := LeadingRun(rest, false);
    SpliceInsert(rest, m, a[..n]);
  }

  /** The splices of the source, on text that starts with an image, perform the move. */
  lemma SplicesMoveLeadingImages(a: seq<string>)
    requires |a| > 0 && IsImagePath(a[0])
    ensures var startInd := FindIndex(a, false);
            var taken := Splice(a, if startInd < 0 then startInd else 0, startInd, []);
            var found := FindIndex(taken.1, true);
            var newInd := if found < 0 then |taken.1| else found;
            Splice(taken.1, newInd, 0, taken.0).1 == Arranged(a) && newInd == QueryLength(a)
  {
    var n := LeadingRun(a, true);
    if n == |a| {
      SplicesOnImagesOnly(a);
    } else {
      SplicesAroundText(a, n);
    }
  }

  lemma ArrangedWithoutLeadingImage(a: seq<string>)
    requires LeadingRun(a, true) == 0
    ensures Arranged(a) == a
  {
    assert a[0..] == a;
    var m := LeadingRun(a, false);
    assert Arranged(a) == a[..m] + [] + a[m..];
    assert a[..m] + [] + a[m..] == a;
  }

  /** Without a leading image nothing moves, and the first image is where `findIndex` finds it. */
  lemma NoMoveWithoutLeadingImage(a: seq<string>)
    requires !(|a| > 0 && IsImagePath(a[0]))
    ensures Arranged(a) == a
    ensures FindIndex(a, true) >= 0 ==> FindIndex(a, true) == QueryLength(a)
    ensures FindIndex(a, true) < 0 ==> |a| == QueryLength(a)
  {
    assert LeadingRun(a, true) == 0;
    ArrangedWithoutLeadingImage(a);
    FindIndexEndsRun(a, true);
    assert a[0..] == a;
  }

  /** `str.substring(from)` for a non-negative start. */
  function Substring(s: string, from: nat): string {
    if from <= |s| then s[from..] else ""
  }

  /** The context of a question: the text of a second LI element child. */
  function Context(children: seq<Node>, decodeURIComponent: UriDecoder): Option<string> {
    if |children| == 2 && TagName(children[1]) == "LI" then
      Some(FormatAndTrim(StripHTML(InnerHTML(children[1]), decodeURIComponent), false))
    else None
  }

  /** The content fragments: those of every span but the first (the asker). */
  function Fragments(spans: seq<Node>, decodeURIComponent: UriDecoder): seq<string> {
    ContentFragments(if |spans| == 0 then [] else spans[1..], decodeURIComponent)
  }

  /** A lone `:` fragment takes the fragment after it with it; `:x` goes alone. */
  function WithoutColon(frags: seq<string>): seq<string>
    requires |frags| > 0 && IsColonFragment(frags[0])
  {
    var drop := 3 - |frags[0]|;
    if drop <= |frags| then frags[drop..] else []
  }

  /** Whether the fragments open with a colon fragment, which is taken out and put back as `": "`. */
  predicate HasColon(frags: seq<string>) {
    |frags| > 0 && IsColonFragment(frags[0])
  }

  /** The fragments the image move works on: those left after the colon step. */
  function QuestionBody(frags: seq<string>): seq<string> {
    if HasColon(frags) then WithoutColon(frags) else frags
  }

  /** The `": "` put back in front when a colon fragment was taken out. */
  function ColonBack(frags: seq<string>): seq<string> {
    if HasColon(frags) then [": "] else []
  }

  const NoChildren := "Cannot read properties of undefined (reading 'children')"
  const NoAsker := "Cannot read properties of undefined (reading 'innerHTML')"

  /** `.map(v => formatAndTrim(v, true))`: one formatted attachment per fragment, in order. */
  function FormatEach(frags: seq<string>): (r: seq<string>)
    ensures |r| == |frags|
    ensures forall k :: 0 <= k < |r| ==> r[k] == FormatAndTrim(frags[k], true)
  {
    seq(|frags|, k requires 0 <= k < |frags| => FormatAndTrim(frags[k], true))
  }

  /**
   * The question assembled from the asker span, the arranged fragments and
   * the index of the first attachment: the fragments before it, joined and
   * without their first two characters, are the query; each one from it on
   * is an attachment.
   */
  function Assemble(asker: Node, content: seq<string>, first: nat, context: Option<string>, decodeURIComponent: UriDecoder): (q: Question)
    requires first <= |content|
    ensures q.asker == FormatAndTrim(StripHTML(InnerHTML(asker), decodeURIComponent), false)
    ensures q.query == FormatAndTrim(Substring(Concat(content[..first]), 2), true)
    ensures q.attachments == FormatEach(content[first..])
    ensures q.context == context
  {
    Question(
      FormatAndTrim(StripHTML(InnerHTML(asker), decodeURIComponent), false),
      FormatAndTrim(Substring(Concat(content[..first]), 2), true),
      FormatEach(content[first..]),
      context)
  }

  /**
   * The question `convertToQuestionObject(elem)` builds: the asker span's
   * text; the text fragments up to the first image (with a leading colon
   * fragment and the two characters after it dropped) as the query; each
   * later fragment as an attachment; the second LI as the context.
   */
  function QuestionObject(elem: Node, decodeURIComponent: UriDecoder): (r: Result<Question>)
    ensures r.Failure? <==> |Children(elem)| == 0 || |Spans(Children(Children(elem)[0]))| == 0
    ensures r.Failure? ==> r.error.TypeError?
    ensures r.Success? ==> (r.value.context.Some? <==> |Children(elem)| == 2 && TagName(Children(elem)[1]) == "LI")
  {
    var children := Children(elem);
    if |children| == 0 then Failure(TypeError(NoChildren))
    else
      var spans := Spans(Children(children[0]));
      if |spans| == 0 then Failure(TypeError(NoAsker))
      else
        Success(QuestionOf(spans[0], Fragments(spans, decodeURIComponent), Context(children, decodeURIComponent), decodeURIComponent))
  }

  /** Cutting `front + a` after `front` and `n` more elements cuts `a` after `n`. */
  lemma SplitBehind(front: seq<string>, a: seq<string>, n: nat)
    requires n <= |a|
    ensures (front + a)[..|front| + n] == front + a[..n]
    ensures (front + a)[|front| + n..] == a[n..]
  {
  }

  /**
   * The question built from the asker span, the content fragments and the
   * context: the text fragments that the move leaves before the first image,
   * behind `": "` when a colon fragment was taken out, make the query; each
   * fragment from the first image on makes one attachment.
   */
  function QuestionOf(asker: Node, frags: seq<string>, context: Option<string>, decodeURIComponent: UriDecoder): (q: Question)
    ensures q.context == context
  {
    var body := QuestionBody(frags);
    ArrangedFits(body);
    Assemble(asker, ColonBack(frags) + Arranged(body), |ColonBack(frags)| + QueryLength(body), context, decodeURIComponent)
  }

  /**
   * The question built from fragments: the text fragments that the move
   * leaves before the first image, behind `": "` when a colon fragment was
   * taken out, make the query; each fragment from the first image on makes
   * one attachment.
   */
  lemma QuestionOfSplits(asker: Node, frags: seq<string>, context: Option<string>, decodeURIComponent: UriDecoder)
    ensures var q := QuestionOf(asker, frags, context, decodeURIComponent);
            var body := QuestionBody(frags);
            |Arranged(body)| == |body| && QueryLength(body) <= |body|
            && q.asker == FormatAndTrim(StripHTML(InnerHTML(asker), decodeURIComponent), false)
            && q.query == FormatAndTrim(Substring(Concat(ColonBack(frags) + Arranged(body)[..QueryLength(body)]), 2), true)
            && q.attachments == FormatEach(Arranged(body)[QueryLength(body)..])
  {
    var body := QuestionBody(frags);
    var front := ColonBack(frags);
    ArrangedFits(body);
    SplitBehind(front, Arranged(body), QueryLength(body));
  }

  /**
   * What `convertToQuestionObject` returns for an element: the asker is the
   * first span's text; the query is made of text fragments only, and the
   * first fragment to become an attachment, if any, is an image path; each
   * later fragment becomes exactly one attachment; and the move only
   * changes the order of the fragments.
   */
  lemma QuestionObjectSplits(elem: Node, decodeURIComponent: UriDecoder)
    requires QuestionObject(elem, decodeURIComponent).Success?
    ensures |Children(elem)| > 0 && |Spans(Children(Children(elem)[0]))| > 0
    ensures var q := QuestionObject(elem, decodeURIComponent).value;
            var spans := Spans(Children(Children(elem)[0]));
            var frags := Fragments(spans, decodeURIComponent);
            var body := QuestionBody(frags);
            QueryLength(body) <= |Arranged(body)|
            && var text := Arranged(body)[..QueryLength(body)];
               var images := Arranged(body)[QueryLength(body)..];
               && q.asker == FormatAndTrim(StripHTML(InnerHTML(spans[0]), decodeURIComponent), false)
               && q.query == FormatAndTrim(Substring(Concat(ColonBack(frags) + text), 2), true)
               && (forall k :: 0 <= k < |text| ==> !IsImagePath(text[k]))
               && (|images| > 0 ==> IsImagePath(images[0]))
               && q.attachments == FormatEach(images)
               && multiset(text) + multiset(images) == multiset(body)
  {
    var children := Children(elem);
    var spans := Spans(Children(children[0]));
    var frags := Fragments(spans, decodeURIComponent);
    var context := Context(children, decodeURIComponent);
    assert QuestionObject(elem, decodeURIComponent).value == QuestionOf(spans[0], frags, context, decodeURIComponent);
    QuestionOfSplits(spans[0], frags, context, decodeURIComponent);
    ArrangedParts(QuestionBody(frags));
  }

  /**
   * After the move, the fragments before `QueryLength` are text, the one at
   * it is an image path, and together they are the fragments moved.
   */
  lemma ArrangedParts(a: seq<string>)
    ensures QueryLength(a) <= |Arranged(a)|
    ensures var text := Arranged(a)[..QueryLength(a)];
            var images := Arranged(a)[QueryLength(a)..];
            && (forall k :: 0 <= k < |text| ==> !IsImagePath(text[k]))
            && (|images| > 0 ==> IsImagePath(images[0]))
            && multiset(text) + multiset(images) == multiset(a)
  {
    ArrangedSplitsAtFirstImage(a);
    ArrangedIsPermutation(a);
    var r := Arranged(a);
    assert r == r[..QueryLength(a)] + r[QueryLength(a)..];
  }


  /**
   * The image move of `convertToQuestionObject`, in place: a leading run of
   * image paths is spliced out and spliced back in before the first image
   * after the text, and the index of the first image is found.
   */
  method MoveLeadingImages(body: seq<string>) returns (contentArr: seq<string>, firstImageIndex: nat)
    ensures contentArr == Arranged(body) && firstImageIndex == QueryLength(body)
    ensures firstImageIndex <= |contentArr|
  {
    ArrangedSplitsAtFirstImage(body);
    contentArr := body;
    firstImageIndex := |contentArr|;
    if |contentArr| > 0 && IsImagePath(contentArr[0]) {
      SplicesMoveLeadingImages(contentArr);
      var startInd := FindIndex(contentArr, false);
      var taken := Splice(contentArr, if startInd < 0 then startInd else 0, startInd, []);
      var imgArr := taken.0;
      contentArr := taken.1;
      var newInd := FindIndex(contentArr, true);
      if newInd < 0 {
        newInd := |contentArr|;
      }
      contentArr := Splice(contentArr, newInd, 0, imgArr).1;
      firstImageIndex := newInd;
    } else {
      NoMoveWithoutLeadingImage(contentArr);
      var ind := FindIndex(contentArr, true);
      if ind >= 0 {
        firstImageIndex := ind;
      }
    }
  }

  /**
   * `convertToQuestionObject(elem)`, step by step: the fragments are
   * spliced, searched and unshifted in place as the source does.
   */
  method ConvertToQuestionObject(elem: Node, decodeURIComponent: UriDecoder) returns (r: Result<Question>)
    ensures r == QuestionObject(elem, decodeURIComponent)
  {
    var addContext := false;
    var contextToAdd := "";
    var baseElemChildren := Children(elem);
    if |baseElemChildren| == 2 {
      var e := baseElemChildren[1];
      if TagName(e) == "LI" {
        addContext := true;
        contextToAdd := FormatAndTrim(StripHTML(InnerHTML(e), decodeURIComponent), false);
      }
    }
    if |baseElemChildren| == 0 {
      return Failure(TypeError(NoChildren));
    }
    var children := Spans(Children(baseElemChildren[0]));
    var contentArr := ContentFragments(if |children| == 0 then [] else children[1..], decodeURIComponent);
    if |children| == 0 {
      return Failure(TypeError(NoAsker));
    }
    var context := if addContext then Some(contextToAdd) else None;
    assert context == Context(baseElemChildren, decodeURIComponent);
    var question := ArrangeQuestion(children[0], contentArr, context, decodeURIComponent);
    r := Success(question);
  }

  /** `contentArr.splice(0, 3 - contentArr[0].length)` on a leading colon fragment. */
  method DropColon(frags: seq<string>) returns (rest: seq<string>)
    requires |frags| > 0 && IsColonFragment(frags[0])
    ensures rest == WithoutColon(frags)
  {
    rest := Splice(frags, 0, 3 - |frags[0]|, []).1;
  }

  /**
   * The colon step and the image move of `convertToQuestionObject` on the
   * content fragments, in place, then the question they make.
   */
  method ArrangeQuestion(asker: Node, frags: seq<string>, context: Option<string>, decodeURIComponent: UriDecoder) returns (q: Question)
    ensures q == QuestionOf(asker, frags, context, decodeURIComponent)
  {
    var contentArr := frags;
    var addColonBackIn := false;
    if |contentArr| > 0 && IsColonFragment(contentArr[0]) {
      addColonBackIn := true;
      contentArr := DropColon(contentArr);
    }
    ghost var body := contentArr;

    var firstImageIndex;
    contentArr, firstImageIndex := MoveLeadingImages(contentArr);

    if addColonBackIn {
      firstImageIndex := firstImageIndex + 1;
      contentArr := [": "] + contentArr;
    }
    assert addColonBackIn == HasColon(frags);
    assert body == QuestionBody(frags);
    assert contentArr == ColonBack(frags) + Arranged(body);
    assert firstImageIndex == QueryLength(body) + |ColonBack(frags)|;
    q := Assemble(asker, contentArr, firstImageIndex, context, decodeURIComponent);
  }

  // -----------------------------------------------------------------------
  // expandAndFormatReplies
  // -----------------------------------------------------------------------

  /** `+(elem.attributes.get('start') ?? 1)`. */
  function StartNumber(elem: Node): Number {
    match MapGet(elem.attributes, "start")
    case None => Num(1)
    case Some(text) => ParseNumber(text)
  }

  /** A number in a template literal. */
  function NumberText(n: Number): string {
    match n
    case NaN => "NaN"
    case Num(i) => IntToString(i)
  }

  /** The test of the `every` callback: a SPAN whose first element child is an IMG. */
  predicate IsImageSpan(v: Node) {
    TagName(v) == "SPAN" && FirstChild(v).Some? && TagName(FirstChild(v).value) == "IMG"
  }

  predicate AllImageSpans(nodes: seq<Node>) {
    forall k :: 0 <= k < |nodes| ==> IsImageSpan(nodes[k])
  }

  /** `(isOrdered ? `${start + index}. ` : '')`. */
  function ItemNumber(isOrdered: bool, start: Number, index: nat): string {
    if isOrdered then NumberText(start.Plus(Num(index))) + ". " else ""
  }

  /** What one child, at position `index` among the element children, contributes to the replies. */
  function ItemReplies(e: Node, index: nat, isOrdered: bool, start: Number, decodeURIComponent: UriDecoder): (r: seq<string>)
    ensures TagName(e) != "LI" ==> r == []
    ensures TagName(e) == "LI" && AllImageSpans(Children(e)) ==> |r| == |Children(e)|
    ensures TagName(e) == "LI" && !AllImageSpans(Children(e)) ==> |r| <= 1
    ensures TagName(e) == "LI" && !AllImageSpans(Children(e)) && TagName(Children(e)[0]) != "SPAN" ==> r == []
  {
    if TagName(e) != "LI" then []
    else
      var childArray := Children(e);
      if AllImageSpans(childArray) then
        seq(|childArray|, k requires 0 <= k < |childArray| =>
          FormatAndTrim(SrcOr(FirstChild(childArray[k]).value, StripHTML(TextContent(childArray[k]), decodeURIComponent)), true))
      else
        var contained := childArray[0];
        if TagName(contained) != "SPAN" then []
        else if FirstChild(contained).Some? && TagName(FirstChild(contained).value) == "IMG" then
          [FormatAndTrim(SrcOr(FirstChild(contained).value, StripHTML(InnerHTML(e), decodeURIComponent)), true)]
        else
          [FormatAndTrim(ItemNumber(isOrdered, start, index) + StripHTML(InnerHTML(e), decodeURIComponent), true)]
  }

  /** `children.flatMap((e, index) => item(e, index))`, the first child sitting at position `offset`. */
  function FlatMapIndexed(children: seq<Node>, offset: nat, item: (Node, nat) -> seq<string>): seq<string>
    decreases |children|
  {
    if |children| == 0 then []
    else item(children[0], offset) + FlatMapIndexed(children[1..], offset + 1, item)
  }

  /** The replies one child of `elem` contributes, given its position. */
  function ReplyItem(elem: Node, decodeURIComponent: UriDecoder): (Node, nat) -> seq<string> {
    (e: Node, index: nat) => ItemReplies(e, index, TagName(elem) == "OL", StartNumber(elem), decodeURIComponent)
  }

  /** `expandAndFormatReplies(elem)`: the replies of every list item, in child order. */
  function ExpandAndFormatReplies(elem: Node, decodeURIComponent: UriDecoder): seq<string> {
    FlatMapIndexed(Children(elem), 0, ReplyItem(elem, decodeURIComponent))
  }

  /** The flatMap follows child order, each child getting its own position among all element children. */
  lemma {:induction false} FlatMapAppend(a: seq<Node>, b: seq<Node>, offset: nat, item: (Node, nat) -> seq<string>)
    ensures FlatMapIndexed(a + b, offset, item) == FlatMapIndexed(a, offset, item) + FlatMapIndexed(b, offset + |a|, item)
    decreases |a|
  {
    if |a| == 0 {
      assert a + b == b;
    } else {
      assert (a + b)[0] == a[0] && (a + b)[1..] == a[1..] + b;
      FlatMapAppend(a[1..], b, offset + 1, item);
    }
  }

  /** A child whose item is empty drops out of the flatMap, the children after it keeping their positions. */
  lemma FlatMapSkip(a: seq<Node>, e: Node, b: seq<Node>, offset: nat, item: (Node, nat) -> seq<string>)
    requires item(e, offset + |a|) == []
    ensures FlatMapIndexed(a + [e] + b, offset, item)
            == FlatMapIndexed(a, offset, item) + FlatMapIndexed(b, offset + |a| + 1, item)
  {
    assert a + [e] + b == a + ([e] + b);
    FlatMapAppend(a, [e] + b, offset, item);
    assert ([e] + b)[0] == e && ([e] + b)[1..] == b;
  }

  /** A child that is not an LI adds nothing, and the children after it keep their positions. */
  lemma NonItemAddsNothing(elem: Node, a: seq<Node>, e: Node, b: seq<Node>, decodeURIComponent: UriDecoder)
    requires Children(elem) == a + [e] + b && TagName(e) != "LI"
    ensures ExpandAndFormatReplies(elem, decodeURIComponent)
            == FlatMapIndexed(a, 0, ReplyItem(elem, decodeURIComponent))
               + FlatMapIndexed(b, |a| + 1, ReplyItem(elem, decodeURIComponent))
  {
    var item := ReplyItem(elem, decodeURIComponent);
    assert item(e, |a|) == [];
    FlatMapSkip(a, e, b, 0, item);
  }

  /** The text of a number in a template literal: not empty, no newline, no right quote. */
  lemma NumberTextIsPlain(n: Number)
    ensures |NumberText(n)| >= 1 && NumberText(n)[0] != '\n'
    ensures forall k :: 0 <= k < |NumberText(n)| ==> NumberText(n)[k] != RightQuote
  {
    if n.Num? && n.n >= 0 {
      assert AllDigits(NatToString(n.n));
    } else if n.Num? {
      var d := NatToString(-n.n);
      assert AllDigits(d);
      assert forall k :: 1 <= k < |NumberText(n)| ==> NumberText(n)[k] == d[k - 1];
    }
  }

  /** An LI whose first element child is a SPAN not opening with an IMG is one text reply. */
  lemma TextItemIsOneReply(e: Node, index: nat, isOrdered: bool, start: Number, decodeURIComponent: UriDecoder)
    requires TagName(e) == "LI" && |Children(e)| > 0
    requires TagName(Children(e)[0]) == "SPAN" && !IsImageSpan(Children(e)[0])
    ensures ItemReplies(e, index, isOrdered, start, decodeURIComponent)
            == [FormatAndTrim(ItemNumber(isOrdered, start, index) + StripHTML(InnerHTML(e), decodeURIComponent), true)]
  {
    assert !AllImageSpans(Children(e));
  }

  /**
   * A text item of an ordered list (its first element child a SPAN not
   * opening with an IMG) is one reply, numbered `start + index`.
   */
  lemma OrderedItemIsNumbered(e: Node, index: nat, start: Number, decodeURIComponent: UriDecoder)
    requires TagName(e) == "LI" && |Children(e)| > 0
    requires TagName(Children(e)[0]) == "SPAN" && !IsImageSpan(Children(e)[0])
    ensures |ItemReplies(e, index, true, start, decodeURIComponent)| == 1
    ensures StartsWith(ItemReplies(e, index, true, start, decodeURIComponent)[0], NumberText(start.Plus(Num(index))) + ". ")
  {
    var number := NumberText(start.Plus(Num(index)));
    NumberTextIsPlain(start.Plus(Num(index)));
    var prefix := number + ". ";
    assert prefix[0] == number[0] && prefix[|prefix| - 1] == ' ';
    assert forall k :: 0 <= k < |prefix| ==> prefix[k] != RightQuote;
    TextItemIsOneReply(e, index, true, start, decodeURIComponent);
    FormatAndTrimKeepsPrefix(prefix, StripHTML(InnerHTML(e), decodeURIComponent));
  }

  /**
   * Items holding only text have no element children, so each counts as
   * all-images and yields nothing: `<ol start="3"><li>first</li><li>second</li></ol>`
   * expands to no reply at all.
   */
  lemma TextOnlyItemsYieldNothing(decodeURIComponent: UriDecoder)
    ensures ExpandAndFormatReplies(
              Node("ol", [Attr("start", "3")], [Elem(Node("li", [], [Text("first")])), Elem(Node("li", [], [Text("second")]))]),
              decodeURIComponent) == []
  {
    var first := Node("li", [], [Text("first")]);
    var second := Node("li", [], [Text("second")]);
    var ol := Node("ol", [Attr("start", "3")], [Elem(first), Elem(second)]);
    assert Children(first) == [] && Children(second) == [];
    assert TagName(first) == "LI" && TagName(second) == "LI";
    ElementsAppend([Elem(first)], [Elem(second)]);
    assert ol.allChildren == [Elem(first)] + [Elem(second)];
    assert Children(ol) == [first, second];
    var item := ReplyItem(ol, decodeURIComponent);
    assert item(first, 0) == [] && item(second, 1) == [];
    assert [first, second][1..] == [second];
  }
}
