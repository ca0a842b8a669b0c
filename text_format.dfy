/**
 * The string utilities of src/breakIntoCategories.js that turn serialized
 * markup into plain text: `stripProxyURL`, `stripHTML` and `formatAndTrim`.
 *
 * Each global regular-expression replacement of `stripHTML` is a scanner
 * over the remaining text. All the patterns are made of literal delimiters
 * joined by lazy `.*?` / `.+?` runs, so the first delimiter found at each
 * step is the one the backtracking matcher settles on; `.` matches anything
 * but a line terminator, so each match lies within one line.
 */
module TextFormat {
  import opened Wrappers
  import opened JsText
  import opened HtmlNode
  import opened Markdown

  /** `decodeURIComponent`, a library call outside this model. */
  type UriDecoder = string -> string

  // -----------------------------------------------------------------------
  // Searching
  // -----------------------------------------------------------------------

  /** The number of characters before the first line terminator. */
  function LineLength(s: string): (r: nat)
    ensures r <= |s| && NoLineTerminator(s[..r])
    ensures r < |s| ==> IsLineTerminator(s[r])
    decreases |s|
  {
    if |s| == 0 || IsLineTerminator(s[0]) then 0
    else
      var r := 1 + LineLength(s[1..]);
      assert s[..r] == [s[0]] + s[1..][..r - 1];
      r
  }

  predicate OccursAt(s: string, pat: string, q: nat) {
    q + |pat| <= |s| && s[q..q + |pat|] == pat
  }

  /** `pat` occurs nowhere inside `run`. */
  predicate Avoids(run: string, pat: string) {
    forall i: nat :: i + |pat| <= |run| ==> !OccursAt(run, pat, i)
  }

  /** `pat` matches `s` character by character from `q`. */
  predicate MatchesAt(s: string, pat: string, q: nat)
    decreases |pat|
  {
    |pat| == 0 || (q < |s| && s[q] == pat[0] && MatchesAt(s, pat[1..], q + 1))
  }

  lemma {:induction false} MatchesAtOccurs(s: string, pat: string, q: nat)
    requires q <= |s|
    ensures MatchesAt(s, pat, q) <==> OccursAt(s, pat, q)
    decreases |pat|
  {
    if |pat| > 0 && q < |s| {
      MatchesAtOccurs(s, pat[1..], q + 1);
      if q + |pat| <= |s| {
        var w := s[q..q + |pat|];
        assert w == [s[q]] + s[q + 1..q + |pat|];
        assert pat == [pat[0]] + pat[1..];
        if w == pat {
          assert w[0] == pat[0] && w[1..] == pat[1..];
        }
      }
    }
  }

  /**
   * The first index at or after `from` where `pat` occurs entirely before
   * `limit`: how a lazy `.*?` followed by a literal delimiter advances.
   */
  function Find(s: string, pat: string, from: nat, limit: nat): Option<nat>
    decreases limit - from
  {
    if from + |pat| > limit then None
    else if MatchesAt(s, pat, from) then Some(from)
    else Find(s, pat, from + 1, limit)
  }

  /** What is found is an occurrence inside the range. */
  lemma {:induction false} FindFound(s: string, pat: string, from: nat, limit: nat)
    requires limit <= |s| && Find(s, pat, from, limit).Some?
    ensures from <= Find(s, pat, from, limit).value
    ensures Find(s, pat, from, limit).value + |pat| <= limit
    ensures OccursAt(s, pat, Find(s, pat, from, limit).value)
    decreases limit - from
  {
    if MatchesAt(s, pat, from) {
      MatchesAtOccurs(s, pat, from);
    } else {
      FindFound(s, pat, from + 1, limit);
    }
  }

  /** The occurrence found is the first in the range, and when none is found there is none. */
  lemma {:induction false} FindIsFirst(s: string, pat: string, from: nat, limit: nat)
    requires limit <= |s|
    ensures Find(s, pat, from, limit).Some? ==> forall q :: from <= q < Find(s, pat, from, limit).value ==> !OccursAt(s, pat, q)
    ensures Find(s, pat, from, limit).None? ==> forall q :: from <= q && q + |pat| <= limit ==> !OccursAt(s, pat, q)
    decreases limit - from
  {
    if from + |pat| <= limit {
      MatchesAtOccurs(s, pat, from);
      if !MatchesAt(s, pat, from) {
        FindIsFirst(s, pat, from + 1, limit);
      }
    }
  }

  /** An occurrence with none before it in the range is the one found. */
  lemma {:induction false} FindReturns(s: string, pat: string, from: nat, limit: nat, t: nat)
    requires from <= t && t + |pat| <= limit <= |s| && OccursAt(s, pat, t)
    requires forall q :: from <= q < t ==> !OccursAt(s, pat, q)
    ensures Find(s, pat, from, limit) == Some(t)
    decreases t - from
  {
    MatchesAtOccurs(s, pat, from);
    if from < t {
      FindReturns(s, pat, from + 1, limit, t);
    }
  }

  // -----------------------------------------------------------------------
  // stripProxyURL
  // -----------------------------------------------------------------------

  predicate IsProxyHost(str: string) {
    StartsWith(str, "https://google.com") || StartsWith(str, "https://www.google.com")
  }

  function IndexOf(s: string, c: char): (r: nat)
    requires c in s
    ensures r < |s| && s[r] == c && c !in s[..r]
    decreases |s|
  {
    if s[0] == c then 0
    else
      var r := 1 + IndexOf(s[1..], c);
      assert s[..r] == [s[0]] + s[1..][..r - 1];
      r
  }

  /** The position of the first part that starts with `q=`, or -1: `findIndex`. */
  function QParamIndex(parts: seq<string>): (r: int)
    ensures -1 <= r < |parts|
    ensures r >= 0 ==> StartsWith(parts[r], "q=")
    ensures forall k :: 0 <= k < |parts| && (r < 0 || k < r) ==> !StartsWith(parts[k], "q=")
    decreases |parts|
  {
    if |parts| == 0 then -1
    else if StartsWith(parts[0], "q=") then 0
    else
      var i := QParamIndex(parts[1..]);
      if i < 0 then -1 else i + 1
  }

  /** `find(v => v.startsWith('q='))`: the first part that starts with `q=`. */
  function FindQParam(parts: seq<string>): (r: Option<string>)
    ensures r.Some? ==> exists k :: 0 <= k < |parts| && parts[k] == r.value && StartsWith(parts[k], "q=")
                                    && forall j :: 0 <= j < k ==> !StartsWith(parts[j], "q=")
    ensures r.None? <==> forall k :: 0 <= k < |parts| ==> !StartsWith(parts[k], "q=")
  {
    var i := QParamIndex(parts);
    if i < 0 then None else Some(parts[i])
  }

  /** The `&`-separated parts of the text after the first `?`. */
  function QueryParts(str: string): seq<string>
    requires '?' in str
  {
    Split(str[IndexOf(str, '?') + 1..], '&')
  }

  /**
   * `stripProxyURL(str)`: a link through the document host's redirector is
   * replaced by the decoded value of its `q` parameter; any other text is
   * returned unchanged.
   */
  function StripProxyURL(str: string, decodeURIComponent: UriDecoder): (r: string)
    ensures !IsProxyHost(str) || '?' !in str ==> r == str
    ensures IsProxyHost(str) && '?' in str ==>
              (forall k :: 0 <= k < |QueryParts(str)| ==> !StartsWith(QueryParts(str)[k], "q=")) ==> r == str
    ensures IsProxyHost(str) && '?' in str && FindQParam(QueryParts(str)).Some? ==>
              exists k :: 0 <= k < |QueryParts(str)| && StartsWith(QueryParts(str)[k], "q=")
                          && (forall j :: 0 <= j < k ==> !StartsWith(QueryParts(str)[j], "q="))
                          && r == decodeURIComponent(QueryParts(str)[k][2..])
  {
    if !IsProxyHost(str) then str
    else if '?' !in str then str
    else
      match FindQParam(QueryParts(str))
      case None => str
      case Some(qParam) => decodeURIComponent(qParam[2..])
  }

  // -----------------------------------------------------------------------
  // Links: /<a.*? href="(?<link>.*?)".*?>(?<text>.*?)<\/a>/g
  // -----------------------------------------------------------------------

  datatype AnchorMatch = AnchorMatch(link: string, text: string, length: nat)

  /** The anchor that starts at the head of `s`, if the pattern matches there. */
  function AnchorAt(s: string): (r: Option<AnchorMatch>)
    ensures r.Some? ==> StartsWith(s, "<a") && 2 <= r.value.length <= |s|
  {
    if !StartsWith(s, "<a") then None
    else
      var line := LineLength(s);
      match Find(s, " href=\"", 2, line)
      case None => None
      case Some(p) =>
        FindFound(s, " href=\"", 2, line);
        LinkAndText(s, p + 7, line)
  }

  /** The rest of the anchor pattern from where the link starts: `(.*?)".*?>(.*?)<\/a>`. */
  function LinkAndText(s: string, from: nat, line: nat): (r: Option<AnchorMatch>)
    requires line <= |s|
    ensures r.Some? ==> from + 6 <= r.value.length <= line
  {
    match Find(s, "\"", from, line)
    case None => None
    case Some(e) =>
      FindFound(s, "\"", from, line);
      match Find(s, ">", e + 1, line)
      case None => None
      case Some(g) =>
        FindFound(s, ">", e + 1, line);
        match Find(s, "</a>", g + 1, line)
        case None => None
        case Some(h) =>
          FindFound(s, "</a>", g + 1, line);
          Some(AnchorMatch(s[from..e], s[g + 1..h], h + 4))
  }

  /**
   * An anchor match is made of the first ` href="` after `<a`, the first
   * `"` after it, the first `>` after that and the first `</a>` after that,
   * all within the first line: the link lies between the first two, the
   * text between the last two.
   */
  lemma AnchorAtFinds(s: string) returns (p: nat, e: nat, g: nat, h: nat)
    requires AnchorAt(s).Some?
    ensures Find(s, " href=\"", 2, LineLength(s)) == Some(p)
    ensures Find(s, "\"", p + 7, LineLength(s)) == Some(e)
    ensures Find(s, ">", e + 1, LineLength(s)) == Some(g)
    ensures Find(s, "</a>", g + 1, LineLength(s)) == Some(h)
    ensures p + 7 <= e < g < h && h + 4 <= LineLength(s) <= |s|
    ensures AnchorAt(s).value == AnchorMatch(s[p + 7..e], s[g + 1..h], h + 4)
  {
    var line := LineLength(s);
    var fp := Find(s, " href=\"", 2, line);
    assert fp.Some?;
    p := fp.value;
    FindFound(s, " href=\"", 2, line);
    assert AnchorAt(s) == LinkAndText(s, p + 7, line);
    e, g, h := LinkAndTextFinds(s, p + 7, line);
  }

  lemma LinkAndTextFinds(s: string, from: nat, line: nat) returns (e: nat, g: nat, h: nat)
    requires line <= |s| && LinkAndText(s, from, line).Some?
    ensures Find(s, "\"", from, line) == Some(e)
    ensures Find(s, ">", e + 1, line) == Some(g)
    ensures Find(s, "</a>", g + 1, line) == Some(h)
    ensures from <= e < g < h && h + 4 <= line
    ensures LinkAndText(s, from, line).value == AnchorMatch(s[from..e], s[g + 1..h], h + 4)
  {
    var fe := Find(s, "\"", from, line);
    assert fe.Some?;
    e := fe.value;
    FindFound(s, "\"", from, line);
    var fg := Find(s, ">", e + 1, line);
    assert fg.Some?;
    g := fg.value;
    FindFound(s, ">", e + 1, line);
    var fh := Find(s, "</a>", g + 1, line);
    assert fh.Some?;
    h := fh.value;
    FindFound(s, "</a>", g + 1, line);
    LinkAndTextAt(s, from, line, e, g, h);
  }

  /** The link of an anchor holds no `"`, and the whole match lies within one line. */
  lemma AnchorLinkHasNoQuote(s: string)
    requires AnchorAt(s).Some?
    ensures '"' !in AnchorAt(s).value.link
    ensures NoLineTerminator(s[..AnchorAt(s).value.length])
  {
    var p, e, g, h := AnchorAtFinds(s);
    var m := AnchorAt(s).value;
    FindCharFirst(s, '"', p + 7, LineLength(s));
    assert forall k :: 0 <= k < |m.link| ==> m.link[k] == s[p + 7 + k];
    PrefixOfLine(s, h + 4);
  }

  /** A one-character delimiter does not occur before where it is first found. */
  lemma FindCharFirst(s: string, c: char, from: nat, limit: nat)
    requires limit <= |s| && Find(s, [c], from, limit).Some?
    ensures Find(s, [c], from, limit).value < limit
    ensures forall q :: from <= q < Find(s, [c], from, limit).value ==> s[q] != c
  {
    FindFound(s, [c], from, limit);
    FindIsFirst(s, [c], from, limit);
    forall q | from <= q < Find(s, [c], from, limit).value
      ensures s[q] != c
    {
      assert !OccursAt(s, [c], q);
      assert s[q..q + 1] == [s[q]];
    }
  }

  lemma PrefixOfLine(s: string, n: nat)
    requires n <= LineLength(s)
    ensures NoLineTerminator(s[..n])
  {
    assert forall k :: 0 <= k < n ==> s[..n][k] == s[..LineLength(s)][k];
  }

  /** The Markdown link an anchor becomes: both parts escaped, the target unwrapped. */
  function LinkMarkdown(text: string, link: string, decodeURIComponent: UriDecoder): (r: string)
    ensures PlainFor(text, "]()") && PlainFor(link, ")") ==> r == "[" + text + "](" + StripProxyURL(link, decodeURIComponent) + ")"
  {
    EscapedLeavesPlainText(text, "]()", false);
    EscapedLeavesPlainText(link, ")", false);
    var dispText := Escaped(text, "]()", false);
    var linkText := StripProxyURL(Escaped(link, ")", false), decodeURIComponent);
    "[" + dispText + "](" + linkText + ")"
  }

  function ConvertAnchors(s: string, decodeURIComponent: UriDecoder): (r: string)
    ensures '<' !in s ==> r == s
    decreases |s|
  {
    if |s| == 0 then ""
    else
      assert AnchorAt(s).Some? ==> s[0] == '<' by {
        if AnchorAt(s).Some? {
          assert s[..2][0] == s[0];
        }
      }
      match AnchorAt(s)
      case Some(m) => LinkMarkdown(m.text, m.link, decodeURIComponent) + ConvertAnchors(s[m.length..], decodeURIComponent)
      case None => [s[0]] + ConvertAnchors(s[1..], decodeURIComponent)
  }

  // -----------------------------------------------------------------------
  // Line breaks and tags: replaceAll('<br>', '\n'), then /<.+?>/g
  // -----------------------------------------------------------------------

  function ReplaceBr(s: string): (r: string)
    ensures |r| <= |s|
    ensures '<' !in s ==> r == s
    decreases |s|
  {
    if |s| == 0 then ""
    else if StartsWith(s, "<br>") then
      assert s[0] == s[..4][0];
      "\n" + ReplaceBr(s[4..])
    else [s[0]] + ReplaceBr(s[1..])
  }

  function StripTags(s: string): (r: string)
    ensures |r| <= |s|
    ensures '<' !in s ==> r == s
    decreases |s|
  {
    if |s| == 0 then ""
    else if s[0] == '<' then
      match Find(s, ">", 2, LineLength(s))
      case Some(g) =>
        FindFound(s, ">", 2, LineLength(s));
        StripTags(s[g + 1..])
      case None => "<" + StripTags(s[1..])
    else [s[0]] + StripTags(s[1..])
  }

  // -----------------------------------------------------------------------
  // Entities: /&(?:nbsp|amp|lt|gt);/g
  // -----------------------------------------------------------------------

  function DecodeEntities(s: string): (r: string)
    ensures |r| <= |s|
    ensures '&' !in s ==> r == s
    decreases |s|
  {
    if |s| == 0 then ""
    else
      assert forall p :: StartsWith(s, p) && |p| > 0 ==> s[0] == s[..|p|][0];
      if StartsWith(s, "&nbsp;") then " " + DecodeEntities(s[6..])
    else if StartsWith(s, "&amp;") then "&" + DecodeEntities(s[5..])
    else if StartsWith(s, "&lt;") then "<" + DecodeEntities(s[4..])
    else if StartsWith(s, "&gt;") then ">" + DecodeEntities(s[4..])
    else [s[0]] + DecodeEntities(s[1..])
  }

  predicate StartsWithKnownEntity(s: string) {
    StartsWith(s, "&nbsp;") || StartsWith(s, "&amp;") || StartsWith(s, "&lt;") || StartsWith(s, "&gt;")
  }

  // -----------------------------------------------------------------------
  // Link runs: /\[( +)\]\(.*?\)(\[.*?\]\(.*?\))/g  ->  '$1$2'
  // -----------------------------------------------------------------------

  function LeadingSpaces(s: string): (k: nat)
    ensures k <= |s|
    ensures forall i :: 0 <= i < k ==> s[i] == ' '
    ensures k < |s| ==> s[k] != ' '
    decreases |s|
  {
    if |s| == 0 || s[0] != ' ' then 0 else 1 + LeadingSpaces(s[1..])
  }

  datatype RunMatch = RunMatch(replacement: string, length: nat)

  /** `[ ](…)[text](link)` at the head of `s`: the spaces and the second link, and the length matched. */
  function LinkRunAt(s: string): (r: Option<RunMatch>)
    ensures r.Some? ==> |s| > 0 && s[0] == '[' && 1 <= r.value.length <= |s|
  {
    if |s| == 0 || s[0] != '[' then None
    else
      var k := LeadingSpaces(s[1..]);
      if k == 0 || !StartsWith(s[1 + k..], "](") then None
      else
        match SecondLink(s, k + 3, LineLength(s))
        case None => None
        case Some(m) => Some(RunMatch(s[1..1 + k] + m.replacement, m.length))
  }

  /** The rest of a link run from where the first target starts: `.*?\)(\[.*?\]\(.*?\))`, the second link and the end. */
  function SecondLink(s: string, from: nat, line: nat): (r: Option<RunMatch>)
    requires line <= |s|
    ensures r.Some? ==> from + 5 <= r.value.length <= line
  {
    match Find(s, ")[", from, line)
    case None => None
    case Some(e) =>
      FindFound(s, ")[", from, line);
      match Find(s, "](", e + 2, line)
      case None => None
      case Some(f) =>
        FindFound(s, "](", e + 2, line);
        match Find(s, ")", f + 2, line)
        case None => None
        case Some(h) =>
          FindFound(s, ")", f + 2, line);
          Some(RunMatch(s[e + 1..h + 1], h + 1))
  }

  function CollapseLinkRuns(s: string): (r: string)
    ensures '[' !in s ==> r == s
    decreases |s|
  {
    if |s| == 0 then ""
    else
      match LinkRunAt(s)
      case Some(m) => m.replacement + CollapseLinkRuns(s[m.length..])
      case None => [s[0]] + CollapseLinkRuns(s[1..])
  }

  // -----------------------------------------------------------------------
  // stripHTML and formatAndTrim
  // -----------------------------------------------------------------------

  /** `stripHTML(str)`: links to Markdown, `<br>` to newline, tags dropped, four entities decoded, link runs collapsed. */
  function StripHTML(s: string, decodeURIComponent: UriDecoder): (r: string)
    ensures '<' !in s && '&' !in s && '[' !in s ==> r == s
  {
    CollapseLinkRuns(DecodeEntities(StripTags(ReplaceBr(ConvertAnchors(s, decodeURIComponent)))))
  }

  const RightQuote: char := '\U{2019}'

  /** `replaceAll('’', "'")`. */
  function ReplaceRightQuotes(s: string): (r: string)
    ensures |r| == |s| && RightQuote !in r
    ensures forall i :: 0 <= i < |s| ==> r[i] == if s[i] == RightQuote then '\'' else s[i]
  {
    seq(|s|, i requires 0 <= i < |s| => if s[i] == RightQuote then '\'' else s[i])
  }

  /**
   * `formatAndTrim(str, trimNewlines)`: with the flag, one newline is
   * dropped from each end; then every U+2019 becomes an apostrophe.
   */
  function FormatAndTrim(s: string, trimNewlines: bool): (r: string)
    ensures RightQuote !in r
    ensures !trimNewlines ==> |r| == |s|
    ensures var front := if trimNewlines && StartsWith(s, "\n") then 1 else 0;
            var back := if trimNewlines && |s| - front > 0 && s[|s| - 1] == '\n' then 1 else 0;
            |r| == |s| - front - back
            && forall i :: 0 <= i < |r| ==> r[i] == (if s[i + front] == RightQuote then '\'' else s[i + front])
  {
    var t := if trimNewlines && StartsWith(s, "\n") then s[1..] else s;
    var u := if trimNewlines && EndsWith(t, "\n") then t[..|t| - 1] else t;
    ReplaceRightQuotes(u)
  }

  // -----------------------------------------------------------------------
  // Properties
  // -----------------------------------------------------------------------

  /** A prefix that neither starts nor ends with a newline and holds no right quote survives `formatAndTrim`. */
  lemma FormatAndTrimKeepsPrefix(p: string, t: string)
    requires |p| > 0 && p[0] != '\n' && p[|p| - 1] != '\n'
    requires forall k :: 0 <= k < |p| ==> p[k] != RightQuote
    ensures StartsWith(FormatAndTrim(p + t, true), p)
  {
    var s := p + t;
    assert s[0] == p[0];
    FirstCharDiffers(s, '\n');
    var r := FormatAndTrim(s, true);
    assert |r| >= |p| by {
      if |t| == 0 {
        assert s[|s| - 1] == p[|p| - 1];
      }
    }
    forall k | 0 <= k < |p|
      ensures r[k] == p[k]
    {
      assert s[k] == p[k];
    }
    StartsWithByIndex(r, p);
  }

  /**
   * A redirect link `https://www.google.com<path>?q=<v>&<rest>` is unwrapped
   * to the decoded `v`, whatever follows the first `&`.
   */
  lemma ProxyLinkUnwrapped(path: string, v: string, rest: string, decodeURIComponent: UriDecoder)
    requires '?' !in path && '&' !in v
    ensures StripProxyURL("https://www.google.com" + path + "?" + ("q=" + v + "&" + rest), decodeURIComponent)
            == decodeURIComponent(v)
  {
    var host := "https://www.google.com";
    var query := "q=" + v + "&" + rest;
    var str := host + path + "?" + query;
    assert str[..|host|] == host;
    assert '?' !in host;
    assert '?' !in host + path;
    assert str == (host + path) + ['?'] + query;
    var m := |host + path|;
    assert str[m] == '?' && str[..m] == host + path;
    assert IndexOf(str, '?') == m;
    assert str[IndexOf(str, '?') + 1..] == query;
    assert '&' !in "q=" + v;
    SplitAtFirst("q=" + v, '&', rest);
    assert QueryParts(str)[0] == "q=" + v;
    assert ("q=" + v)[..2] == "q=";
    assert ("q=" + v)[2..] == v;
  }

  /** A delimiter whose first character does not occur before `t` is first found at `t`. */
  lemma FindFirstAt(s: string, pat: string, from: nat, limit: nat, t: nat)
    requires |pat| > 0 && from <= t && t + |pat| <= limit <= |s|
    requires s[t..t + |pat|] == pat
    requires forall q :: from <= q < t ==> s[q] != pat[0]
    ensures Find(s, pat, from, limit) == Some(t)
  {
    forall q | from <= q < t
      ensures !OccursAt(s, pat, q)
    {
      assert s[q] != pat[0];
    }
    FindReturns(s, pat, from, limit, t);
  }

  /** The line reaches past `n` when the first `n` characters hold no line terminator. */
  lemma LineReaches(s: string, n: nat)
    requires n <= |s| && NoLineTerminator(s[..n])
    ensures n <= LineLength(s)
  {
    forall i | 0 <= i < n
      ensures !IsLineTerminator(s[i])
    {
      assert s[..n][i] == s[i];
    }
  }

  lemma NoLineTerminatorAppend(a: string, b: string)
    requires NoLineTerminator(a) && NoLineTerminator(b)
    ensures NoLineTerminator(a + b)
  {
    assert forall i :: 0 <= i < |b| ==> (a + b)[|a| + i] == b[i];
  }

  /**
   * `<a href="link">text</a>` becomes the Markdown link of its text and
   * target, and the rewrite carries on after `</a>`.
   */
  lemma AnchorRewritten(link: string, text: string, rest: string, decodeURIComponent: UriDecoder)
    requires '"' !in link && Avoids(text, "</a>")
    requires NoLineTerminator(link) && NoLineTerminator(text)
    ensures ConvertAnchors("<a href=\"" + link + "\">" + text + "</a>" + rest, decodeURIComponent)
            == LinkMarkdown(text, link, decodeURIComponent) + ConvertAnchors(rest, decodeURIComponent)
  {
    var s := "<a href=\"" + link + "\">" + text + "</a>" + rest;
    AnchorMatched(link, text, rest);
    assert s[|s| - |rest|..] == rest;
  }

  /** The anchor pattern matches `<a href="link">text</a>` with exactly that link and text. */
  lemma AnchorMatched(link: string, text: string, rest: string)
    requires '"' !in link && Avoids(text, "</a>")
    requires NoLineTerminator(link) && NoLineTerminator(text)
    ensures AnchorAt("<a href=\"" + link + "\">" + text + "</a>" + rest) == Some(AnchorMatch(link, text, 15 + |link| + |text|))
  {
    var s := "<a href=\"" + link + "\">" + text + "</a>" + rest;
    AnchorLayout(link, text, rest);
    AnchorLaidOut(s, link, text);
  }

  /** Where each part of `<a href="link">text</a>` lies in the text. */
  lemma AnchorLayout(link: string, text: string, rest: string)
    requires NoLineTerminator(link) && NoLineTerminator(text)
    ensures var s := "<a href=\"" + link + "\">" + text + "</a>" + rest;
            |s| - |rest| == 15 + |link| + |text| && NoLineTerminator(s[..15 + |link| + |text|])
            && s[..9] == "<a href=\"" && s[9..9 + |link|] == link && s[9 + |link|..11 + |link|] == "\">"
            && s[11 + |link|..11 + |link| + |text|] == text && s[11 + |link| + |text|..15 + |link| + |text|] == "</a>"
  {
    var s := "<a href=\"" + link + "\">" + text + "</a>" + rest;
    var e := 9 + |link|;
    var h := e + 2 + |text|;
    assert s[..9] == "<a href=\"";
    assert s[9..e] == link;
    assert s[e..e + 2] == "\">";
    assert s[e + 2..h] == text;
    assert s[h..h + 4] == "</a>";
    var pre := "<a href=\"" + link + "\">" + text + "</a>";
    NoLineTerminatorAppend("<a href=\"", link);
    NoLineTerminatorAppend("<a href=\"" + link, "\">");
    NoLineTerminatorAppend("<a href=\"" + link + "\">", text);
    NoLineTerminatorAppend("<a href=\"" + link + "\">" + text, "</a>");
    assert s[..h + 4] == pre;
  }

  lemma AnchorLaidOut(s: string, link: string, text: string)
    requires '"' !in link && Avoids(text, "</a>")
    requires 15 + |link| + |text| <= |s| && NoLineTerminator(s[..15 + |link| + |text|])
    requires s[..9] == "<a href=\"" && s[9..9 + |link|] == link && s[9 + |link|..11 + |link|] == "\">"
    requires s[11 + |link|..11 + |link| + |text|] == text && s[11 + |link| + |text|..15 + |link| + |text|] == "</a>"
    ensures AnchorAt(s) == Some(AnchorMatch(link, text, 15 + |link| + |text|))
  {
    AnchorDelimitersFound(s, link, text);
    assert s[..2] == s[..9][..2];
    AnchorAtFoundAs(s, link, text);
  }

  /** The four delimiters of the anchor pattern sit where a laid-out `<a href="link">text</a>` has them, all in the first line. */
  predicate AnchorDelimitersAt(s: string, link: string, text: string) {
    15 + |link| + |text| <= LineLength(s)
    && Find(s, " href=\"", 2, LineLength(s)) == Some(2)
    && Find(s, "\"", 9, LineLength(s)) == Some(9 + |link|)
    && Find(s, ">", 10 + |link|, LineLength(s)) == Some(10 + |link|)
    && Find(s, "</a>", 11 + |link|, LineLength(s)) == Some(11 + |link| + |text|)
  }

  lemma AnchorDelimitersFound(s: string, link: string, text: string)
    requires '"' !in link && Avoids(text, "</a>")
    requires 15 + |link| + |text| <= |s| && NoLineTerminator(s[..15 + |link| + |text|])
    requires s[..9] == "<a href=\"" && s[9..9 + |link|] == link && s[9 + |link|..11 + |link|] == "\">"
    requires s[11 + |link|..11 + |link| + |text|] == text && s[11 + |link| + |text|..15 + |link| + |text|] == "</a>"
    ensures AnchorDelimitersAt(s, link, text)
  {
    LineReaches(s, 15 + |link| + |text|);
    assert s[2..9] == s[..9][2..];
    FindFirstAt(s, " href=\"", 2, LineLength(s), 2);
    AnchorLinkFound(s, link, LineLength(s));
    assert s[10 + |link|..11 + |link|] == s[9 + |link|..11 + |link|][1..];
    FindFirstAt(s, ">", 10 + |link|, LineLength(s), 10 + |link|);
    AnchorTextFound(s, 11 + |link|, text, LineLength(s));
  }

  /** The anchor match, in terms of its link and text, once its four delimiters are found. */
  lemma AnchorAtFoundAs(s: string, link: string, text: string)
    requires StartsWith(s, "<a") && AnchorDelimitersAt(s, link, text)
    requires s[9..9 + |link|] == link && s[11 + |link|..11 + |link| + |text|] == text
    ensures AnchorAt(s) == Some(AnchorMatch(link, text, 15 + |link| + |text|))
  {
    LinkAndTextAt(s, 9, LineLength(s), 9 + |link|, 10 + |link|, 11 + |link| + |text|);
  }

  lemma LinkAndTextAt(s: string, from: nat, line: nat, e: nat, g: nat, h: nat)
    requires line <= |s|
    requires Find(s, "\"", from, line) == Some(e)
    requires Find(s, ">", e + 1, line) == Some(g)
    requires Find(s, "</a>", g + 1, line) == Some(h)
    requires from <= e && g < h <= |s|
    ensures LinkAndText(s, from, line) == Some(AnchorMatch(s[from..e], s[g + 1..h], h + 4))
  {
  }

  lemma AnchorLinkFound(s: string, link: string, line: nat)
    requires '"' !in link
    requires 11 + |link| <= line <= |s|
    requires s[9..9 + |link|] == link && s[9 + |link|..11 + |link|] == "\">"
    ensures Find(s, "\"", 9, line) == Some(9 + |link|)
  {
    var e := 9 + |link|;
    assert s[e..e + 1] == s[e..e + 2][..1];
    forall q | 9 <= q < e
      ensures s[q] != '"'
    {
      assert s[q] == link[q - 9];
    }
    FindFirstAt(s, "\"", 9, line, e);
  }

  lemma AnchorTextFound(s: string, from: nat, text: string, line: nat)
    requires Avoids(text, "</a>")
    requires from + |text| + 4 <= line <= |s|
    requires s[from..from + |text|] == text && s[from + |text|..from + |text| + 4] == "</a>"
    ensures Find(s, "</a>", from, line) == Some(from + |text|)
  {
    FirstAfterRun(s, text, "</a>", from, line);
  }

  /**
   * A run `[ ](u)[text](link)` becomes its spaces followed by the second
   * link, and the clean-up carries on after it.
   */
  lemma LinkRunCollapsed(spaces: string, u: string, text: string, link: string, rest: string)
    requires |spaces| > 0 && forall i :: 0 <= i < |spaces| ==> spaces[i] == ' '
    requires Avoids(u, ")[") && Avoids(text, "](") && ')' !in link
    requires NoLineTerminator(u) && NoLineTerminator(text) && NoLineTerminator(link)
    ensures CollapseLinkRuns("[" + spaces + "](" + u + ")[" + text + "](" + link + ")" + rest)
            == spaces + ("[" + text + "](" + link + ")") + CollapseLinkRuns(rest)
  {
    var s := "[" + spaces + "](" + u + ")[" + text + "](" + link + ")" + rest;
    var h := LinkRunAtLaidOut(spaces, u, text, link, rest);
    RunCollapsedAt(s, spaces + ("[" + text + "](" + link + ")"), h + 1);
  }

  /** The link-run pattern matches at the head of a laid-out run, and the rest of the text follows the match. */
  lemma LinkRunAtLaidOut(spaces: string, u: string, text: string, link: string, rest: string) returns (h: nat)
    requires |spaces| > 0 && forall i :: 0 <= i < |spaces| ==> spaces[i] == ' '
    requires Avoids(u, ")[") && Avoids(text, "](") && ')' !in link
    requires NoLineTerminator(u) && NoLineTerminator(text) && NoLineTerminator(link)
    ensures var s := "[" + spaces + "](" + u + ")[" + text + "](" + link + ")" + rest;
            h < |s| && s[h + 1..] == rest
            && LinkRunAt(s) == Some(RunMatch(spaces + ("[" + text + "](" + link + ")"), h + 1))
  {
    var s := "[" + spaces + "](" + u + ")[" + text + "](" + link + ")" + rest;
    h := LinkRunLaidOut(spaces, u, text, link, rest);
    LinkRunMatched(s, spaces, u, text, link, h);
  }

  /** Where each part of `[ ](u)[text](link)` lies in the text. */
  lemma LinkRunLaidOut(spaces: string, u: string, text: string, link: string, rest: string) returns (h: nat)
    requires NoLineTerminator(spaces) && NoLineTerminator(u) && NoLineTerminator(text) && NoLineTerminator(link)
    ensures var s := "[" + spaces + "](" + u + ")[" + text + "](" + link + ")" + rest;
            var k := |spaces|;
            var e := k + 3 + |u|;
            var f := e + 2 + |text|;
            h == f + 2 + |link| && h < |s| && NoLineTerminator(s[..h + 1]) && s[h + 1..] == rest
            && s[0] == '[' && s[1..1 + k] == spaces && s[1 + k..k + 3] == "](" && s[k + 3..e] == u
            && s[e..e + 2] == ")[" && s[e + 2..f] == text && s[f..f + 2] == "](" && s[f + 2..h] == link && s[h] == ')'
  {
    var a1 := "[" + spaces;
    var a2 := a1 + "](";
    var a3 := a2 + u;
    var a4 := a3 + ")[";
    var a5 := a4 + text;
    var a6 := a5 + "](";
    var a7 := a6 + link;
    var a8 := a7 + ")";
    NoLineTerminatorAppend("[", spaces);
    NoLineTerminatorAppend(a1, "](");
    NoLineTerminatorAppend(a2, u);
    NoLineTerminatorAppend(a3, ")[");
    NoLineTerminatorAppend(a4, text);
    NoLineTerminatorAppend(a5, "](");
    NoLineTerminatorAppend(a6, link);
    NoLineTerminatorAppend(a7, ")");
    var s := a8 + rest;
    h := |a7|;
    assert s[..h + 1] == a8;
  }

  /** The link-run pattern matches the laid-out run, with its spaces and second link as the replacement. */
  lemma LinkRunMatched(s: string, spaces: string, u: string, text: string, link: string, h: nat)
    requires |spaces| > 0 && forall i :: 0 <= i < |spaces| ==> spaces[i] == ' '
    requires Avoids(u, ")[") && Avoids(text, "](") && ')' !in link
    requires var k := |spaces|;
             var e := k + 3 + |u|;
             var f := e + 2 + |text|;
             h == f + 2 + |link| && h < |s| && NoLineTerminator(s[..h + 1])
             && s[0] == '[' && s[1..1 + k] == spaces && s[1 + k..k + 3] == "](" && s[k + 3..e] == u
             && s[e..e + 2] == ")[" && s[e + 2..f] == text && s[f..f + 2] == "](" && s[f + 2..h] == link && s[h] == ')'
    ensures LinkRunAt(s) == Some(RunMatch(spaces + ("[" + text + "](" + link + ")"), h + 1))
  {
    var k := |spaces|;
    var e := k + 3 + |u|;
    var f := e + 2 + |text|;
    LinkRunFoundAt(s, spaces, u, text, link, e, f, h);
    SecondLinkText(s, text, link, e, f, h);
  }

  lemma RunCollapsedAt(s: string, replacement: string, n: nat)
    requires 0 < n <= |s| && LinkRunAt(s) == Some(RunMatch(replacement, n))
    ensures CollapseLinkRuns(s) == replacement + CollapseLinkRuns(s[n..])
  {
  }

  lemma LinkRunFoundAt(s: string, spaces: string, u: string, text: string, link: string, e: nat, f: nat, h: nat)
    requires |spaces| > 0 && forall i :: 0 <= i < |spaces| ==> spaces[i] == ' '
    requires Avoids(u, ")[") && Avoids(text, "](") && ')' !in link
    requires e == |spaces| + 3 + |u| && f == e + 2 + |text| && h == f + 2 + |link| && h < |s| && NoLineTerminator(s[..h + 1])
    requires s[0] == '[' && s[1..1 + |spaces|] == spaces && s[1 + |spaces|..e - |u|] == "](" && s[e - |u|..e] == u
    requires s[e..e + 2] == ")[" && s[e + 2..f] == text && s[f..f + 2] == "](" && s[f + 2..h] == link && s[h] == ')'
    ensures LinkRunAt(s) == Some(RunMatch(spaces + s[e + 1..h + 1], h + 1))
  {
    var k := |spaces|;
    assert s[1 + k] == s[1 + k..k + 3][0];
    SpacesCounted(s, spaces);
    LineReaches(s, h + 1);
    SecondLinkFound(s, k + 3, u, text, link, LineLength(s), e, f, h);
    LinkRunFound(s, k);
  }

  /** The second link of the run, as a slice, is `[text](link)`. */
  lemma SecondLinkText(s: string, text: string, link: string, e: nat, f: nat, h: nat)
    requires f == e + 2 + |text| && h == f + 2 + |link| && h < |s|
    requires s[e..e + 2] == ")[" && s[e + 2..f] == text && s[f..f + 2] == "](" && s[f + 2..h] == link && s[h] == ')'
    ensures s[e + 1..h + 1] == "[" + text + "](" + link + ")"
  {
    assert s[e + 1..e + 2] == "[" && s[h..h + 1] == ")";
    SliceConcat(s, e + 1, e + 2, f);
    SliceConcat(s, e + 1, f, f + 2);
    SliceConcat(s, e + 1, f + 2, h);
    SliceConcat(s, e + 1, h, h + 1);
  }

  lemma SliceOfSlice(s: string, a: nat, b: nat, i: nat, j: nat)
    requires a <= b <= |s| && i <= j <= b - a
    ensures s[a..b][i..j] == s[a + i..a + j]
  {
    assert forall k :: 0 <= k < j - i ==> s[a..b][i..j][k] == s[a + i + k];
  }

  lemma SliceConcat(s: string, a: nat, b: nat, c: nat)
    requires a <= b <= c <= |s|
    ensures s[a..b] + s[b..c] == s[a..c]
  {
  }

  /** The `( +)` group takes exactly the spaces after `[` when `]` follows them. */
  lemma SpacesCounted(s: string, spaces: string)
    requires |spaces| > 0 && forall i :: 0 <= i < |spaces| ==> spaces[i] == ' '
    requires 1 + |spaces| < |s| && s[1..1 + |spaces|] == spaces && s[1 + |spaces|] == ']'
    ensures LeadingSpaces(s[1..]) == |spaces|
  {
  }

  /** The link run once its spaces, its `](` and the rest of the pattern are found. */
  lemma LinkRunFound(s: string, k: nat)
    requires |s| > 0 && s[0] == '[' && 0 < k && LeadingSpaces(s[1..]) == k
    requires 3 + k <= |s| && s[1 + k..3 + k] == "]("
    requires SecondLink(s, k + 3, LineLength(s)).Some?
    ensures var m := SecondLink(s, k + 3, LineLength(s)).value;
            LinkRunAt(s) == Some(RunMatch(s[1..1 + k] + m.replacement, m.length))
  {
    assert s[1 + k..][..2] == s[1 + k..3 + k];
  }

  lemma SecondLinkFound(s: string, from: nat, u: string, text: string, link: string, line: nat, e: nat, f: nat, h: nat)
    requires Avoids(u, ")[") && Avoids(text, "](") && ')' !in link
    requires e == from + |u| && f == e + 2 + |text| && h == f + 2 + |link| && h < line <= |s|
    requires s[from..e] == u && s[e..e + 2] == ")[" && s[e + 2..f] == text && s[f..f + 2] == "]("
    requires s[f + 2..h] == link && s[h] == ')'
    ensures SecondLink(s, from, line) == Some(RunMatch(s[e + 1..h + 1], h + 1))
  {
    FirstAfterRun(s, u, ")[", from, line);
    SecondLinkTailFound(s, text, link, line, e, f, h);
    SecondLinkAt(s, from, line, e, f, h);
  }

  lemma SecondLinkTailFound(s: string, text: string, link: string, line: nat, e: nat, f: nat, h: nat)
    requires Avoids(text, "](") && ')' !in link
    requires f == e + 2 + |text| && h == f + 2 + |link| && h < line <= |s|
    requires s[e + 2..f] == text && s[f..f + 2] == "](" && s[f + 2..h] == link && s[h] == ')'
    ensures Find(s, "](", e + 2, line) == Some(f)
    ensures Find(s, ")", f + 2, line) == Some(h)
  {
    FirstAfterRun(s, text, "](", e + 2, line);
    assert s[h..h + 1] == ")";
    forall i: nat | i + 1 <= |link|
      ensures !OccursAt(link, ")", i)
    {
      assert link[i..i + 1] == [link[i]];
    }
    FirstAfterRun(s, link, ")", f + 2, line);
  }

  lemma SecondLinkAt(s: string, from: nat, line: nat, e: nat, f: nat, h: nat)
    requires line <= |s|
    requires Find(s, ")[", from, line) == Some(e)
    requires Find(s, "](", e + 2, line) == Some(f)
    requires Find(s, ")", f + 2, line) == Some(h)
    requires e < h < line
    ensures SecondLink(s, from, line) == Some(RunMatch(s[e + 1..h + 1], h + 1))
  {
  }

  /** A delimiter right after a run that does not hold its first character is found there. */
  lemma FirstAfterRun(s: string, run: string, pat: string, from: nat, limit: nat)
    requires |pat| > 0 && Avoids(run, pat) && forall j :: 0 < j < |pat| ==> pat[j] != pat[0]
    requires from + |run| + |pat| <= limit <= |s|
    requires s[from..from + |run|] == run && s[from + |run|..from + |run| + |pat|] == pat
    ensures Find(s, pat, from, limit) == Some(from + |run|)
  {
    var t := from + |run|;
    forall q | from <= q < t
      ensures !OccursAt(s, pat, q)
    {
      if q + |pat| <= t {
        SliceOfSlice(s, from, t, q - from, q - from + |pat|);
        assert !OccursAt(run, pat, q - from);
      } else {
        var j := t - q;
        assert s[q..q + |pat|][j] == s[t..t + |pat|][0];
        assert pat[j] != pat[0];
      }
    }
    FindReturns(s, pat, from, limit, t);
  }

  lemma {:induction false} ConvertAnchorsPrefix(x: string, y: string, decodeURIComponent: UriDecoder)
    requires '<' !in x
    ensures ConvertAnchors(x + y, decodeURIComponent) == x + ConvertAnchors(y, decodeURIComponent)
    decreases |x|
  {
    if |x| > 0 {
      var s := x + y;
      assert s[0] == x[0] && s[1..] == x[1..] + y;
      assert AnchorAt(s).None?;
      ConvertAnchorsPrefix(x[1..], y, decodeURIComponent);
      assert [x[0]] + x[1..] == x;
    } else {
      assert x + y == y;
    }
  }

  lemma {:induction false} ReplaceBrPrefix(x: string, y: string)
    requires '<' !in x
    ensures ReplaceBr(x + y) == x + ReplaceBr(y)
    decreases |x|
  {
    if |x| > 0 {
      var s := x + y;
      assert s[0] == x[0] && s[1..] == x[1..] + y;
      assert !StartsWith(s, "<br>") by {
        if |s| >= 4 {
          assert s[..4][0] == s[0];
        }
      }
      assert ReplaceBr(s) == [s[0]] + ReplaceBr(s[1..]);
      ReplaceBrPrefix(x[1..], y);
      assert [x[0]] + x[1..] == x;
    } else {
      assert x + y == y;
    }
  }

  lemma {:induction false} StripTagsPrefix(x: string, y: string)
    requires '<' !in x
    ensures StripTags(x + y) == x + StripTags(y)
    decreases |x|
  {
    if |x| > 0 {
      var s := x + y;
      assert s[0] == x[0] && s[1..] == x[1..] + y;
      assert StripTags(s) == [s[0]] + StripTags(s[1..]);
      StripTagsPrefix(x[1..], y);
      assert [x[0]] + x[1..] == x;
    } else {
      assert x + y == y;
    }
  }

  /** A one-line tag `<…>` is removed whole, and stripping goes on after it. */
  lemma TagStripped(t: string, rest: string)
    requires |t| >= 1 && '>' !in t && NoLineTerminator(t)
    ensures StripTags("<" + t + ">" + rest) == StripTags(rest)
  {
    var s := "<" + t + ">" + rest;
    var g := |t| + 1;
    assert s[..g + 1] == "<" + t + ">";
    assert NoLineTerminator("<" + t + ">") by {
      NoLineTerminatorAppend("<", t);
      NoLineTerminatorAppend("<" + t, ">");
    }
    LineReaches(s, g + 1);
    assert forall q :: 2 <= q < g ==> s[q] == t[q - 1];
    assert s[g..g + 1] == ">";
    FindFirstAt(s, ">", 2, LineLength(s), g);
    assert s[g + 1..] == rest;
  }

  lemma {:induction false} CollapsePrefix(x: string, y: string)
    requires '[' !in x
    ensures CollapseLinkRuns(x + y) == x + CollapseLinkRuns(y)
    decreases |x|
  {
    if |x| > 0 {
      var s := x + y;
      assert s[0] == x[0] && s[1..] == x[1..] + y;
      assert LinkRunAt(s).None?;
      assert CollapseLinkRuns(s) == [s[0]] + CollapseLinkRuns(s[1..]);
      CollapsePrefix(x[1..], y);
      assert [x[0]] + x[1..] == x;
    } else {
      assert x + y == y;
    }
  }

  /**
   * The entity step leaves any text alone in which no `&` begins one of
   * the four entities it knows, whatever other `&` text it holds.
   */
  lemma {:induction false} DecodeLeavesUnknownEntities(s: string)
    requires forall i :: 0 <= i < |s| ==> !StartsWithKnownEntity(s[i..])
    ensures DecodeEntities(s) == s
    decreases |s|
  {
    if |s| > 0 {
      assert s[0..] == s;
      forall i | 0 <= i < |s| - 1 ensures !StartsWithKnownEntity(s[1..][i..]) {
        assert s[1..][i..] == s[i + 1..];
      }
      DecodeLeavesUnknownEntities(s[1..]);
      assert [s[0]] + s[1..] == s;
    }
  }

  /** `&nbsp;` becomes a space, and decoding goes on after it. */
  lemma NbspDecoded(rest: string)
    ensures DecodeEntities("&nbsp;" + rest) == " " + DecodeEntities(rest)
  {
    var s := "&nbsp;" + rest;
    assert s[..6] == "&nbsp;";
    assert s[6..] == rest;
  }

  lemma {:induction false} DecodeAfterEscapedChar(c: char, rest: string)
    ensures DecodeEntities(EscapeChar(c, false) + rest) == [c] + DecodeEntities(rest)
  {
    var e := EscapeChar(c, false);
    var s := e + rest;
    if c == '<' || c == '>' {
      assert s[..4] == e;
      assert s[4..] == rest;
      assert s[1] != 'n' && s[1] != 'a';
      assert !StartsWith(s, "&nbsp;") && !StartsWith(s, "&amp;");
    } else if c == '&' {
      assert s[..5] == e;
      assert s[5..] == rest;
      assert s[1] != 'n';
      assert !StartsWith(s, "&nbsp;");
    } else {
      assert s[0] == c;
      assert s[1..] == rest;
    }
  }

  /** Decoding the entities of escaped text gives the text back. */
  lemma {:induction false} DecodeEscapedText(t: string)
    ensures DecodeEntities(EscapeForHTML(t, false)) == t
    decreases |t|
  {
    EscapeForHTMLIsPerCharacter(t, false);
    if |t| > 0 {
      DecodeAfterEscapedChar(t[0], EscapeEach(t[1..], false));
      DecodeEscapedText(t[1..]);
      EscapeForHTMLIsPerCharacter(t[1..], false);
      assert [t[0]] + t[1..] == t;
    }
  }

  /** Escaped text passes through `stripHTML` unchanged apart from the entities, which are decoded. */
  lemma StripHTMLOfEscapedText(t: string, decodeURIComponent: UriDecoder)
    requires '[' !in t
    ensures StripHTML(EscapeForHTML(t, false), decodeURIComponent) == t
  {
    var e := EscapeForHTML(t, false);
    ConvertAnchorsPrefix(e, "", decodeURIComponent);
    ReplaceBrPrefix(e, "");
    StripTagsPrefix(e, "");
    assert e + "" == e;
    DecodeEscapedText(t);
    CollapsePrefix(t, "");
    assert t + "" == t;
  }

  /** No `<` in the text is followed by `a`. */
  predicate NoAnchorStart(s: string) {
    forall i :: 0 <= i < |s| - 1 && s[i] == '<' ==> s[i + 1] != 'a'
  }

  /** Text where no `<a` occurs passes through the link step unchanged. */
  lemma {:induction false} AnchorsNeedAnchorStart(s: string, decodeURIComponent: UriDecoder)
    requires NoAnchorStart(s)
    ensures ConvertAnchors(s, decodeURIComponent) == s
    decreases |s|
  {
    if |s| > 0 {
      assert AnchorAt(s).None? by {
        if |s| >= 2 && s[0] == '<' {
          assert s[..2][1] == s[1] != 'a';
        }
      }
      assert NoAnchorStart(s[1..]) by {
        forall i | 0 <= i < |s[1..]| - 1 && s[1..][i] == '<' ensures s[1..][i + 1] != 'a' {
          assert s[i + 1] == '<';
        }
      }
      AnchorsNeedAnchorStart(s[1..], decodeURIComponent);
      assert [s[0]] + s[1..] == s;
    }
  }

  lemma AnchorsSkipLineBreak(x: string, y: string, decodeURIComponent: UriDecoder)
    requires '<' !in x && '<' !in y
    ensures ConvertAnchors(x + "<br>" + y, decodeURIComponent) == x + "<br>" + y
  {
    var s := x + "<br>" + y;
    assert forall k :: 0 <= k < |x| ==> s[k] == x[k];
    assert forall k :: 0 <= k < |y| ==> s[|x| + 4 + k] == y[k];
    assert s[|x| + 1] == 'b';
    assert NoAnchorStart(s) by {
      forall i | 0 <= i < |s| - 1 && s[i] == '<' ensures s[i + 1] != 'a' {
        assert i == |x|;
      }
    }
    AnchorsNeedAnchorStart(s, decodeURIComponent);
  }

  lemma ReplaceLineBreak(x: string, y: string)
    requires '<' !in x && '<' !in y
    ensures ReplaceBr(x + "<br>" + y) == x + "\n" + y
  {
    var br := "<br>" + y;
    assert x + "<br>" + y == x + br;
    ReplaceBrPrefix(x, br);
    assert StartsWith(br, "<br>");
    assert br[4..] == y;
    ReplaceBrPrefix(y, "");
    assert y + "" == y;
  }

  lemma EscapeAroundNewline(a: string, b: string)
    ensures EscapeForHTML(a, false) + "\n" + EscapeForHTML(b, false) == EscapeForHTML(a + "\n" + b, false)
  {
    EscapeForHTMLAppend(a + "\n", b, false);
    EscapeForHTMLAppend(a, "\n", false);
    EscapeForHTMLWithoutMarkup("\n", false);
  }

  /**
   * `<br>` becomes a newline before the other tags are stripped: text,
   * a line break, text comes out as the two texts around a newline.
   */
  lemma StripHTMLOfLineBreak(a: string, b: string, decodeURIComponent: UriDecoder)
    requires '[' !in a && '[' !in b
    ensures StripHTML(EscapeForHTML(a, false) + "<br>" + EscapeForHTML(b, false), decodeURIComponent) == a + "\n" + b
  {
    var ea := EscapeForHTML(a, false);
    var eb := EscapeForHTML(b, false);
    AnchorsSkipLineBreak(ea, eb, decodeURIComponent);
    ReplaceLineBreak(ea, eb);
    var nl := ea + "\n" + eb;
    assert '<' !in nl;
    StripTagsPrefix(nl, "");
    assert nl + "" == nl;
    EscapeAroundNewline(a, b);
    DecodeEscapedText(a + "\n" + b);
    CollapsePrefix(a + "\n" + b, "");
    assert a + "\n" + b + "" == a + "\n" + b;
  }
}
