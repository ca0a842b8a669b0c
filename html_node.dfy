/**
 * The lightweight HTML node of src/HTMLNode.js: a lower-cased tag, an
 * attribute map that keeps insertion order, and an ordered list of children
 * that are either text or nested nodes. A node never changes after it is
 * built, so it is a value here; its constructor, which fills the attribute
 * map and the child list in two loops, is the method `Build`.
 */
module HtmlNode {
  import opened Wrappers
  import opened JsText

  // -----------------------------------------------------------------------
  // The generic parsed element the constructor consumes
  // -----------------------------------------------------------------------

  datatype Attr = Attr(name: string, value: string)

  /** An element as a generic HTML parser delivers it. */
  datatype Element = Element(nodeName: string, attrs: seq<Attr>, childNodes: seq<ChildNode>)

  /**
   * A child of a parsed element: a text node (it has a `value`), an element
   * (it has a `tagName`), or anything else, such as a comment.
   */
  datatype ChildNode = TextNode(value: string) | ElementNode(elem: Element) | OtherNode

  // -----------------------------------------------------------------------
  // The node
  // -----------------------------------------------------------------------

  datatype Node = Node(tag: string, attributes: seq<Attr>, allChildren: seq<Child>)

  datatype Child = Text(text: string) | Elem(node: Node)

  const NBSP: char := '\U{00A0}'

  /** The void elements of the HTML standard's syntax section, and the obsolete PARAM. */
  const VoidTagNames: seq<string> :=
    ["AREA", "BASE", "BR", "COL", "EMBED", "HR", "IMG", "INPUT", "LINK", "META", "PARAM", "SOURCE", "TRACK", "WBR"]

  /** The upper-cased tag name. */
  function TagName(n: Node): string {
    ToUpper(n.tag)
  }

  // -----------------------------------------------------------------------
  // The attribute map: an association list with unique names, in insertion order
  // -----------------------------------------------------------------------

  function Names(m: seq<Attr>): set<string>
    decreases |m|
  {
    if |m| == 0 then {} else {m[0].name} + Names(m[1..])
  }

  predicate UniqueNames(m: seq<Attr>)
    decreases |m|
  {
    |m| == 0 || (m[0].name !in Names(m[1..]) && UniqueNames(m[1..]))
  }

  /** `Map.prototype.get`. */
  function MapGet(m: seq<Attr>, name: string): (r: Option<string>)
    ensures r.None? <==> name !in Names(m)
    decreases |m|
  {
    if |m| == 0 then None
    else if m[0].name == name then Some(m[0].value)
    else MapGet(m[1..], name)
  }

  /**
   * `Map.prototype.set`: an existing name keeps its place and takes the new
   * value; a new name is appended.
   */
  function MapSet(m: seq<Attr>, name: string, value: string): (r: seq<Attr>)
    requires UniqueNames(m)
    ensures UniqueNames(r)
    ensures Names(r) == Names(m) + {name}
    ensures MapGet(r, name) == Some(value)
    ensures forall other :: other != name ==> MapGet(r, other) == MapGet(m, other)
    decreases |m|
  {
    if |m| == 0 then [Attr(name, value)]
    else if m[0].name == name then
      var r := [Attr(name, value)] + m[1..];
      assert r[1..] == m[1..];
      r
    else
      var r := [m[0]] + MapSet(m[1..], name, value);
      assert r[1..] == MapSet(m[1..], name, value);
      r
  }

  /** The attribute loop of the constructor: `attributes.set(name, value)` for each attribute in turn. */
  function SetAll(attrs: seq<Attr>): (m: seq<Attr>)
    ensures UniqueNames(m)
    decreases |attrs|
  {
    if |attrs| == 0 then []
    else
      var last := attrs[|attrs| - 1];
      MapSet(SetAll(attrs[..|attrs| - 1]), last.name, last.value)
  }

  /** The value of the last attribute called `name`, if there is one. */
  function LastValue(attrs: seq<Attr>, name: string): Option<string>
    decreases |attrs|
  {
    if |attrs| == 0 then None
    else if attrs[|attrs| - 1].name == name then Some(attrs[|attrs| - 1].value)
    else LastValue(attrs[..|attrs| - 1], name)
  }

  /** A repeated attribute name ends up as one entry holding the last value given for it. */
  lemma {:induction false} SetAllLastWins(attrs: seq<Attr>, name: string)
    ensures MapGet(SetAll(attrs), name) == LastValue(attrs, name)
    ensures name in Names(SetAll(attrs)) <==> exists i :: 0 <= i < |attrs| && attrs[i].name == name
    decreases |attrs|
  {
    if |attrs| > 0 {
      var init := attrs[..|attrs| - 1];
      SetAllLastWins(init, name);
      if exists i :: 0 <= i < |attrs| && attrs[i].name == name {
        var i :| 0 <= i < |attrs| && attrs[i].name == name;
        if i < |attrs| - 1 { assert init[i].name == name; }
      }
    }
  }

  // -----------------------------------------------------------------------
  // Construction
  // -----------------------------------------------------------------------

  /** `replaceAll('\xa0', ' ')`. */
  function ReplaceNbsp(s: string): (r: string)
    ensures |r| == |s| && NBSP !in r
    ensures forall i :: 0 <= i < |s| ==> r[i] == if s[i] == NBSP then ' ' else s[i]
  {
    seq(|s|, i requires 0 <= i < |s| => if s[i] == NBSP then ' ' else s[i])
  }

  /** What the constructor keeps of a parsed child, if anything. */
  function NormalizedChild(c: ChildNode): Option<Child>
    decreases c, 1
  {
    match c
    case TextNode(v) => Some(Text(ReplaceNbsp(v)))
    case ElementNode(e) => Some(Elem(Normalized(e)))
    case OtherNode => None
  }

  /** The child loop of the constructor. */
  function NormalizedChildren(cs: seq<ChildNode>): (r: seq<Child>)
    ensures forall i :: 0 <= i < |r| && r[i].Text? ==> NBSP !in r[i].text
    decreases cs, 0
  {
    if |cs| == 0 then []
    else
      var init := NormalizedChildren(cs[..|cs| - 1]);
      match NormalizedChild(cs[|cs| - 1])
      case None => init
      case Some(c) => init + [c]
  }

  /** The node the constructor builds from a parsed element. */
  function Normalized(e: Element): (r: Node)
    ensures HasNoUpper(r.tag) && TagName(r) == ToUpper(e.nodeName)
    ensures UniqueNames(r.attributes)
    ensures forall i :: 0 <= i < |r.allChildren| && r.allChildren[i].Text? ==> NBSP !in r.allChildren[i].text
    decreases e, 2
  {
    LowerThenUpper(e.nodeName);
    Node(ToLower(e.nodeName), SetAll(e.attrs), NormalizedChildren(e.childNodes))
  }

  /** The constructor, as the source writes it: one loop over the attributes, one over the child nodes. */
  method Build(e: Element) returns (n: Node)
    ensures n == Normalized(e)
    decreases e
  {
    var attributes: seq<Attr> := [];
    var allChildren: seq<Child> := [];
    var tag := ToLower(e.nodeName);
    for i := 0 to |e.attrs|
      invariant UniqueNames(attributes)
      invariant attributes == SetAll(e.attrs[..i])
    {
      assert e.attrs[..i + 1][..i] == e.attrs[..i];
      attributes := MapSet(attributes, e.attrs[i].name, e.attrs[i].value);
    }
    assert e.attrs[..|e.attrs|] == e.attrs;
    for j := 0 to |e.childNodes|
      invariant allChildren == NormalizedChildren(e.childNodes[..j])
    {
      assert e.childNodes[..j + 1][..j] == e.childNodes[..j];
      match e.childNodes[j] {
        case TextNode(v) =>
          allChildren := allChildren + [Text(ReplaceNbsp(v))];
        case ElementNode(c) =>
          var child := Build(c);
          allChildren := allChildren + [Elem(child)];
        case OtherNode =>
      }
    }
    assert e.childNodes[..|e.childNodes|] == e.childNodes;
    n := Node(tag, attributes, allChildren);
  }

  /** `new HTMLNode(elem)`: a missing (or non-object) argument is a TypeError. */
  method NewHTMLNode(elem: Option<Element>) returns (r: Result<Node>)
    ensures elem.None? <==> r.Failure?
    ensures r.Failure? ==> r.error.TypeError?
    ensures elem.Some? ==> r == Success(Normalized(elem.value))
  {
    if elem.None? {
      return Failure(TypeError("Value provided was not an object."));
    }
    var n := Build(elem.value);
    r := Success(n);
  }

  /** Parsed children that the constructor keeps: text and elements. */
  function Kept(cs: seq<ChildNode>): seq<ChildNode>
    decreases |cs|
  {
    if |cs| == 0 then []
    else if cs[0].OtherNode? then Kept(cs[1..])
    else [cs[0]] + Kept(cs[1..])
  }

  lemma {:induction false} KeptAppendOne(cs: seq<ChildNode>, c: ChildNode)
    ensures Kept(cs + [c]) == Kept(cs) + (if c.OtherNode? then [] else [c])
    decreases |cs|
  {
    if |cs| == 0 {
      assert [c][1..] == [];
    } else {
      assert (cs + [c])[1..] == cs[1..] + [c];
      KeptAppendOne(cs[1..], c);
    }
  }

  /**
   * The constructor drops exactly the children that are neither text nor
   * element, and keeps the others in order: text with U+00A0 replaced by a
   * space, elements built recursively.
   */
  lemma {:induction false} NormalizedChildrenKeepsOrder(cs: seq<ChildNode>)
    ensures |NormalizedChildren(cs)| == |Kept(cs)|
    ensures forall i :: 0 <= i < |Kept(cs)| ==> Some(NormalizedChildren(cs)[i]) == NormalizedChild(Kept(cs)[i])
    decreases |cs|
  {
    if |cs| > 0 {
      var init := cs[..|cs| - 1];
      var last := cs[|cs| - 1];
      NormalizedChildrenKeepsOrder(init);
      assert init + [last] == cs;
      KeptAppendOne(init, last);
    }
  }

  // -----------------------------------------------------------------------
  // Derived views
  // -----------------------------------------------------------------------

  /** The element entries of a child list, in order. */
  function Elements(cs: seq<Child>): seq<Node>
    decreases |cs|
  {
    if |cs| == 0 then []
    else if cs[0].Elem? then [cs[0].node] + Elements(cs[1..])
    else Elements(cs[1..])
  }

  /** `children`: the filter of `allChildren` to its nodes. */
  function Children(n: Node): (r: seq<Node>)
    ensures |r| <= |n.allChildren|
    ensures forall m :: m in r <==> Elem(m) in n.allChildren
  {
    ElementsAreElemEntries(n.allChildren);
    Elements(n.allChildren)
  }

  /** The element filter keeps exactly the nodes that are entries of the list. */
  lemma {:induction false} ElementsAreElemEntries(cs: seq<Child>)
    ensures |Elements(cs)| <= |cs|
    ensures forall m :: m in Elements(cs) <==> Elem(m) in cs
    decreases |cs|
  {
    if |cs| > 0 {
      ElementsAreElemEntries(cs[1..]);
      assert cs == [cs[0]] + cs[1..];
    }
  }

  /** The count of element entries, as the reduce over `allChildren` computes it. */
  function CountElements(cs: seq<Child>): nat
    decreases |cs|
  {
    if |cs| == 0 then 0 else CountElements(cs[..|cs| - 1]) + (if cs[|cs| - 1].Elem? then 1 else 0)
  }

  /** `childElementCount`. */
  function ChildElementCount(n: Node): (r: nat)
    ensures r == |Children(n)|
  {
    CountIsLength(n.allChildren);
    CountElements(n.allChildren)
  }

  /** `firstChild()`: the first entry of `allChildren` that is a node. */
  function FirstChild(n: Node): (r: Option<Node>)
    ensures r == if |Children(n)| == 0 then None else Some(Children(n)[0])
  {
    FirstChildIsFirstOfChildren(n.allChildren);
    FindElement(n.allChildren)
  }

  function FindElement(cs: seq<Child>): Option<Node>
    decreases |cs|
  {
    if |cs| == 0 then None
    else if cs[0].Elem? then Some(cs[0].node)
    else FindElement(cs[1..])
  }

  lemma {:induction false} ElementsAppend(a: seq<Child>, b: seq<Child>)
    ensures Elements(a + b) == Elements(a) + Elements(b)
    decreases |a|
  {
    if |a| == 0 {
      assert a + b == b;
    } else {
      assert (a + b)[1..] == a[1..] + b;
      ElementsAppend(a[1..], b);
    }
  }

  /**
   * `children` keeps exactly the element entries of `allChildren`, in the
   * same order: it distributes over concatenation, keeps a node and drops a
   * text entry.
   */
  lemma ChildrenAreTheElements(a: seq<Child>, b: seq<Child>, n: Node, s: string)
    ensures Elements(a + b) == Elements(a) + Elements(b)
    ensures Elements([Elem(n)]) == [n]
    ensures Elements([Text(s)]) == []
  {
    ElementsAppend(a, b);
  }

  /** `childElementCount`, computed by its own reduce, equals the length of `children`. */
  lemma {:induction false} CountIsLength(cs: seq<Child>)
    ensures CountElements(cs) == |Elements(cs)|
    decreases |cs|
  {
    if |cs| > 0 {
      var init := cs[..|cs| - 1];
      CountIsLength(init);
      assert init + [cs[|cs| - 1]] == cs;
      ElementsAppend(init, [cs[|cs| - 1]]);
    }
  }

  /** `firstChild()` is the first entry of `children`, or nothing when there is none. */
  lemma {:induction false} FirstChildIsFirstOfChildren(cs: seq<Child>)
    ensures FindElement(cs).None? <==> |Elements(cs)| == 0
    ensures FindElement(cs).Some? ==> FindElement(cs).value == Elements(cs)[0]
    decreases |cs|
  {
    if |cs| > 0 {
      FirstChildIsFirstOfChildren(cs[1..]);
    }
  }

  // -----------------------------------------------------------------------
  // textContent
  // -----------------------------------------------------------------------

  function TextContent(n: Node): string
    decreases n, 3
  {
    TextOf(n.allChildren)
  }

  /** `allChildren.map(v => v is a node ? v.textContent : v).join('')`. */
  function TextOf(cs: seq<Child>): string
    decreases cs, 0
  {
    if |cs| == 0 then "" else ChildText(cs[0]) + TextOf(cs[1..])
  }

  function ChildText(c: Child): string
    decreases c, 2
  {
    match c
    case Text(s) => s
    case Elem(m) => TextContent(m)
  }

  /** The text entries below a node, depth first and in document order. */
  function TextLeaves(n: Node): seq<string>
    decreases n, 3
  {
    LeavesOf(n.allChildren)
  }

  function LeavesOf(cs: seq<Child>): seq<string>
    decreases cs, 0
  {
    if |cs| == 0 then [] else ChildLeaves(cs[0]) + LeavesOf(cs[1..])
  }

  function ChildLeaves(c: Child): seq<string>
    decreases c, 2
  {
    match c
    case Text(s) => [s]
    case Elem(m) => TextLeaves(m)
  }

  /** `textContent` is the concatenation of every descendant text entry, depth first, in order. */
  lemma {:induction false} TextContentIsLeaves(n: Node)
    ensures TextContent(n) == Concat(TextLeaves(n))
    decreases n, 3
  {
    TextOfIsLeaves(n.allChildren);
  }

  lemma {:induction false} TextOfIsLeaves(cs: seq<Child>)
    ensures TextOf(cs) == Concat(LeavesOf(cs))
    decreases cs, 0
  {
    if |cs| > 0 {
      TextOfIsLeaves(cs[1..]);
      ChildTextIsLeaves(cs[0]);
      ConcatAppend(ChildLeaves(cs[0]), LeavesOf(cs[1..]));
    }
  }

  lemma {:induction false} ChildTextIsLeaves(c: Child)
    ensures ChildText(c) == Concat(ChildLeaves(c))
    decreases c, 2
  {
    match c
    case Text(s) =>
      assert Concat([s]) == s + Concat([]);
    case Elem(m) =>
      TextContentIsLeaves(m);
  }

  lemma {:induction false} TextOfAppend(a: seq<Child>, b: seq<Child>)
    ensures TextOf(a + b) == TextOf(a) + TextOf(b)
    decreases |a|
  {
    if |a| == 0 {
      assert a + b == b;
    } else {
      assert (a + b)[1..] == a[1..] + b;
      TextOfAppend(a[1..], b);
    }
  }

  // -----------------------------------------------------------------------
  // escapeForHTML
  // -----------------------------------------------------------------------

  /** The first pass: each of `<`, `>`, `&` becomes its entity. */
  function EscapeMarkup(s: string): (r: string)
    ensures '<' !in r && '>' !in r
    ensures |r| >= |s|
    decreases |s|
  {
    if |s| == 0 then ""
    else
      (if s[0] == '<' then "&lt;"
       else if s[0] == '>' then "&gt;"
       else if s[0] == '&' then "&amp;"
       else [s[0]]) + EscapeMarkup(s[1..])
  }

  /** The second pass, for attribute values: each `"` becomes `&quot;`. */
  function EscapeQuotes(s: string): (r: string)
    ensures '"' !in r
    ensures forall c :: c != '"' && c != '&' && c != 'q' && c != 'u' && c != 'o' && c != 't' && c != ';' ==> (c in r <==> c in s)
    decreases |s|
  {
    if |s| == 0 then ""
    else (if s[0] == '"' then "&quot;" else [s[0]]) + EscapeQuotes(s[1..])
  }

  /** `escapeForHTML(str, inAttribute)`. */
  function EscapeForHTML(s: string, inAttribute: bool): (r: string)
    ensures '<' !in r && '>' !in r
    ensures inAttribute ==> '"' !in r
  {
    var r := EscapeMarkup(s);
    if inAttribute then EscapeQuotes(r) else r
  }

  /** The entity a single character becomes, if any. */
  function EscapeChar(c: char, inAttribute: bool): string {
    if c == '<' then "&lt;"
    else if c == '>' then "&gt;"
    else if c == '&' then "&amp;"
    else if c == '"' && inAttribute then "&quot;"
    else [c]
  }

  /** Escaping character by character, in one pass. */
  function EscapeEach(s: string, inAttribute: bool): string
    decreases |s|
  {
    if |s| == 0 then "" else EscapeChar(s[0], inAttribute) + EscapeEach(s[1..], inAttribute)
  }

  lemma {:induction false} EscapeQuotesAppend(a: string, b: string)
    ensures EscapeQuotes(a + b) == EscapeQuotes(a) + EscapeQuotes(b)
    decreases |a|
  {
    if |a| == 0 {
      assert a + b == b;
    } else {
      assert (a + b)[1..] == a[1..] + b;
      EscapeQuotesAppend(a[1..], b);
    }
  }

  lemma {:induction false} EscapeQuotesWithoutQuotes(s: string)
    requires '"' !in s
    ensures EscapeQuotes(s) == s
    decreases |s|
  {
    if |s| > 0 {
      EscapeQuotesWithoutQuotes(s[1..]);
    }
  }

  /**
   * The two passes of `escapeForHTML` map `<`, `>`, `&` to their entities,
   * `"` to `&quot;` only inside an attribute, and leave every other
   * character as it is.
   */
  lemma {:induction false} EscapeForHTMLIsPerCharacter(s: string, inAttribute: bool)
    ensures EscapeForHTML(s, inAttribute) == EscapeEach(s, inAttribute)
    decreases |s|
  {
    if |s| > 0 {
      EscapeForHTMLIsPerCharacter(s[1..], inAttribute);
      if inAttribute {
        var head := if s[0] == '<' then "&lt;" else if s[0] == '>' then "&gt;"
                    else if s[0] == '&' then "&amp;" else [s[0]];
        EscapeQuotesAppend(head, EscapeMarkup(s[1..]));
        if s[0] == '<' || s[0] == '>' || s[0] == '&' {
          EscapeQuotesWithoutQuotes(head);
        } else {
          assert head[1..] == "";
        }
      }
    }
  }

  lemma {:induction false} EscapeEachAppend(a: string, b: string, inAttribute: bool)
    ensures EscapeEach(a + b, inAttribute) == EscapeEach(a, inAttribute) + EscapeEach(b, inAttribute)
    decreases |a|
  {
    if |a| == 0 {
      assert a + b == b;
    } else {
      assert (a + b)[1..] == a[1..] + b;
      EscapeEachAppend(a[1..], b, inAttribute);
    }
  }

  /** Escaping distributes over concatenation. */
  lemma EscapeForHTMLAppend(a: string, b: string, inAttribute: bool)
    ensures EscapeForHTML(a + b, inAttribute) == EscapeForHTML(a, inAttribute) + EscapeForHTML(b, inAttribute)
  {
    EscapeForHTMLIsPerCharacter(a, inAttribute);
    EscapeForHTMLIsPerCharacter(b, inAttribute);
    EscapeForHTMLIsPerCharacter(a + b, inAttribute);
    EscapeEachAppend(a, b, inAttribute);
  }

  /** Character by character, text without markup characters is unchanged. */
  lemma {:induction false} EscapeEachWithoutMarkup(s: string, inAttribute: bool)
    requires forall i :: 0 <= i < |s| ==> s[i] !in "<>&\""
    ensures EscapeEach(s, inAttribute) == s
    decreases |s|
  {
    if |s| > 0 {
      assert s[0] !in "<>&\"";
      assert EscapeChar(s[0], inAttribute) == [s[0]];
      assert forall i :: 0 <= i < |s[1..]| ==> s[1..][i] == s[i + 1];
      EscapeEachWithoutMarkup(s[1..], inAttribute);
      assert [s[0]] + s[1..] == s;
    }
  }

  /** Text without markup characters is its own escape. */
  lemma {:induction false} EscapeForHTMLWithoutMarkup(s: string, inAttribute: bool)
    requires forall i :: 0 <= i < |s| ==> s[i] !in "<>&\""
    ensures EscapeForHTML(s, inAttribute) == s
  {
    EscapeForHTMLIsPerCharacter(s, inAttribute);
    EscapeEachWithoutMarkup(s, inAttribute);
  }

  // -----------------------------------------------------------------------
  // innerHTML and outerHTML
  // -----------------------------------------------------------------------

  predicate IsVoidTag(n: Node) {
    TagName(n) in VoidTagNames
  }

  /** ` name="value"` for each attribute, in map order. */
  function AttributesHTML(m: seq<Attr>): string
    decreases |m|
  {
    if |m| == 0 then ""
    else " " + m[0].name + "=\"" + EscapeForHTML(m[0].value, true) + "\"" + AttributesHTML(m[1..])
  }

  function StartTag(n: Node): string {
    "<" + ToLower(n.tag) + AttributesHTML(n.attributes) + ">"
  }

  function EndTag(n: Node): string {
    "</" + ToLower(n.tag) + ">"
  }

  function InnerHTML(n: Node): string
    decreases n, 3
  {
    InnerOf(n.allChildren)
  }

  function InnerOf(cs: seq<Child>): string
    decreases cs, 0
  {
    if |cs| == 0 then "" else ChildHTML(cs[0]) + InnerOf(cs[1..])
  }

  function ChildHTML(c: Child): string
    decreases c, 2
  {
    match c
    case Text(s) => EscapeForHTML(s, false)
    case Elem(m) => OuterHTML(m)
  }

  function OuterHTML(n: Node): string
    decreases n, 4
  {
    var inner := InnerHTML(n);
    var selfClosing := inner == "" && IsVoidTag(n);
    StartTag(n) + (if selfClosing then "" else inner + EndTag(n))
  }

  lemma {:induction false} InnerOfAppend(a: seq<Child>, b: seq<Child>)
    ensures InnerOf(a + b) == InnerOf(a) + InnerOf(b)
    decreases |a|
  {
    if |a| == 0 {
      assert a + b == b;
    } else {
      assert (a + b)[1..] == a[1..] + b;
      InnerOfAppend(a[1..], b);
    }
  }

  /** A non-empty attribute list renders ending with the closing quote of its last value. */
  lemma {:induction false} AttributesHTMLEndsWithQuote(m: seq<Attr>)
    ensures |AttributesHTML(m)| == 0 <==> |m| == 0
    ensures |m| > 0 ==> AttributesHTML(m)[|AttributesHTML(m)| - 1] == '"'
    decreases |m|
  {
    if |m| > 0 {
      AttributesHTMLEndsWithQuote(m[1..]);
    }
  }

  /** Every void name ends with an upper-case letter. */
  lemma VoidNamesEndWithLetters(name: string)
    requires name in VoidTagNames
    ensures |name| > 0 && 'A' <= name[|name| - 1] <= 'Z'
  {
  }

  /** The start tag of a void element never ends with its end tag. */
  lemma VoidStartTagLacksEndTag(n: Node)
    requires IsVoidTag(n)
    ensures !EndsWith(StartTag(n), EndTag(n))
  {
    var start := StartTag(n);
    var end := EndTag(n);
    EndTagClosesLetter(n);
    StartTagClosesQuote(n);
    if |start| >= |end| {
      // The end tag's last-but-one character is the tag's last letter; the
      // start tag has the closing `"` of its last attribute there.
      assert start[|start| - |end|..][|end| - 2] == start[|start| - 2];
    }
  }

  /** A void element's end tag has a letter just before its `>`. */
  lemma EndTagClosesLetter(n: Node)
    requires IsVoidTag(n)
    ensures |EndTag(n)| >= 4 && 'a' <= EndTag(n)[|EndTag(n)| - 2] <= 'z'
  {
    var lower := ToLower(n.tag);
    VoidNamesEndWithLetters(TagName(n));
    var last := |n.tag| - 1;
    assert 'A' <= TagName(n)[last] <= 'Z';
    assert 'a' <= lower[last] <= 'z';
    assert EndTag(n)[|EndTag(n)| - 2] == lower[last];
  }

  /** A start tag has the closing quote of its last attribute just before its `>`, or is one shorter than the end tag. */
  lemma StartTagClosesQuote(n: Node)
    ensures |n.attributes| > 0 ==> StartTag(n)[|StartTag(n)| - 2] == '"'
    ensures |n.attributes| == 0 ==> |StartTag(n)| + 1 == |EndTag(n)|
  {
    var attrs := AttributesHTML(n.attributes);
    AttributesHTMLEndsWithQuote(n.attributes);
    if |attrs| > 0 {
      assert StartTag(n)[|StartTag(n)| - 2] == attrs[|attrs| - 1];
    }
  }

  lemma EndsWithOwnSuffix(a: string, b: string)
    ensures EndsWith(a + b, b)
  {
    assert (a + b)[|a + b| - |b|..] == b;
  }

  /**
   * `outerHTML` leaves out the end tag exactly when the inner markup is
   * empty and the tag is one of the void names; otherwise it ends with the
   * end tag, even for an empty element.
   */
  lemma OuterHTMLEndTag(n: Node)
    ensures StartsWith(OuterHTML(n), StartTag(n))
    ensures EndsWith(OuterHTML(n), EndTag(n)) <==> !(InnerHTML(n) == "" && IsVoidTag(n))
    ensures InnerHTML(n) == "" && IsVoidTag(n) ==> OuterHTML(n) == StartTag(n)
  {
    if InnerHTML(n) == "" && IsVoidTag(n) {
      SelfClosingOuterHTML(n);
      VoidStartTagLacksEndTag(n);
      assert StartTag(n)[..|StartTag(n)|] == StartTag(n);
    } else {
      ClosedOuterHTML(n);
      EndsWithOwnSuffix(StartTag(n) + InnerHTML(n), EndTag(n));
      assert (StartTag(n) + InnerHTML(n) + EndTag(n))[..|StartTag(n)|] == StartTag(n);
    }
  }

  lemma SelfClosingOuterHTML(n: Node)
    requires InnerHTML(n) == "" && IsVoidTag(n)
    ensures OuterHTML(n) == StartTag(n)
  {
  }

  lemma ClosedOuterHTML(n: Node)
    requires !(InnerHTML(n) == "" && IsVoidTag(n))
    ensures OuterHTML(n) == StartTag(n) + InnerHTML(n) + EndTag(n)
  {
  }

  /** A void element with no children renders as its start tag alone. */
  lemma VoidWithoutChildren(n: Node)
    requires n.allChildren == [] && IsVoidTag(n)
    ensures OuterHTML(n) == StartTag(n)
  {
    assert InnerHTML(n) == "";
  }

  /** A non-void element always carries its end tag, even when empty. */
  lemma NonVoidHasEndTag(n: Node)
    requires !IsVoidTag(n)
    ensures OuterHTML(n) == StartTag(n) + InnerHTML(n) + EndTag(n)
  {
  }
}
