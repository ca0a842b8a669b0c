/**
 * The document walk of src/breakIntoCategories.js: `extractData`, and the
 * part of `loadHTMLDoc` that follows the parse.
 *
 * The walk visits the element children of BODY in order. Headings start a
 * category; lists either start an ask (depth 0) or are pushed into the ask
 * their depth reaches under the last ask of the last category, as a sub-ask,
 * as answers or as numbered self-replies. `inShiftedTree` records that a
 * question was found at an odd depth, which shifts the depth parity the walk
 * expects.
 *
 * The source pushes into arrays it reaches through references. Here the
 * categories are a value: a push into the reached ask rebuilds the last
 * category along the descent (`WriteBack`). Reading the file and parsing it
 * are not modelled: the parsed document is a parameter.
 */
module Extraction {
  import opened Wrappers
  import opened JsText
  import opened HtmlNode
  import opened TextFormat
  import opened Structure
  import opened Converters

  /** The state the `forEach` callback closes over. */
  datatype WalkState = WalkState(categories: seq<Category>, inShiftedTree: bool)

  const MiscFolder := "Miscellaneous"
  const NoBody := "Could not find the body element."
  const NoHtml := "Could not find base HTML element. "

  /** `/^H\d$/.test(tagName)`. */
  predicate IsHeading(tagName: string) {
    |tagName| == 2 && tagName[0] == 'H' && IsDigit(tagName[1])
  }

  /** The hand-made skip of list elements 352 to 363 of the Miscellaneous document. */
  predicate Skipped(e: Node, index: nat, isInMiscFile: bool) {
    isInMiscFile && TagName(e) == "UL" && 352 <= index <= 363
  }

  predicate IsList(e: Node) {
    TagName(e) == "UL" || TagName(e) == "OL"
  }

  /** The header of the category a heading starts. */
  function HeaderText(e: Node, decodeURIComponent: UriDecoder): string {
    FormatAndTrim(StripHTML(InnerHTML(e), decodeURIComponent), false)
  }

  /** `depth % 2 === 1`: JavaScript's remainder keeps the sign, so only positive odd depths pass. */
  predicate OddDepth(depth: Number) {
    depth.Num? && depth.n > 0 && depth.n % 2 == 1
  }

  /** `depth % 2 === 0`. */
  predicate EvenDepth(depth: Number) {
    depth.Num? && depth.n % 2 == 0
  }

  /** The test that picks the branch which may shift the tree. */
  predicate ShiftBranch(inShiftedTree: bool, depth: Number) {
    (!inShiftedTree && OddDepth(depth)) || (inShiftedTree && EvenDepth(depth))
  }

  // -----------------------------------------------------------------------
  // Pushing into the reached ask
  // -----------------------------------------------------------------------

  predicate HasLastAsk(arr: seq<Category>) {
    |arr| > 0 && |arr[|arr| - 1].questions| > 0
  }

  function LastAsk(arr: seq<Category>): Ask
    requires HasLastAsk(arr)
  {
    var qs := arr[|arr| - 1].questions;
    qs[|qs| - 1]
  }

  /**
   * The categories once the ask `k` steps down the last ask of the last
   * category is replaced by `n`: what a push through the reference
   * `getQuestionWithDepth` returned does to the tree.
   */
  function WriteBack(arr: seq<Category>, k: nat, n: Ask): (r: seq<Category>)
    requires HasLastAsk(arr)
    ensures |r| == |arr| && HasLastAsk(r)
    ensures forall c :: 0 <= c < |arr| - 1 ==> r[c] == arr[c]
    ensures r[|r| - 1].header == arr[|arr| - 1].header
    ensures |r[|r| - 1].questions| == |arr[|arr| - 1].questions|
    ensures r[|r| - 1].questions[..|arr[|arr| - 1].questions| - 1] == arr[|arr| - 1].questions[..|arr[|arr| - 1].questions| - 1]
    ensures LastAsk(r) == ReplaceAt(LastAsk(arr), k, n)
  {
    var cat := arr[|arr| - 1];
    var qs := cat.questions;
    arr[..|arr| - 1] + [cat.(questions := qs[..|qs| - 1] + [ReplaceAt(qs[|qs| - 1], k, n)])]
  }

  /** An edit applied to the ask `k` steps down the last ask, written back. */
  function Push(arr: seq<Category>, k: nat, edit: Edit): seq<Category>
    requires HasLastAsk(arr)
  {
    WriteBack(arr, k, Apply(edit, Descend(LastAsk(arr), k)))
  }

  /** A new ask at the end of the last category, numbered by its position. */
  function AddAsk(arr: seq<Category>, q: Question): (r: seq<Category>)
    requires |arr| > 0
    ensures |r| == |arr| && forall c :: 0 <= c < |arr| - 1 ==> r[c] == arr[c]
    ensures r[|r| - 1].header == arr[|arr| - 1].header
    ensures r[|r| - 1].questions == arr[|arr| - 1].questions + [NewAsk(q, |arr[|arr| - 1].questions|)]
  {
    var cat := arr[|arr| - 1];
    arr[..|arr| - 1] + [cat.(questions := cat.questions + [NewAsk(q, |cat.questions|)])]
  }

  // -----------------------------------------------------------------------
  // One element of the walk
  // -----------------------------------------------------------------------

  /** What the `forEach` callback does with the element `e` at position `index` among BODY's element children. */
  function Step(st: WalkState, e: Node, index: nat, isInMiscFile: bool, boldClassId: string, decodeURIComponent: UriDecoder): Result<WalkState> {
    if Skipped(e, index, isInMiscFile) then Success(st)
    else if IsHeading(TagName(e)) then
      Success(WalkState(st.categories + [Category(HeaderText(e, decodeURIComponent), [])], false))
    else if !IsList(e) then Success(st)
    else ListStep(st, e, boldClassId, decodeURIComponent)
  }

  /** The callback on a UL or OL. */
  function ListStep(st: WalkState, e: Node, boldClassId: string, decodeURIComponent: UriDecoder): Result<WalkState> {
    var arr := st.categories;
    var depth := GetDepth(e);
    if |arr| == 0 then Failure(RangeError(NoCategories))
    else if depth == Num(0) then AskStep(arr, e, decodeURIComponent)
    else if |arr[|arr| - 1].questions| == 0 then Failure(RangeError(NoQuestions))
    else NestedStep(st, e, depth, boldClassId, decodeURIComponent)
  }

  /** The callback on a list at depth 0: the start of a new ask. */
  function AskStep(arr: seq<Category>, e: Node, decodeURIComponent: UriDecoder): Result<WalkState>
    requires |arr| > 0
  {
    match QuestionObject(e, decodeURIComponent)
    case Failure(err) => Failure(err)
    case Success(q) => Success(WalkState(AddAsk(arr, q), false))
  }

  /**
   * The depth `getQuestionWithDepth` is given: `depth + 1 + (+inShiftedTree)`
   * in the branch that may shift the tree, `depth` in the other.
   */
  function ReachDepth(inShiftedTree: bool, depth: Number): Number {
    if ShiftBranch(inShiftedTree, depth) then depth.Plus(Num(1)).Plus(Num(if inShiftedTree then 1 else 0)) else depth
  }

  /** The number of last-sub-ask steps from the last ask to the ask a nested list is pushed into. */
  function PushSteps(inShiftedTree: bool, depth: Number): nat {
    DescentSteps(ReachDepth(inShiftedTree, depth))
  }

  /** The callback on a nested list (depth not 0), once there is an ask to push into. */
  function NestedStep(st: WalkState, e: Node, depth: Number, boldClassId: string, decodeURIComponent: UriDecoder): Result<WalkState>
    requires HasLastAsk(st.categories)
  {
    var arr := st.categories;
    var shift := st.inShiftedTree;
    var k := PushSteps(shift, depth);
    match IsQuestion(e, boldClassId, decodeURIComponent)
    case Failure(err) => Failure(err)
    case Success(isQ) =>
      if isQ then
        match QuestionObject(e, decodeURIComponent)
        case Failure(err) => Failure(err)
        case Success(q) =>
          Success(WalkState(Push(arr, k, AddSubAsk(q)), if ShiftBranch(shift, depth) then !shift else shift))
      else
        var replies := ExpandAndFormatReplies(e, decodeURIComponent);
        if ShiftBranch(shift, depth) || (shift && depth == Num(1)) then
          Success(WalkState(Push(arr, k, AddAnswers(replies)), shift))
        else
          Success(WalkState(Push(arr, k, AddSelfReplies(replies)), shift))
  }

  /** The walk from position `from` on. */
  function Walk(elems: seq<Node>, from: nat, st: WalkState, isInMiscFile: bool, boldClassId: string, decodeURIComponent: UriDecoder): Result<WalkState>
    decreases |elems| - from
  {
    if from >= |elems| then Success(st)
    else
      match Step(st, elems[from], from, isInMiscFile, boldClassId, decodeURIComponent)
      case Failure(err) => Failure(err)
      case Success(next) => Walk(elems, from + 1, next, isInMiscFile, boldClassId, decodeURIComponent)
  }

  /** The categories the walk of BODY's element children builds, or the error it throws. */
  function Extracted(elems: seq<Node>, isInMiscFile: bool, boldClassId: string, decodeURIComponent: UriDecoder): Result<seq<Category>> {
    match Walk(elems, 0, WalkState([], false), isInMiscFile, boldClassId, decodeURIComponent)
    case Failure(err) => Failure(err)
    case Success(st) => Success(st.categories)
  }

  // -----------------------------------------------------------------------
  // The walk, step by step
  // -----------------------------------------------------------------------

  /**
   * The `forEach` callback as the source writes it: the helper methods
   * find the category, the ask and the reached ask, and each push is
   * written back into the tree.
   */
  method VisitElement(categories: seq<Category>, shifted: bool, e: Node, index: nat, isInMiscFile: bool, boldClassId: string, decodeURIComponent: UriDecoder)
    returns (r: Result<WalkState>)
    ensures r == Step(WalkState(categories, shifted), e, index, isInMiscFile, boldClassId, decodeURIComponent)
  {
    var arr := categories;
    var inShiftedTree := shifted;
    if isInMiscFile && TagName(e) == "UL" && index >= 352 && index <= 363 {
      return Success(WalkState(arr, inShiftedTree));
    }
    if IsHeading(TagName(e)) {
      arr := arr + [Category(FormatAndTrim(StripHTML(InnerHTML(e), decodeURIComponent), false), [])];
      inShiftedTree := false;
      return Success(WalkState(arr, inShiftedTree));
    }
    if TagName(e) != "UL" && TagName(e) != "OL" {
      return Success(WalkState(arr, inShiftedTree));
    }
    r := VisitList(arr, inShiftedTree, e, boldClassId, decodeURIComponent);
  }

  /** The callback from `getLastCategory(arr)` on. */
  method VisitList(categories: seq<Category>, shifted: bool, e: Node, boldClassId: string, decodeURIComponent: UriDecoder)
    returns (r: Result<WalkState>)
    ensures r == ListStep(WalkState(categories, shifted), e, boldClassId, decodeURIComponent)
  {
    var arr := categories;
    var inShiftedTree := shifted;
    var found;
    found, arr := GetLastCategory(arr, true);
    if found.Failure? {
      return Failure(found.error);
    }
    assert arr == categories;
    var lastCategory := found.value;
    var depth := GetDepth(e);
    if depth == Num(0) {
      r := VisitAsk(arr, lastCategory, e, decodeURIComponent);
      return;
    }
    var lastAsk;
    lastAsk, lastCategory := GetLastAsk(lastCategory, true);
    if lastAsk.Failure? {
      return Failure(lastAsk.error);
    }
    assert lastAsk.value == LastAsk(arr);
    r := VisitNested(arr, inShiftedTree, e, depth, lastAsk.value, boldClassId, decodeURIComponent);
  }

  /** The depth-0 branch: the new ask is pushed into the last category, which is written back. */
  method VisitAsk(categories: seq<Category>, lastCategory: Category, e: Node, decodeURIComponent: UriDecoder) returns (r: Result<WalkState>)
    requires |categories| > 0 && lastCategory == categories[|categories| - 1]
    ensures r == AskStep(categories, e, decodeURIComponent)
  {
    var question := ConvertToQuestionObject(e, decodeURIComponent);
    if question.Failure? {
      return Failure(question.error);
    }
    var category := lastCategory.(questions := lastCategory.questions + [NewAsk(question.value, |lastCategory.questions|)]);
    var arr := categories[..|categories| - 1] + [category];
    r := Success(WalkState(arr, false));
  }

  /** The two branches that push into the ask the depth reaches. */
  method VisitNested(arr: seq<Category>, shifted: bool, e: Node, depth: Number, lastAsk: Ask, boldClassId: string, decodeURIComponent: UriDecoder)
    returns (r: Result<WalkState>)
    requires HasLastAsk(arr) && lastAsk == LastAsk(arr)
    ensures r == NestedStep(WalkState(arr, shifted), e, depth, boldClassId, decodeURIComponent)
  {
    var inShiftedTree := shifted;
    var reach := if ShiftBranch(inShiftedTree, depth) then depth.Plus(Num(1)).Plus(Num(if inShiftedTree then 1 else 0)) else depth;
    assert reach == ReachDepth(inShiftedTree, depth);
    var lastQuestion := GetQuestionWithDepth(lastAsk, reach);
    var k := DescentSteps(reach);
    var isQ := IsQuestion(e, boldClassId, decodeURIComponent);
    if isQ.Failure? {
      return Failure(isQ.error);
    }
    if ShiftBranch(inShiftedTree, depth) {
      if isQ.value {
        inShiftedTree := !inShiftedTree;
        var question := ConvertToQuestionObject(e, decodeURIComponent);
        if question.Failure? {
          return Failure(question.error);
        }
        lastQuestion := lastQuestion.(subAsks := lastQuestion.subAsks + [NewAsk(question.value, Total(lastQuestion))]);
        return Success(WalkState(WriteBack(arr, k, lastQuestion), inShiftedTree));
      }
      lastQuestion := lastQuestion.(answers := lastQuestion.answers + ExpandAndFormatReplies(e, decodeURIComponent));
    } else {
      if isQ.value {
        var question := ConvertToQuestionObject(e, decodeURIComponent);
        if question.Failure? {
          return Failure(question.error);
        }
        lastQuestion := lastQuestion.(subAsks := lastQuestion.subAsks + [NewAsk(question.value, Total(lastQuestion))]);
      } else {
        var replies := ExpandAndFormatReplies(e, decodeURIComponent);
        if inShiftedTree && depth == Num(1) {
          lastQuestion := lastQuestion.(answers := lastQuestion.answers + replies);
        } else {
          var withIndexes := NumberReplies(replies, Total(lastQuestion));
          lastQuestion := lastQuestion.(selfReplies := lastQuestion.selfReplies + withIndexes);
        }
      }
    }
    r := Success(WalkState(WriteBack(arr, k, lastQuestion), inShiftedTree));
  }

  /** `elems.forEach(...)` over BODY's element children, stopping at the first error thrown. */
  method ExtractBody(elems: seq<Node>, isInMiscFile: bool, boldClassId: string, decodeURIComponent: UriDecoder)
    returns (r: Result<seq<Category>>)
    ensures r == Extracted(elems, isInMiscFile, boldClassId, decodeURIComponent)
  {
    var arr: seq<Category> := [];
    var inShiftedTree := false;
    var index := 0;
    while index < |elems|
      invariant 0 <= index <= |elems|
      invariant Walk(elems, 0, WalkState([], false), isInMiscFile, boldClassId, decodeURIComponent)
                == Walk(elems, index, WalkState(arr, inShiftedTree), isInMiscFile, boldClassId, decodeURIComponent)
    {
      var visited := VisitElement(arr, inShiftedTree, elems[index], index, isInMiscFile, boldClassId, decodeURIComponent);
      if visited.Failure? {
        return Failure(visited.error);
      }
      arr := visited.value.categories;
      inShiftedTree := visited.value.inShiftedTree;
      index := index + 1;
    }
    r := Success(arr);
  }

  // -----------------------------------------------------------------------
  // extractData
  // -----------------------------------------------------------------------

  /** `folderName.replaceAll(' ', '') + '.html'`. */
  function HtmlFileName(folderName: string): (r: string)
    ensures |r| >= 5 && r[|r| - 5..] == ".html"
    ensures r[..|r| - 5] == RemoveSpaces(folderName) && ' ' !in r
  {
    RemoveSpaces(folderName) + ".html"
  }

  /** `replaceAll(' ', '')`. */
  function RemoveSpaces(s: string): (r: string)
    ensures ' ' !in r && |r| <= |s|
    ensures multiset(r) == multiset(s)[' ' := 0]
    ensures ' ' !in s ==> r == s
    decreases |s|
  {
    if |s| == 0 then ""
    else
      var rest := RemoveSpaces(s[1..]);
      assert s == [s[0]] + s[1..];
      if s[0] == ' ' then rest else [s[0]] + rest
  }

  /** Removing spaces keeps the order of what is left: it distributes over appending. */
  lemma {:induction false} RemoveSpacesAppend(a: string, b: string)
    ensures RemoveSpaces(a + b) == RemoveSpaces(a) + RemoveSpaces(b)
    decreases |a|
  {
    if |a| > 0 {
      assert (a + b)[1..] == a[1..] + b;
      RemoveSpacesAppend(a[1..], b);
    } else {
      assert a + b == b;
    }
  }

  predicate IsHtmlElement(c: ChildNode) {
    c.ElementNode? && c.elem.nodeName == "html"
  }

  /** The index of the first `html` element at or after `from`, or -1. */
  function HtmlIndex(document: seq<ChildNode>, from: nat): (r: int)
    requires from <= |document|
    ensures r == -1 || from <= r < |document|
    ensures r >= 0 ==> IsHtmlElement(document[r])
    ensures forall k :: from <= k < |document| && (r < 0 || k < r) ==> !IsHtmlElement(document[k])
    decreases |document| - from
  {
    if from == |document| then -1
    else if IsHtmlElement(document[from]) then from
    else HtmlIndex(document, from + 1)
  }

  /** `parsed.childNodes.find(v => v.nodeName === 'html')`. */
  function HtmlElement(document: seq<ChildNode>): (r: Option<Element>)
    ensures r.Some? ==> exists k :: 0 <= k < |document| && IsHtmlElement(document[k]) && document[k].elem == r.value
                                    && forall j :: 0 <= j < k ==> !IsHtmlElement(document[j])
    ensures r.None? <==> forall k :: 0 <= k < |document| ==> !IsHtmlElement(document[k])
  {
    var k := HtmlIndex(document, 0);
    if k < 0 then None else Some(document[k].elem)
  }

  /**
   * `extractData(folderName)` on the child nodes of the parsed document:
   * the html element, its bold selector, its BODY and the walk of BODY's
   * element children.
   */
  function DocumentData(document: seq<ChildNode>, folderName: string, decodeURIComponent: UriDecoder): Result<seq<Category>> {
    match HtmlElement(document)
    case None => Failure(GeneralError(NoHtml + HtmlFileName(folderName)))
    case Some(htmlElem) =>
      var baseElem := Normalized(htmlElem);
      match FindBoldSelector(baseElem)
      case Failure(err) => Failure(err)
      case Success(boldClassId) =>
        match FindByTag(Children(baseElem), "BODY")
        case None => Failure(GeneralError(NoBody))
        case Some(bodyElem) => Extracted(Children(bodyElem), folderName == MiscFolder, boldClassId, decodeURIComponent)
  }

  /** `loadHTMLDoc` after the parse, then `extractData`, as the source runs them. */
  method ExtractData(document: seq<ChildNode>, folderName: string, decodeURIComponent: UriDecoder) returns (r: Result<seq<Category>>)
    ensures r == DocumentData(document, folderName, decodeURIComponent)
  {
    var htmlElem := HtmlElement(document);
    if htmlElem.None? {
      return Failure(GeneralError(NoHtml + HtmlFileName(folderName)));
    }
    var baseElem := Build(htmlElem.value);
    var boldClassId := FindBoldSelector(baseElem);
    if boldClassId.Failure? {
      return Failure(boldClassId.error);
    }
    var bodyElem := FindByTag(Children(baseElem), "BODY");
    if bodyElem.None? {
      return Failure(GeneralError(NoBody));
    }
    var isInMiscFile := folderName == MiscFolder;
    r := ExtractBody(Children(bodyElem.value), isInMiscFile, boldClassId.value, decodeURIComponent);
  }

  // -----------------------------------------------------------------------
  // Where a nested list goes
  // -----------------------------------------------------------------------

  /**
   * Outside a shifted tree, a list at odd depth `2m + 1` goes `m` steps
   * down the last ask and one at even depth `2m + 2` goes `m` steps; inside
   * a shifted tree the parities swap: even depth `2m` goes `m` steps and odd
   * depth `2m + 3` goes `m` steps.
   */
  lemma PushStepsByDepth(m: nat)
    ensures PushSteps(false, Num(2 * m + 1)) == m
    ensures PushSteps(false, Num(2 * m + 2)) == m
    ensures PushSteps(true, Num(2 * m)) == m
    ensures PushSteps(true, Num(2 * m + 3)) == m
  {
    assert (2 * m + 1) % 2 == 1 && (2 * m + 2) % 2 == 0 && (2 * m) % 2 == 0 && (2 * m + 3) % 2 == 1;
    assert (2 * m + 2) / 2 == m + 1 && (2 * m + 4) / 2 == m + 2 && (2 * m + 3) / 2 == m + 1;
  }

  /** A NaN or negative depth (a class without a level) pushes into the last ask itself. */
  lemma NoDepthPushesIntoLastAsk(inShiftedTree: bool, depth: Number)
    requires depth.NaN? || depth.n < 0
    ensures PushSteps(inShiftedTree, depth) == 0
  {
  }

  // -----------------------------------------------------------------------
  // The index invariant of the result
  // -----------------------------------------------------------------------

  /** Every ask of the category sits at its own index, and its tree is well-indexed. */
  predicate CategoryIndexed(cat: Category) {
    forall k :: 0 <= k < |cat.questions| ==> cat.questions[k].index == k && WellIndexed(cat.questions[k])
  }

  predicate Consistent(arr: seq<Category>) {
    forall c :: 0 <= c < |arr| ==> CategoryIndexed(arr[c])
  }

  /** An edit of the ask reached from a well-indexed ask, written back, keeps it well-indexed and at its index. */
  lemma EditKeepsIndexed(a: Ask, k: nat, edit: Edit)
    requires WellIndexed(a)
    ensures var r := ReplaceAt(a, k, Apply(edit, Descend(a, k)));
            WellIndexed(r) && r.index == a.index
  {
    var reached := Descend(a, k);
    DescendKeepsIndexed(a, k);
    ApplyKeepsIndexed(edit, reached);
    ReplaceKeepsIndexed(a, k, Apply(edit, reached));
    if k == 0 || |a.subAsks| == 0 {
      assert reached == a;
    }
  }

  /** A push into the ask reached along the last ask keeps every index in place. */
  lemma PushKeepsConsistent(arr: seq<Category>, k: nat, edit: Edit)
    requires HasLastAsk(arr) && Consistent(arr)
    ensures Consistent(Push(arr, k, edit))
  {
    var qs := arr[|arr| - 1].questions;
    EditKeepsIndexed(qs[|qs| - 1], k, edit);
    var r := Push(arr, k, edit);
    var rs := r[|r| - 1].questions;
    assert forall j :: 0 <= j < |qs| - 1 ==> rs[j] == rs[..|qs| - 1][j] == qs[j];
    assert CategoryIndexed(r[|r| - 1]);
  }

  lemma AddAskKeepsConsistent(arr: seq<Category>, q: Question)
    requires |arr| > 0 && Consistent(arr)
    ensures Consistent(AddAsk(arr, q))
  {
    NewAskIsWellIndexed(q, |arr[|arr| - 1].questions|);
    var r := AddAsk(arr, q);
    assert CategoryIndexed(r[|r| - 1]);
  }

  lemma NestedStepKeepsConsistent(st: WalkState, e: Node, depth: Number, boldClassId: string, decodeURIComponent: UriDecoder)
    requires HasLastAsk(st.categories) && Consistent(st.categories)
    ensures var r := NestedStep(st, e, depth, boldClassId, decodeURIComponent);
            r.Success? ==> Consistent(r.value.categories)
  {
    var k := PushSteps(st.inShiftedTree, depth);
    match IsQuestion(e, boldClassId, decodeURIComponent)
    case Failure(_) =>
    case Success(isQ) =>
      if isQ {
        match QuestionObject(e, decodeURIComponent)
        case Failure(_) =>
        case Success(q) => PushKeepsConsistent(st.categories, k, AddSubAsk(q));
      } else {
        var replies := ExpandAndFormatReplies(e, decodeURIComponent);
        PushKeepsConsistent(st.categories, k, AddAnswers(replies));
        PushKeepsConsistent(st.categories, k, AddSelfReplies(replies));
      }
  }

  lemma StepKeepsConsistent(st: WalkState, e: Node, index: nat, isInMiscFile: bool, boldClassId: string, decodeURIComponent: UriDecoder)
    requires Consistent(st.categories)
    ensures var r := Step(st, e, index, isInMiscFile, boldClassId, decodeURIComponent);
            r.Success? ==> Consistent(r.value.categories)
  {
    var arr := st.categories;
    if !Skipped(e, index, isInMiscFile) && !IsHeading(TagName(e)) && IsList(e) && |arr| > 0 {
      if GetDepth(e) == Num(0) {
        match QuestionObject(e, decodeURIComponent)
        case Failure(_) =>
        case Success(q) => AddAskKeepsConsistent(arr, q);
      } else if HasLastAsk(arr) {
        NestedStepKeepsConsistent(st, e, GetDepth(e), boldClassId, decodeURIComponent);
      }
    } else if !Skipped(e, index, isInMiscFile) && IsHeading(TagName(e)) {
      var r := arr + [Category(HeaderText(e, decodeURIComponent), [])];
      assert forall c :: 0 <= c < |arr| ==> r[c] == arr[c];
    }
  }

  lemma {:induction false} WalkKeepsConsistent(elems: seq<Node>, from: nat, st: WalkState, isInMiscFile: bool, boldClassId: string, decodeURIComponent: UriDecoder)
    requires Consistent(st.categories)
    ensures var r := Walk(elems, from, st, isInMiscFile, boldClassId, decodeURIComponent);
            r.Success? ==> Consistent(r.value.categories)
    decreases |elems| - from
  {
    if from < |elems| {
      StepKeepsConsistent(st, elems[from], from, isInMiscFile, boldClassId, decodeURIComponent);
      match Step(st, elems[from], from, isInMiscFile, boldClassId, decodeURIComponent)
      case Failure(_) =>
      case Success(next) => WalkKeepsConsistent(elems, from + 1, next, isInMiscFile, boldClassId, decodeURIComponent);
    }
  }

  /**
   * In every category `extractData` returns, each ask sits at its own
   * index, and inside every ask the sub-asks and self-replies carry
   * distinct, increasing indices below the ask's reply count.
   */
  lemma DocumentDataIsConsistent(document: seq<ChildNode>, folderName: string, decodeURIComponent: UriDecoder)
    ensures DocumentData(document, folderName, decodeURIComponent).Success? ==>
              Consistent(DocumentData(document, folderName, decodeURIComponent).value)
  {
    match HtmlElement(document)
    case None =>
    case Some(htmlElem) =>
      var baseElem := Normalized(htmlElem);
      match FindBoldSelector(baseElem)
      case Failure(_) =>
      case Success(boldClassId) =>
        match FindByTag(Children(baseElem), "BODY")
        case None =>
        case Some(bodyElem) =>
          WalkKeepsConsistent(Children(bodyElem), 0, WalkState([], false), folderName == MiscFolder, boldClassId, decodeURIComponent);
  }

  // -----------------------------------------------------------------------
  // Categories follow the headings
  // -----------------------------------------------------------------------

  function Headers(arr: seq<Category>): (r: seq<string>)
    ensures |r| == |arr| && forall c :: 0 <= c < |arr| ==> r[c] == arr[c].header
  {
    seq(|arr|, c requires 0 <= c < |arr| => arr[c].header)
  }

  /** The headers of the headings among `elems`, in order. */
  function HeadingTexts(elems: seq<Node>, decodeURIComponent: UriDecoder): seq<string> {
    if |elems| == 0 then []
    else (if IsHeading(TagName(elems[0])) then [HeaderText(elems[0], decodeURIComponent)] else [])
         + HeadingTexts(elems[1..], decodeURIComponent)
  }

  /** Same number of categories, all but the last unchanged, and the same last header. */
  predicate OnlyLastChanged(out: seq<Category>, arr: seq<Category>) {
    && |out| == |arr|
    && (forall c :: 0 <= c < |arr| - 1 ==> out[c] == arr[c])
    && (|arr| > 0 ==> out[|arr| - 1].header == arr[|arr| - 1].header)
  }

  lemma NestedStepChangesLastOnly(st: WalkState, e: Node, depth: Number, boldClassId: string, decodeURIComponent: UriDecoder)
    requires HasLastAsk(st.categories)
    ensures var r := NestedStep(st, e, depth, boldClassId, decodeURIComponent);
            r.Success? ==> OnlyLastChanged(r.value.categories, st.categories)
  {
  }

  /** A list changes the last category only: its questions, never its header. */
  lemma ListStepChangesLastOnly(st: WalkState, e: Node, boldClassId: string, decodeURIComponent: UriDecoder)
    ensures var r := ListStep(st, e, boldClassId, decodeURIComponent);
            r.Success? ==> OnlyLastChanged(r.value.categories, st.categories)
  {
    var arr := st.categories;
    if |arr| > 0 {
      if GetDepth(e) == Num(0) {
        AskStepChangesLastOnly(arr, e, decodeURIComponent);
      } else if HasLastAsk(arr) {
        NestedStepChangesLastOnly(st, e, GetDepth(e), boldClassId, decodeURIComponent);
      }
    }
  }

  lemma AskStepChangesLastOnly(arr: seq<Category>, e: Node, decodeURIComponent: UriDecoder)
    requires |arr| > 0
    ensures var r := AskStep(arr, e, decodeURIComponent);
            r.Success? ==> OnlyLastChanged(r.value.categories, arr)
  {
  }

  lemma SameHeaders(out: seq<Category>, arr: seq<Category>)
    requires OnlyLastChanged(out, arr)
    ensures Headers(out) == Headers(arr)
  {
    assert forall c :: 0 <= c < |arr| ==> Headers(out)[c] == Headers(arr)[c];
  }

  lemma AppendedHeader(arr: seq<Category>, cat: Category)
    ensures Headers(arr + [cat]) == Headers(arr) + [cat.header]
  {
    assert forall c :: 0 <= c < |arr| ==> (arr + [cat])[c] == arr[c];
  }

  /**
   * Only a heading adds a category, and no step changes a header or any
   * category but the last.
   */
  lemma StepKeepsHeaders(st: WalkState, e: Node, index: nat, isInMiscFile: bool, boldClassId: string, decodeURIComponent: UriDecoder)
    ensures var r := Step(st, e, index, isInMiscFile, boldClassId, decodeURIComponent);
            r.Success? ==>
              Headers(r.value.categories)
              == Headers(st.categories) + if IsHeading(TagName(e)) then [HeaderText(e, decodeURIComponent)] else []
    ensures var r := Step(st, e, index, isInMiscFile, boldClassId, decodeURIComponent);
            r.Success? && !IsHeading(TagName(e)) ==> OnlyLastChanged(r.value.categories, st.categories)
  {
    var arr := st.categories;
    var r := Step(st, e, index, isInMiscFile, boldClassId, decodeURIComponent);
    if r.Success? {
      var out := r.value.categories;
      if Skipped(e, index, isInMiscFile) {
        assert !IsHeading(TagName(e)) by {
          assert TagName(e)[0] == 'U';
        }
      } else if IsHeading(TagName(e)) {
        AppendedHeader(arr, Category(HeaderText(e, decodeURIComponent), []));
      } else if IsList(e) {
        ListStepChangesLastOnly(st, e, boldClassId, decodeURIComponent);
        SameHeaders(out, arr);
      }
    }
  }

  /** The categories `extractData` builds are the headings of BODY, in order. */
  lemma {:induction false} WalkFollowsHeadings(elems: seq<Node>, from: nat, st: WalkState, isInMiscFile: bool, boldClassId: string, decodeURIComponent: UriDecoder)
    requires from <= |elems|
    ensures var r := Walk(elems, from, st, isInMiscFile, boldClassId, decodeURIComponent);
            r.Success? ==> Headers(r.value.categories) == Headers(st.categories) + HeadingTexts(elems[from..], decodeURIComponent)
    decreases |elems| - from
  {
    if from == |elems| {
      assert elems[from..] == [];
    } else {
      var e := elems[from];
      assert elems[from..][0] == e && elems[from..][1..] == elems[from + 1..];
      StepKeepsHeaders(st, e, from, isInMiscFile, boldClassId, decodeURIComponent);
      match Step(st, e, from, isInMiscFile, boldClassId, decodeURIComponent)
      case Failure(_) =>
      case Success(next) =>
        WalkFollowsHeadings(elems, from + 1, next, isInMiscFile, boldClassId, decodeURIComponent);
    }
  }

  lemma ExtractedFollowsHeadings(elems: seq<Node>, isInMiscFile: bool, boldClassId: string, decodeURIComponent: UriDecoder)
    ensures var r := Extracted(elems, isInMiscFile, boldClassId, decodeURIComponent);
            r.Success? ==> Headers(r.value) == HeadingTexts(elems, decodeURIComponent)
  {
    WalkFollowsHeadings(elems, 0, WalkState([], false), isInMiscFile, boldClassId, decodeURIComponent);
    assert elems[0..] == elems;
  }

  // -----------------------------------------------------------------------
  // Errors and the shifted tree
  // -----------------------------------------------------------------------

  /** The walk of one element throws "No categories present." exactly for a list before any heading. */
  lemma StepNoCategories(st: WalkState, e: Node, index: nat, isInMiscFile: bool, boldClassId: string, decodeURIComponent: UriDecoder)
    ensures Step(st, e, index, isInMiscFile, boldClassId, decodeURIComponent) == Failure(RangeError(NoCategories))
            <==> !Skipped(e, index, isInMiscFile) && !IsHeading(TagName(e)) && IsList(e) && |st.categories| == 0
  {
    var r := Step(st, e, index, isInMiscFile, boldClassId, decodeURIComponent);
    if r.Failure? && !Skipped(e, index, isInMiscFile) && !IsHeading(TagName(e)) && IsList(e) && |st.categories| > 0 {
      NestedStepErrors(st, e, GetDepth(e), boldClassId, decodeURIComponent);
    }
  }

  /** A nested list fails only with the TypeError of `isQuestion` or `convertToQuestionObject`. */
  lemma NestedStepErrors(st: WalkState, e: Node, depth: Number, boldClassId: string, decodeURIComponent: UriDecoder)
    ensures (if HasLastAsk(st.categories) then NestedStep(st, e, depth, boldClassId, decodeURIComponent) else Success(st)).Failure? ==>
              (if HasLastAsk(st.categories) then NestedStep(st, e, depth, boldClassId, decodeURIComponent) else Success(st)).error.TypeError?
  {
  }

  /**
   * The walk of one element throws "No questions found in the given
   * category." exactly for a nested list (depth other than 0) while the
   * last category has no ask.
   */
  lemma StepNoQuestions(st: WalkState, e: Node, index: nat, isInMiscFile: bool, boldClassId: string, decodeURIComponent: UriDecoder)
    ensures Step(st, e, index, isInMiscFile, boldClassId, decodeURIComponent) == Failure(RangeError(NoQuestions))
            <==> !Skipped(e, index, isInMiscFile) && !IsHeading(TagName(e)) && IsList(e) && |st.categories| > 0
                 && GetDepth(e) != Num(0) && |st.categories[|st.categories| - 1].questions| == 0
  {
    var r := Step(st, e, index, isInMiscFile, boldClassId, decodeURIComponent);
    if r.Failure? && !Skipped(e, index, isInMiscFile) && !IsHeading(TagName(e)) && IsList(e) && |st.categories| > 0 {
      NestedStepErrors(st, e, GetDepth(e), boldClassId, decodeURIComponent);
    }
  }

  /**
   * `inShiftedTree` is cleared by a heading and by the start of an ask,
   * flips when a question turns up in the branch that tests the shifted
   * parity, and is kept by every other element.
   */
  lemma StepShift(st: WalkState, e: Node, index: nat, isInMiscFile: bool, boldClassId: string, decodeURIComponent: UriDecoder)
    ensures var r := Step(st, e, index, isInMiscFile, boldClassId, decodeURIComponent);
            r.Success? ==>
              r.value.inShiftedTree
              == if Skipped(e, index, isInMiscFile) || (!IsHeading(TagName(e)) && !IsList(e)) then st.inShiftedTree
                 else if IsHeading(TagName(e)) || GetDepth(e) == Num(0) then false
                 else if ShiftBranch(st.inShiftedTree, GetDepth(e)) && IsQuestion(e, boldClassId, decodeURIComponent) == Success(true)
                 then !st.inShiftedTree
                 else st.inShiftedTree
  {
  }

  // -----------------------------------------------------------------------
  // Documents
  // -----------------------------------------------------------------------

  /** Skipped elements, and elements that are neither headings nor lists, leave the state as it was. */
  lemma StepIgnoresOthers(st: WalkState, e: Node, index: nat, isInMiscFile: bool, boldClassId: string, decodeURIComponent: UriDecoder)
    requires Skipped(e, index, isInMiscFile) || (!IsHeading(TagName(e)) && !IsList(e))
    ensures Step(st, e, index, isInMiscFile, boldClassId, decodeURIComponent) == Success(st)
  {
  }

  /** A list before the first heading makes `extractData` throw. */
  lemma ListFirstFails(elems: seq<Node>, isInMiscFile: bool, boldClassId: string, decodeURIComponent: UriDecoder)
    requires |elems| > 0 && IsList(elems[0]) && !IsHeading(TagName(elems[0]))
    ensures Extracted(elems, isInMiscFile, boldClassId, decodeURIComponent) == Failure(RangeError(NoCategories))
  {
    StepNoCategories(WalkState([], false), elems[0], 0, isInMiscFile, boldClassId, decodeURIComponent);
  }

  /** A heading whose text is plain becomes a category with that header. */
  lemma PlainHeading(name: string, text: string, decodeURIComponent: UriDecoder)
    requires forall i :: 0 <= i < |text| ==> text[i] !in "<>&\"[" && text[i] != RightQuote
    ensures HeaderText(Node(name, [], [Text(text)]), decodeURIComponent) == text
  {
    var h := Node(name, [], [Text(text)]);
    EscapeForHTMLWithoutMarkup(text, false);
    assert [Text(text)][1..] == [];
    assert InnerOf([Text(text)]) == ChildHTML(Text(text)) + InnerOf([]);
    assert InnerHTML(h) == EscapeForHTML(text, false);
    StripHTMLOfEscapedText(text, decodeURIComponent);
    var r := FormatAndTrim(text, false);
    assert forall i :: 0 <= i < |r| ==> r[i] == text[i];
  }

  /** The tag names `h1` and `ul` read upper-cased, as `tagName` gives them. */
  lemma HeadingAndListTagNames()
    ensures ToUpper("h1") == "H1" && ToUpper("ul") == "UL"
  {
    var h := ToUpper("h1");
    var u := ToUpper("ul");
    assert h[0] == 'H' && h[1] == '1';
    assert u[0] == 'U' && u[1] == 'L';
  }

  /** The walk of one heading. */
  lemma WalkOfHeading(h: Node, isInMiscFile: bool, boldClassId: string, decodeURIComponent: UriDecoder)
    requires IsHeading(TagName(h))
    ensures Walk([h], 0, WalkState([], false), isInMiscFile, boldClassId, decodeURIComponent)
            == Success(WalkState([Category(HeaderText(h, decodeURIComponent), [])], false))
  {
    assert !Skipped(h, 0, isInMiscFile);
    var c := Category(HeaderText(h, decodeURIComponent), []);
    var none: seq<Category> := [];
    assert none + [c] == [c];
    var st := WalkState([c], false);
    assert Step(WalkState([], false), h, 0, isInMiscFile, boldClassId, decodeURIComponent) == Success(st);
    assert Walk([h], 1, st, isInMiscFile, boldClassId, decodeURIComponent) == Success(st);
  }

  /** A list of class `lst c9-1` has depth 1. */
  lemma SecondLevelListDepth()
    ensures GetDepth(Node("ul", [Attr("class", "lst c9-1")], [])) == Num(1)
  {
    var ul := Node("ul", [Attr("class", "lst c9-1")], []);
    HeadingAndListTagNames();
    assert NatToString(1) == "1";
    assert "lst c9-1" == "lst" + " " + ("c9" + "-" + NatToString(1)) + "";
    assert MapGet(ul.attributes, "class") == Some("lst c9-1");
    DepthFromClass(ul, "lst", "c9", 1, "");
  }

  /** A walk over two elements whose second step throws ends with that error. */
  lemma {:induction false} SecondStepThrows(a: Node, b: Node, st: WalkState, next: WalkState, err: Error,
                                            isInMiscFile: bool, boldClassId: string, decodeURIComponent: UriDecoder)
    requires Step(st, a, 0, isInMiscFile, boldClassId, decodeURIComponent) == Success(next)
    requires Step(next, b, 1, isInMiscFile, boldClassId, decodeURIComponent) == Failure(err)
    ensures Walk([a, b], 0, st, isInMiscFile, boldClassId, decodeURIComponent) == Failure(err)
  {
    assert [a, b][0] == a && [a, b][1] == b;
    assert Walk([a, b], 1, next, isInMiscFile, boldClassId, decodeURIComponent) == Failure(err);
  }

  /** A list of depth 1 throws when the only category has no ask yet. */
  lemma SecondLevelListNeedsAsk(c: Category, boldClassId: string, decodeURIComponent: UriDecoder)
    requires c.questions == []
    ensures Step(WalkState([c], false), Node("ul", [Attr("class", "lst c9-1")], []), 1, false, boldClassId, decodeURIComponent)
            == Failure(RangeError(NoQuestions))
  {
    HeadingAndListTagNames();
    SecondLevelListDepth();
    StepNoQuestions(WalkState([c], false), Node("ul", [Attr("class", "lst c9-1")], []), 1, false, boldClassId, decodeURIComponent);
  }

  /**
   * `<h1>Intro</h1><ul class="lst c9-1">`: the list has depth 1, and with
   * no ask yet in "Intro" the walk throws.
   */
  lemma NestedListBeforeAnyAsk(decodeURIComponent: UriDecoder, boldClassId: string)
    ensures var h := Node("h1", [], [Text("Intro")]);
            var ul := Node("ul", [Attr("class", "lst c9-1")], []);
            Extracted([h, ul], false, boldClassId, decodeURIComponent) == Failure(RangeError(NoQuestions))
  {
    var h := Node("h1", [], [Text("Intro")]);
    var ul := Node("ul", [Attr("class", "lst c9-1")], []);
    HeadingAndListTagNames();
    var c := Category(HeaderText(h, decodeURIComponent), []);
    WalkOfHeading(h, false, boldClassId, decodeURIComponent);
    assert Step(WalkState([], false), h, 0, false, boldClassId, decodeURIComponent) == Success(WalkState([c], false));
    SecondLevelListNeedsAsk(c, boldClassId, decodeURIComponent);
    SecondStepThrows(h, ul, WalkState([], false), WalkState([c], false), RangeError(NoQuestions), false, boldClassId, decodeURIComponent);
  }

  /** `<h1>Intro</h1>` alone: one category "Intro" without questions. */
  lemma HeadingOnly(decodeURIComponent: UriDecoder, boldClassId: string)
    ensures Extracted([Node("h1", [], [Text("Intro")])], false, boldClassId, decodeURIComponent)
            == Success([Category("Intro", [])])
  {
    var h := Node("h1", [], [Text("Intro")]);
    HeadingAndListTagNames();
    PlainHeading("h1", "Intro", decodeURIComponent);
    WalkOfHeading(h, false, boldClassId, decodeURIComponent);
  }
}
