/**
 * The question/answer tree of src/breakIntoCategories.js: `Question`,
 * `Ask`, `Reply` and `Category`, and the helpers that find where the walk
 * of the document adds to it (`getQuestionWithDepth`, `getLastCategory`,
 * `getLastAsk`).
 *
 * The source pushes into arrays reached through object references. Here the
 * tree is a value: the ask `getQuestionWithDepth` reaches is the one at the
 * end of a descent along last sub-asks, and writing back into it rebuilds
 * that path (`ReplaceAt`).
 */
module Structure {
  import opened Wrappers

  datatype Question = Question(asker: string, query: string, attachments: seq<string>, context: Option<string>)

  datatype Reply = Reply(index: int, content: string)

  datatype Ask = Ask(question: Question, answers: seq<string>, subAsks: seq<Ask>, selfReplies: seq<Reply>, index: int)

  datatype Category = Category(header: string, questions: seq<Ask>)

  /** A fresh ask: no answers, sub-asks or self-replies yet. */
  function NewAsk(q: Question, index: int): Ask {
    Ask(q, [], [], [], index)
  }

  /** `answers.length + selfReplies.length + subAsks.length`, the next index handed out. */
  function Total(a: Ask): nat {
    |a.answers| + |a.selfReplies| + |a.subAsks|
  }

  // -----------------------------------------------------------------------
  // getQuestionWithDepth
  // -----------------------------------------------------------------------

  function LastSubAsk(a: Ask): Ask
    requires |a.subAsks| > 0
  {
    a.subAsks[|a.subAsks| - 1]
  }

  /** The ask reached by stepping into the last sub-ask `k` times, stopping early at an ask without sub-asks. */
  function Descend(a: Ask, k: nat): Ask
    decreases k
  {
    if k == 0 || |a.subAsks| == 0 then a else Descend(LastSubAsk(a), k - 1)
  }

  /** The number of last-sub-ask steps available below `a`. */
  function SpineLength(a: Ask): nat
    decreases a
  {
    if |a.subAsks| == 0 then 0 else 1 + SpineLength(LastSubAsk(a))
  }

  /** `Math.floor(depth / 2) - 1` as a loop bound: NaN and non-positive bounds make no step. */
  function DescentSteps(depth: Number): nat {
    match depth
    case NaN => 0
    case Num(d) => if d / 2 - 1 > 0 then d / 2 - 1 else 0
  }

  /**
   * `getQuestionWithDepth(baseAsk, depth)`: steps into the last sub-ask
   * `floor(depth / 2) - 1` times, staying put once there is none.
   */
  method GetQuestionWithDepth(baseAsk: Ask, depth: Number) returns (r: Ask)
    ensures r == Descend(baseAsk, DescentSteps(depth))
    ensures depth.NaN? || depth.n < 4 ==> r == baseAsk
  {
    r := baseAsk;
    var n := 0;
    while depth.Num? && n < depth.n / 2 - 1
      invariant 0 <= n <= DescentSteps(depth)
      invariant Descend(r, DescentSteps(depth) - n) == Descend(baseAsk, DescentSteps(depth))
      decreases DescentSteps(depth) - n
    {
      DescendFromNext(r, DescentSteps(depth) - n - 1);
      r := if |r.subAsks| > 0 then LastSubAsk(r) else r;
      n := n + 1;
    }
  }

  /** One step of the descent, then the rest. */
  lemma DescendFromNext(a: Ask, k: nat)
    ensures Descend(a, k + 1) == Descend(if |a.subAsks| > 0 then LastSubAsk(a) else a, k)
  {
    if |a.subAsks| == 0 {
      assert k == 0 || |a.subAsks| == 0;
    }
  }

  /**
   * The descent follows the last-sub-ask spine: it stops after `k` steps
   * while the spine is longer, and at the end of the spine otherwise.
   */
  lemma {:induction false} DescendAlongSpine(a: Ask, k: nat)
    ensures k < SpineLength(a) ==> |Descend(a, k).subAsks| > 0
    ensures k >= SpineLength(a) ==> Descend(a, k) == Descend(a, SpineLength(a)) && |Descend(a, k).subAsks| == 0
    ensures SpineLength(Descend(a, k)) == SpineLength(a) - Reach(a, k)
    decreases k
  {
    if k > 0 && |a.subAsks| > 0 {
      DescendAlongSpine(LastSubAsk(a), k - 1);
    }
  }

  /** How many steps the descent actually takes. */
  function Reach(a: Ask, k: nat): nat {
    if k < SpineLength(a) then k else SpineLength(a)
  }

  /** The tree drawn in the documentation of `getQuestionWithDepth`. */
  function DocTree(): Ask {
    var q := Question("", "", [], None);
    var ask_2_0 := NewAsk(q, 20);
    var ask_2_1 := NewAsk(q, 21);
    var ask_2_2 := NewAsk(q, 22);
    var ask_1_0 := Ask(q, [], [ask_2_0], [], 10);
    var ask_1_1 := Ask(q, [], [ask_2_1, ask_2_2], [], 11);
    Ask(q, [], [ask_1_0, ask_1_1], [], 0)
  }

  /** Depth 4 reaches ask_1_1, depth 6 reaches ask_2_2, and depth 8 stops at ask_2_2. */
  lemma DocumentedDescents()
    ensures Descend(DocTree(), DescentSteps(Num(4))).index == 11
    ensures Descend(DocTree(), DescentSteps(Num(6))).index == 22
    ensures Descend(DocTree(), DescentSteps(Num(8))).index == 22
    ensures Descend(DocTree(), DescentSteps(Num(3))).index == 0
  {
    var t := DocTree();
    var a11 := LastSubAsk(t);
    var a22 := LastSubAsk(a11);
    assert DescentSteps(Num(8)) == 3;
    assert Descend(t, 1) == a11;
    assert Descend(t, 2) == Descend(a11, 1) == a22;
    assert Descend(a22, 1) == a22;
    assert Descend(t, 3) == Descend(a22, 1);
  }

  // -----------------------------------------------------------------------
  // Writing back into the ask that was reached
  // -----------------------------------------------------------------------

  /** `a` with the ask `Descend(a, k)` replaced by `n`, every other part kept. */
  function ReplaceAt(a: Ask, k: nat, n: Ask): (r: Ask)
    ensures r.index == (if k == 0 || |a.subAsks| == 0 then n.index else a.index)
    decreases k
  {
    if k == 0 || |a.subAsks| == 0 then n
    else
      var last := |a.subAsks| - 1;
      a.(subAsks := a.subAsks[..last] + [ReplaceAt(a.subAsks[last], k - 1, n)])
  }

  /**
   * After the write-back, the descent finds the new ask after `Reach(a, k)`
   * steps. The same `k` steps find it when the spine is long enough; past
   * the end of the spine they go on into the new ask's own sub-asks.
   */
  lemma {:induction false} ReplaceAtIsFound(a: Ask, k: nat, n: Ask)
    ensures Descend(ReplaceAt(a, k, n), Reach(a, k)) == n
    ensures Descend(ReplaceAt(a, k, n), k) == Descend(n, k - Reach(a, k))
    ensures k <= SpineLength(a) ==> Descend(ReplaceAt(a, k, n), k) == n
    decreases k
  {
    if k > 0 && |a.subAsks| > 0 {
      var r := ReplaceAt(a, k, n);
      assert LastSubAsk(r) == ReplaceAt(LastSubAsk(a), k - 1, n);
      assert Reach(a, k) == 1 + Reach(LastSubAsk(a), k - 1);
      ReplaceAtIsFound(LastSubAsk(a), k - 1, n);
    }
  }

  /**
   * Every ask on the path above the replaced one keeps its question, its
   * answers, its self-replies, its index and its earlier sub-asks; only its
   * last sub-ask changes.
   */
  lemma {:induction false} ReplaceAtKeepsPath(a: Ask, k: nat, n: Ask, j: nat)
    requires j < Reach(a, k)
    ensures var r := Descend(ReplaceAt(a, k, n), j);
            var o := Descend(a, j);
            r.question == o.question && r.answers == o.answers && r.selfReplies == o.selfReplies
            && r.index == o.index && |r.subAsks| == |o.subAsks| > 0
            && r.subAsks[..|o.subAsks| - 1] == o.subAsks[..|o.subAsks| - 1]
    decreases j
  {
    assert k > 0 && |a.subAsks| > 0;
    if j > 0 {
      var r := ReplaceAt(a, k, n);
      assert LastSubAsk(r) == ReplaceAt(LastSubAsk(a), k - 1, n);
      ReplaceAtKeepsPath(LastSubAsk(a), k - 1, n, j - 1);
    }
  }

  /** Writing back the ask that the descent reached changes nothing. */
  lemma {:induction false} ReplaceAtOwnAsk(a: Ask, k: nat)
    ensures ReplaceAt(a, k, Descend(a, k)) == a
    decreases k
  {
    if k > 0 && |a.subAsks| > 0 {
      var last := |a.subAsks| - 1;
      ReplaceAtOwnAsk(a.subAsks[last], k - 1);
      assert a.subAsks[..last] + [a.subAsks[last]] == a.subAsks;
    }
  }

  /** The pushes `extractData` makes into the ask it reached. */
  datatype Edit =
    | AddSubAsk(q: Question)
    | AddAnswers(replies: seq<string>)
    | AddSelfReplies(replies: seq<string>)

  /** Replies numbered consecutively from `start`, as `replies.map(v => ({content: v, index: ind++}))` numbers them. */
  function Numbered(replies: seq<string>, start: int): (r: seq<Reply>)
    ensures |r| == |replies|
    ensures forall k :: 0 <= k < |r| ==> r[k] == Reply(start + k, replies[k])
  {
    seq(|replies|, k requires 0 <= k < |replies| => Reply(start + k, replies[k]))
  }

  /** The reply numbering loop of `extractData`. */
  method NumberReplies(replies: seq<string>, start: int) returns (withIndexes: seq<Reply>)
    ensures withIndexes == Numbered(replies, start)
  {
    var ind := start;
    withIndexes := [];
    var k := 0;
    while k < |replies|
      invariant 0 <= k <= |replies| && ind == start + k
      invariant withIndexes == Numbered(replies[..k], start)
    {
      withIndexes := withIndexes + [Reply(ind, replies[k])];
      ind := ind + 1;
      k := k + 1;
    }
    assert replies[..k] == replies;
  }

  /** One push into the ask that was reached. */
  function Apply(e: Edit, a: Ask): (r: Ask)
    ensures r.index == a.index && r.question == a.question
  {
    match e
    case AddSubAsk(q) => a.(subAsks := a.subAsks + [NewAsk(q, Total(a))])
    case AddAnswers(replies) => a.(answers := a.answers + replies)
    case AddSelfReplies(replies) => a.(selfReplies := a.selfReplies + Numbered(replies, Total(a)))
  }

  /**
   * Each push keeps what was there and numbers what it adds from the ask's
   * total so far: a new sub-ask gets that total, and self-replies get it and
   * the indices after it.
   */
  lemma ApplyNumbersFromTotal(e: Edit, a: Ask)
    ensures var r := Apply(e, a);
            Total(r) == Total(a) + (if e.AddSubAsk? then 1 else |e.replies|)
    ensures var r := Apply(e, a);
            e.AddSubAsk? ==>
              |r.subAsks| == |a.subAsks| + 1 && r.subAsks[..|a.subAsks|] == a.subAsks
              && r.subAsks[|a.subAsks|] == NewAsk(e.q, Total(a))
    ensures var r := Apply(e, a);
            e.AddSelfReplies? ==>
              |r.selfReplies| == |a.selfReplies| + |e.replies| && r.selfReplies[..|a.selfReplies|] == a.selfReplies
              && forall k :: 0 <= k < |e.replies| ==> r.selfReplies[|a.selfReplies| + k] == Reply(Total(a) + k, e.replies[k])
    ensures var r := Apply(e, a);
            e.AddAnswers? ==> r.answers == a.answers + e.replies
    ensures var r := Apply(e, a);
            (!e.AddSubAsk? ==> r.subAsks == a.subAsks)
            && (!e.AddAnswers? ==> r.answers == a.answers)
            && (!e.AddSelfReplies? ==> r.selfReplies == a.selfReplies)
  {
    var r := Apply(e, a);
    if e.AddSubAsk? {
      assert r.subAsks[..|a.subAsks|] == a.subAsks;
    } else if e.AddSelfReplies? {
      assert r.selfReplies[..|a.selfReplies|] == a.selfReplies;
    }
  }

  // -----------------------------------------------------------------------
  // The index invariant
  // -----------------------------------------------------------------------

  /** The indices of the sub-asks, in order. */
  function SubIndices(a: Ask): (r: seq<int>)
    ensures |r| == |a.subAsks| && forall i :: 0 <= i < |r| ==> r[i] == a.subAsks[i].index
  {
    seq(|a.subAsks|, i requires 0 <= i < |a.subAsks| => a.subAsks[i].index)
  }

  /** The indices of the self-replies, in order. */
  function ReplyIndices(a: Ask): (r: seq<int>)
    ensures |r| == |a.selfReplies| && forall i :: 0 <= i < |r| ==> r[i] == a.selfReplies[i].index
  {
    seq(|a.selfReplies|, i requires 0 <= i < |a.selfReplies| => a.selfReplies[i].index)
  }

  /** `n` consecutive indices from `x`. */
  function Block(x: int, n: nat): (r: seq<int>)
    ensures |r| == n && forall i :: 0 <= i < n ==> r[i] == x + i
  {
    seq(n, i requires 0 <= i < n => x + i)
  }

  predicate Increasing(s: seq<int>) {
    forall i, j :: 0 <= i < j < |s| ==> s[i] < s[j]
  }

  predicate Below(s: seq<int>, bound: int) {
    forall i :: 0 <= i < |s| ==> 0 <= s[i] < bound
  }

  predicate Apart(s: seq<int>, t: seq<int>) {
    forall i, j :: 0 <= i < |s| && 0 <= j < |t| ==> s[i] != t[j]
  }

  /**
   * The indices handed out inside one ask: sub-asks and self-replies are
   * numbered in increasing order, below the ask's total, and no index is
   * used twice; and the same holds in every sub-ask.
   */
  predicate WellIndexed(a: Ask)
    decreases a
  {
    && Increasing(SubIndices(a)) && Increasing(ReplyIndices(a))
    && Below(SubIndices(a), Total(a)) && Below(ReplyIndices(a), Total(a))
    && Apart(SubIndices(a), ReplyIndices(a))
    && (forall i :: 0 <= i < |a.subAsks| ==> WellIndexed(a.subAsks[i]))
  }

  lemma NewAskIsWellIndexed(q: Question, index: int)
    ensures WellIndexed(NewAsk(q, index))
  {
    assert SubIndices(NewAsk(q, index)) == [] && ReplyIndices(NewAsk(q, index)) == [];
  }

  /** A bound that holds for a smaller limit holds for a larger one. */
  lemma BelowWidens(s: seq<int>, b: int, c: int)
    requires Below(s, b) && b <= c
    ensures Below(s, c)
  {
  }

  /** Appending the next free index `x` keeps a numbering increasing, bounded and apart from another. */
  lemma PushNext(s: seq<int>, t: seq<int>, x: int)
    requires Increasing(s) && Below(s, x) && Below(t, x) && Apart(s, t) && 0 <= x
    ensures Increasing(s + [x]) && Below(s + [x], x + 1) && Apart(s + [x], t)
  {
  }

  /** Appending the block of the next `n` free indices does the same. */
  lemma PushBlock(s: seq<int>, t: seq<int>, x: int, n: nat)
    requires Increasing(t) && Below(s, x) && Below(t, x) && Apart(s, t) && 0 <= x
    ensures Increasing(t + Block(x, n)) && Below(t + Block(x, n), x + n) && Apart(s, t + Block(x, n))
  {
    var u := t + Block(x, n);
    assert forall i :: |t| <= i < |u| ==> u[i] == x + i - |t|;
  }

  /** Every push hands out indices from the current total upwards, so the invariant is kept. */
  lemma ApplyKeepsIndexed(e: Edit, a: Ask)
    requires WellIndexed(a)
    ensures WellIndexed(Apply(e, a))
  {
    match e
    case AddSubAsk(q) => SubAskKeepsIndexed(a, q);
    case AddAnswers(replies) => AnswersKeepIndexed(a, replies);
    case AddSelfReplies(replies) => SelfRepliesKeepIndexed(a, replies);
  }

  lemma SubAskKeepsIndexed(a: Ask, q: Question)
    requires WellIndexed(a)
    ensures WellIndexed(Apply(AddSubAsk(q), a))
  {
    var r := Apply(AddSubAsk(q), a);
    var m := |a.subAsks|;
    assert SubIndices(r) == SubIndices(a) + [Total(a)];
    assert ReplyIndices(r) == ReplyIndices(a);
    PushNext(SubIndices(a), ReplyIndices(a), Total(a));
    BelowWidens(ReplyIndices(a), Total(a), Total(r));
    NewAskIsWellIndexed(q, Total(a));
    assert forall i :: 0 <= i < m ==> r.subAsks[i] == a.subAsks[i];
  }

  lemma AnswersKeepIndexed(a: Ask, replies: seq<string>)
    requires WellIndexed(a)
    ensures WellIndexed(Apply(AddAnswers(replies), a))
  {
    var r := Apply(AddAnswers(replies), a);
    assert SubIndices(r) == SubIndices(a) && ReplyIndices(r) == ReplyIndices(a);
    BelowWidens(SubIndices(a), Total(a), Total(r));
    BelowWidens(ReplyIndices(a), Total(a), Total(r));
  }

  lemma SelfRepliesKeepIndexed(a: Ask, replies: seq<string>)
    requires WellIndexed(a)
    ensures WellIndexed(Apply(AddSelfReplies(replies), a))
  {
    var r := Apply(AddSelfReplies(replies), a);
    var n := |replies|;
    assert SubIndices(r) == SubIndices(a);
    assert ReplyIndices(r) == ReplyIndices(a) + Block(Total(a), n);
    PushBlock(SubIndices(a), ReplyIndices(a), Total(a), n);
    BelowWidens(SubIndices(a), Total(a), Total(r));
  }

  /** Every ask on the descent of a well-indexed tree is well-indexed. */
  lemma {:induction false} DescendKeepsIndexed(a: Ask, k: nat)
    requires WellIndexed(a)
    ensures WellIndexed(Descend(a, k))
    decreases k
  {
    if k > 0 && |a.subAsks| > 0 {
      DescendKeepsIndexed(LastSubAsk(a), k - 1);
    }
  }

  /** Writing a well-indexed ask with the same index back into a well-indexed tree keeps it well-indexed. */
  lemma {:induction false} ReplaceKeepsIndexed(a: Ask, k: nat, n: Ask)
    requires WellIndexed(a) && WellIndexed(n)
    requires n.index == Descend(a, k).index
    ensures WellIndexed(ReplaceAt(a, k, n))
    decreases k
  {
    if k > 0 && |a.subAsks| > 0 {
      var last := |a.subAsks| - 1;
      var sub := ReplaceAt(a.subAsks[last], k - 1, n);
      ReplaceKeepsIndexed(a.subAsks[last], k - 1, n);
      var r := ReplaceAt(a, k, n);
      assert r.subAsks == a.subAsks[..last] + [sub];
      assert forall i :: 0 <= i < last ==> r.subAsks[i] == a.subAsks[i];
      assert r.subAsks[last] == sub && sub.index == a.subAsks[last].index;
      assert SubIndices(r) == SubIndices(a);
      assert ReplyIndices(r) == ReplyIndices(a) && Total(r) == Total(a);
    }
  }

  // -----------------------------------------------------------------------
  // getLastCategory and getLastAsk
  // -----------------------------------------------------------------------

  const NoCategories := "No categories present."
  const NoQuestions := "No questions found in the given category."

  const UnknownCategory := Category("(unknown category)", [])
  const UnknownQuestion := Question("(unknown asker)", "(unknown query)", [], None)

  /**
   * `getLastCategory(categoryArr, throwOnNoCategories)`: the last category;
   * on an empty list either a RangeError or a placeholder category that is
   * appended to the list.
   */
  method GetLastCategory(categoryArr: seq<Category>, throwOnNoCategories: bool)
    returns (r: Result<Category>, arr: seq<Category>)
    ensures r.Success? ==> |arr| > 0 && r.value == arr[|arr| - 1]
    ensures r.Failure? <==> |categoryArr| == 0 && throwOnNoCategories
    ensures r.Failure? ==> r.error == RangeError(NoCategories) && arr == categoryArr
    ensures |categoryArr| > 0 ==> arr == categoryArr
    ensures |categoryArr| == 0 && !throwOnNoCategories ==> arr == [UnknownCategory]
  {
    arr := categoryArr;
    if |arr| == 0 {
      if throwOnNoCategories {
        return Failure(RangeError(NoCategories)), arr;
      }
      arr := arr + [UnknownCategory];
    }
    r := Success(arr[|arr| - 1]);
  }

  /**
   * `getLastAsk(category, throwOnNoQuestions)`: the last ask of the
   * category; with no questions either a RangeError or a placeholder ask,
   * numbered as the category's first, that is appended to it.
   */
  method GetLastAsk(category: Category, throwOnNoQuestions: bool) returns (r: Result<Ask>, updated: Category)
    ensures updated.header == category.header
    ensures r.Success? ==> |updated.questions| > 0 && r.value == updated.questions[|updated.questions| - 1]
    ensures r.Failure? <==> |category.questions| == 0 && throwOnNoQuestions
    ensures r.Failure? ==> r.error == RangeError(NoQuestions) && updated == category
    ensures |category.questions| > 0 ==> updated == category
    ensures |category.questions| == 0 && !throwOnNoQuestions ==>
              updated.questions == [NewAsk(UnknownQuestion, 0)]
  {
    updated := category;
    if |updated.questions| == 0 {
      if throwOnNoQuestions {
        return Failure(RangeError(NoQuestions)), updated;
      }
      updated := updated.(questions := updated.questions + [NewAsk(UnknownQuestion, |updated.questions|)]);
    }
    r := Success(updated.questions[|updated.questions| - 1]);
  }
}
