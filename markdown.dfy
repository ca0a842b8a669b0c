/**
 * `formatForMarkdown` of src/breakIntoCategories.js: a left-to-right scan
 * that copies the text, counts the current run of backslashes and, at the
 * end of a run or before a character the caller wants escaped, writes extra
 * backslashes so that the text can sit inside a Markdown link (CommonMark's
 * backslash escapes, in link text and link destinations).
 *
 * `EscapedAfter` is the scan as a function of the text still to read and
 * the length of the run read so far; the scan's properties are proved about
 * it: it only inserts backslashes, it puts one backslash before each
 * avoided character of backslash-free text, and (with the corrected rule)
 * every avoided character ends up behind a run of odd length.
 */
module Markdown {
  import opened JsText

  function Backslashes(n: nat): (r: string)
    ensures |r| == n
    ensures forall i :: 0 <= i < n ==> r[i] == '\\'
  {
    seq(n, _ => '\\')
  }

  /**
   * How many backslashes are added after a run of `k` backslashes that ends
   * at a character, avoided or not. As written, an even count is bumped to
   * the next odd number and then written again; an odd count is written
   * again as it is. The corrected rule always writes one more than the run
   * before an avoided character.
   */
  function Added(k: nat, avoided: bool, corrected: bool): nat {
    if corrected && avoided then k + 1
    else if k == 0 && !avoided then 0
    else if k % 2 == 0 then k + 1
    else k
  }

  /**
   * The output for the rest `s` of the text when a run of `run` backslashes
   * has just been copied. Avoided characters are checked first, as in the
   * scan; a backslash is copied and lengthens the run; any other character
   * ends the run.
   */
  function EscapedAfter(s: string, run: nat, avoidedChars: string, corrected: bool): string
    decreases |s|
  {
    if |s| == 0 then ""
    else if s[0] in avoidedChars then
      Backslashes(Added(run, true, corrected)) + [s[0]] + EscapedAfter(s[1..], 0, avoidedChars, corrected)
    else if s[0] == '\\' then
      ['\\'] + EscapedAfter(s[1..], run + 1, avoidedChars, corrected)
    else
      Backslashes(Added(run, false, corrected)) + [s[0]] + EscapedAfter(s[1..], 0, avoidedChars, corrected)
  }

  /** The output of the scan over the whole text. */
  function Escaped(s: string, avoidedChars: string, corrected: bool): (r: string)
    ensures '\\' !in avoidedChars ==> InsertsOnlyBackslashes(s, r)
  {
    if '\\' in avoidedChars then EscapedAfter(s, 0, avoidedChars, corrected)
    else
      EscapedInsertsOnlyBackslashes(s, 0, avoidedChars, corrected);
      EscapedAfter(s, 0, avoidedChars, corrected)
  }

  /** `formatForMarkdown(str, avoidedChars)`, as the source writes it. */
  method FormatForMarkdown(str: string, avoidedChars: string) returns (buffer: string)
    ensures buffer == Escaped(str, avoidedChars, false)
  {
    buffer := "";
    var escCount: nat := 0;
    for i := 0 to |str|
      invariant buffer + EscapedAfter(str[i..], escCount, avoidedChars, false) == Escaped(str, avoidedChars, false)
    {
      var c := str[i];
      ghost var before, run := buffer, escCount;
      if c in avoidedChars {
        if escCount % 2 == 0 {
          escCount := escCount + 1;
        }
        buffer := buffer + Backslashes(escCount) + [c];
        escCount := 0;
        ScanStep(before, str, i, run, avoidedChars, buffer, escCount);
        continue;
      }
      if c == '\\' {
        escCount := escCount + 1;
      } else if escCount != 0 {
        if escCount % 2 == 0 {
          escCount := escCount + 1;
        }
        buffer := buffer + Backslashes(escCount);
        escCount := 0;
      }
      buffer := buffer + [c];
      ScanStep(before, str, i, run, avoidedChars, buffer, escCount);
    }
    assert str[|str|..] == [];
    assert buffer + [] == buffer;
  }

  /** One pass of the scan's loop: what it appends, and the run it carries on. */
  lemma ScanStep(before: string, str: string, i: nat, run: nat, avoidedChars: string, after: string, run': nat)
    requires i < |str|
    requires str[i] in avoidedChars ==> after == before + Backslashes(Added(run, true, false)) + [str[i]] && run' == 0
    requires str[i] !in avoidedChars && str[i] == '\\' ==> after == before + [str[i]] && run' == run + 1
    requires str[i] !in avoidedChars && str[i] != '\\' ==>
               after == before + Backslashes(Added(run, false, false)) + [str[i]] && run' == 0
    ensures before + EscapedAfter(str[i..], run, avoidedChars, false) == after + EscapedAfter(str[i + 1..], run', avoidedChars, false)
  {
    var s := str[i..];
    assert s[0] == str[i] && s[1..] == str[i + 1..];
    var rest := EscapedAfter(str[i + 1..], run', avoidedChars, false);
    if str[i] in avoidedChars {
      var b := Backslashes(Added(run, true, false));
      assert before + (b + [str[i]] + rest) == before + b + [str[i]] + rest;
    } else if str[i] == '\\' {
      assert before + (['\\'] + rest) == before + [str[i]] + rest;
    } else {
      var b := Backslashes(Added(run, false, false));
      assert before + (b + [str[i]] + rest) == before + b + [str[i]] + rest;
    }
  }

  // -----------------------------------------------------------------------
  // Only backslashes are inserted
  // -----------------------------------------------------------------------

  /**
   * `t` is `s` with backslashes inserted and nothing removed or reordered:
   * matching from the front, a character of `t` either matches the next
   * character of `s` or is an inserted backslash.
   */
  predicate InsertsOnlyBackslashes(s: string, t: string)
    decreases |t|
  {
    if |t| == 0 then |s| == 0
    else if |s| > 0 && s[0] == t[0] then InsertsOnlyBackslashes(s[1..], t[1..])
    else t[0] == '\\' && InsertsOnlyBackslashes(s, t[1..])
  }

  lemma {:induction false} InsertsBeforeChar(p: nat, c: char, x: string, y: string)
    requires c != '\\' && InsertsOnlyBackslashes(x, y)
    ensures InsertsOnlyBackslashes([c] + x, Backslashes(p) + [c] + y)
    decreases p
  {
    var t := Backslashes(p) + [c] + y;
    if p > 0 {
      assert t[1..] == Backslashes(p - 1) + [c] + y;
      InsertsBeforeChar(p - 1, c, x, y);
    } else {
      assert t == [c] + y;
      assert ([c] + x)[1..] == x;
    }
  }

  /** The scan never removes or reorders a character; it only inserts backslashes. */
  lemma {:induction false} EscapedInsertsOnlyBackslashes(s: string, run: nat, avoidedChars: string, corrected: bool)
    requires '\\' !in avoidedChars
    ensures InsertsOnlyBackslashes(s, EscapedAfter(s, run, avoidedChars, corrected))
    decreases |s|
  {
    if |s| > 0 {
      var c := s[0];
      assert s == [c] + s[1..];
      if c in avoidedChars || c != '\\' {
        EscapedInsertsOnlyBackslashes(s[1..], 0, avoidedChars, corrected);
        InsertsBeforeChar(Added(run, c in avoidedChars, corrected), c, s[1..],
                          EscapedAfter(s[1..], 0, avoidedChars, corrected));
      } else {
        EscapedInsertsOnlyBackslashes(s[1..], run + 1, avoidedChars, corrected);
      }
    }
  }

  // -----------------------------------------------------------------------
  // Text without backslashes
  // -----------------------------------------------------------------------

  /** One backslash before every avoided character, nothing else changed. */
  function EscapeEachAvoided(s: string, avoidedChars: string): string
    decreases |s|
  {
    if |s| == 0 then ""
    else (if s[0] in avoidedChars then ['\\', s[0]] else [s[0]]) + EscapeEachAvoided(s[1..], avoidedChars)
  }

  /** For text without backslashes the scan puts exactly one backslash before each avoided character. */
  lemma {:induction false} EscapedWithoutBackslashes(s: string, avoidedChars: string, corrected: bool)
    requires '\\' !in s
    ensures Escaped(s, avoidedChars, corrected) == EscapeEachAvoided(s, avoidedChars)
    decreases |s|
  {
    if |s| > 0 {
      assert s[0] != '\\';
      assert Backslashes(1) == ['\\'];
      assert Backslashes(0) == [];
      EscapedWithoutBackslashes(s[1..], avoidedChars, corrected);
    }
  }

  /** Text with no backslash and no avoided character. */
  predicate PlainFor(s: string, avoidedChars: string) {
    forall i :: 0 <= i < |s| ==> s[i] != '\\' && s[i] !in avoidedChars
  }

  lemma {:induction false} EscapeEachAvoidedOfPlain(s: string, avoidedChars: string)
    requires PlainFor(s, avoidedChars)
    ensures EscapeEachAvoided(s, avoidedChars) == s
    decreases |s|
  {
    if |s| > 0 {
      assert PlainFor(s[1..], avoidedChars) by {
        forall i | 0 <= i < |s| - 1 ensures s[1..][i] != '\\' && s[1..][i] !in avoidedChars {
          assert s[1..][i] == s[i + 1];
        }
      }
      EscapeEachAvoidedOfPlain(s[1..], avoidedChars);
      assert [s[0]] + s[1..] == s;
    }
  }

  /** Text with nothing to escape comes out of the scan unchanged, under either rule. */
  lemma EscapedLeavesPlainText(s: string, avoidedChars: string, corrected: bool)
    ensures PlainFor(s, avoidedChars) ==> Escaped(s, avoidedChars, corrected) == s
  {
    if PlainFor(s, avoidedChars) {
      EscapedWithoutBackslashes(s, avoidedChars, corrected);
      EscapeEachAvoidedOfPlain(s, avoidedChars);
    }
  }

  // -----------------------------------------------------------------------
  // Escape parity
  // -----------------------------------------------------------------------

  /** The length of the run of backslashes that ends just before index `j`. */
  function RunBefore(t: string, j: nat): nat
    requires j <= |t|
    decreases j
  {
    if j == 0 || t[j - 1] != '\\' then 0 else 1 + RunBefore(t, j - 1)
  }

  lemma {:induction false} RunBeforeSamePrefix(a: string, b: string, j: nat)
    requires j <= |a| && j <= |b| && a[..j] == b[..j]
    ensures RunBefore(a, j) == RunBefore(b, j)
    decreases j
  {
    if j > 0 {
      assert a[j - 1] == a[..j][j - 1] && b[j - 1] == b[..j][j - 1];
      assert a[..j - 1] == a[..j][..j - 1];
      assert b[..j - 1] == b[..j][..j - 1];
      RunBeforeSamePrefix(a, b, j - 1);
    }
  }

  /** Backslashes written after `p` lengthen the run that `p` ends with. */
  lemma {:induction false} RunBeforeGrows(p: string, m: nat, x: string)
    ensures RunBefore(p + Backslashes(m) + x, |p| + m) == RunBefore(p, |p|) + m
    decreases m
  {
    var t := p + Backslashes(m) + x;
    if m > 0 {
      assert t[|p| + m - 1] == '\\';
      var u := p + Backslashes(m - 1) + x;
      assert t[..|p| + m - 1] == u[..|p| + m - 1];
      RunBeforeSamePrefix(t, u, |p| + m - 1);
      RunBeforeGrows(p, m - 1, x);
    } else {
      assert t[..|p|] == p[..|p|];
      RunBeforeSamePrefix(t, p, |p|);
    }
  }

  /** Every avoided character of `w` at or after `start` is preceded by an odd run of backslashes. */
  predicate OddRunsFrom(w: string, start: nat, avoidedChars: string) {
    forall i :: start <= i < |w| && w[i] in avoidedChars ==> RunBefore(w, i) % 2 == 1
  }

  /**
   * With the corrected rule, after any output `p` that ends with a run of
   * `run` backslashes, every avoided character the scan writes is preceded
   * by a run of odd length, so it is escaped.
   */
  lemma {:induction false} CorrectedRunsAreOdd(p: string, s: string, run: nat, avoidedChars: string)
    requires '\\' !in avoidedChars && RunBefore(p, |p|) == run
    ensures OddRunsFrom(p + EscapedAfter(s, run, avoidedChars, true), |p|, avoidedChars)
    decreases |s|
  {
    var w := p + EscapedAfter(s, run, avoidedChars, true);
    if |s| > 0 {
      var c := s[0];
      if c !in avoidedChars && c == '\\' {
        var p' := p + ['\\'];
        assert w == p' + EscapedAfter(s[1..], run + 1, avoidedChars, true);
        RunBeforeGrows(p, 1, "");
        assert p + Backslashes(1) + "" == p';
        CorrectedRunsAreOdd(p', s[1..], run + 1, avoidedChars);
        forall i | |p| <= i < |w| && w[i] in avoidedChars
          ensures RunBefore(w, i) % 2 == 1
        {
          assert i != |p| by { assert w[|p|] == '\\'; }
        }
      } else {
        var m := Added(run, c in avoidedChars, true);
        var p' := p + Backslashes(m) + [c];
        var t' := EscapedAfter(s[1..], 0, avoidedChars, true);
        assert w == p' + t';
        assert RunBefore(p', |p'|) == 0;
        CorrectedRunsAreOdd(p', s[1..], 0, avoidedChars);
        forall i | |p| <= i < |w| && w[i] in avoidedChars
          ensures RunBefore(w, i) % 2 == 1
        {
          if i == |p| + m {
            assert w[i] == c && c in avoidedChars;
            assert w == p + Backslashes(m) + ([c] + t');
            RunBeforeGrows(p, m, [c] + t');
          }
        }
      }
    }
  }

  /** The corrected scan escapes every avoided character it writes. */
  lemma CorrectedEscapeOddRuns(s: string, avoidedChars: string)
    requires '\\' !in avoidedChars
    ensures OddRunsFrom(Escaped(s, avoidedChars, true), 0, avoidedChars)
  {
    CorrectedRunsAreOdd("", s, 0, avoidedChars);
    assert "" + Escaped(s, avoidedChars, true) == Escaped(s, avoidedChars, true);
  }

  /**
   * As written, one backslash before an avoided character gives a run of two
   * in the output: the backslash escapes the other backslash, not the
   * character, so `]` still closes the link text.
   */
  lemma AsWrittenOddRunBecomesEven()
    ensures Escaped("\\]", "]()", false) == "\\\\]"
    ensures RunBefore(Escaped("\\]", "]()", false), 2) == 2
    ensures Escaped("\\]", "]()", true) == "\\\\\\]"
  {
    var s := "\\]";
    assert s[1..] == "]";
    assert s[1..][1..] == "";
    assert Backslashes(1) == "\\";
    assert Backslashes(2) == "\\\\";
    var t := "\\\\]";
    assert RunBefore(t, 0) == 0;
  }
}
