/** `NutritionTool.analyze_nutrition_tool`: a clean-up loop that removes
    double spaces from the report text, whose result is then discarded in
    favour of a fixed placeholder answer. */
module NutritionTool {

  /** What the tool answers, whatever the report. */
  const Placeholder := "Nutrition analysis functionality to be implemented"

  /** A double space starts at `k`. */
  predicate DoubleSpaceAt(s: string, k: int) {
    0 <= k < |s| - 1 && s[k] == ' ' && s[k + 1] == ' '
  }

  /** No two consecutive spaces anywhere in `s`. */
  predicate NoDoubleSpace(s: string) {
    forall k :: 0 <= k < |s| ==> !DoubleSpaceAt(s, k)
  }

  /** `s` without its leading run of spaces. */
  function DropSpaces(s: string): (r: string)
    ensures |r| <= |s| && r == s[|s| - |r|..]
    ensures r == [] || r[0] != ' '
  {
    if s != [] && s[0] == ' ' then DropSpaces(s[1..]) else s
  }

  /** `s` with every maximal run of spaces replaced by a single space. */
  function CollapseRuns(s: string): (r: string)
    ensures |r| <= |s|
    ensures r == [] <==> s == []
    ensures r != [] ==> r[0] == s[0]
    decreases |s|
  {
    if s == [] then []
    else if s[0] != ' ' then [s[0]] + CollapseRuns(s[1..])
    else [' '] + CollapseRuns(DropSpaces(s))
  }

  /** The characters of `s` other than spaces, in order. */
  function NonSpaces(s: string): string {
    if s == [] then [] else (if s[0] == ' ' then [] else [s[0]]) + NonSpaces(s[1..])
  }

  /** The number of maximal runs of spaces in `s`, where `afterSpace` says
      whether `s` continues a run begun before it. */
  function RunsAfter(afterSpace: bool, s: string): nat
    decreases |s|
  {
    if s == [] then 0
    else (if s[0] == ' ' && !afterSpace then 1 else 0) + RunsAfter(s[0] == ' ', s[1..])
  }

  /** The number of maximal runs of spaces in `s`. */
  function SpaceRuns(s: string): nat {
    RunsAfter(false, s)
  }

  /** `a` is `b` with some characters deleted (a greedy, left-to-right match). */
  predicate IsSubsequence(a: string, b: string)
    decreases |b|
  {
    if a == [] then true
    else if b == [] then false
    else if a[0] == b[0] then IsSubsequence(a[1..], b[1..])
    else IsSubsequence(a, b[1..])
  }

  /** The loop of `analyze_nutrition_tool`. Python's `s[i:i+2]` is clipped
      at the end of the string, so a lone last character never compares
      equal to two spaces; here that is the `i + 2 <= |processed|` guard. */
  method CollapseDoubleSpaces(data: string) returns (processed: string)
    ensures processed == CollapseRuns(data)
    ensures NoDoubleSpace(processed)
  {
    processed := data;
    var i := 0;
    while i < |processed|
      invariant 0 <= i <= |processed|
      invariant CollapseRuns(data) == processed[..i] + CollapseRuns(processed[i..])
      invariant forall k :: 0 <= k < i ==> !DoubleSpaceAt(processed, k)
      decreases |processed| - i
    {
      if i + 2 <= |processed| && processed[i..i + 2] == "  " {
        DeleteStep(processed, i);
        processed := processed[..i] + processed[i + 1..];
      } else {
        AdvanceStep(processed, i);
        i := i + 1;
      }
    }
    assert processed[i..] == [];
  }

  /** Deleting the first of two spaces at `i` keeps the text before `i`,
      keeps that text free of double spaces, and does not change the
      collapse of the rest. */
  lemma DeleteStep(p: string, i: nat)
    requires i + 2 <= |p| && p[i..i + 2] == "  "
    requires forall k :: 0 <= k < i ==> !DoubleSpaceAt(p, k)
    ensures var q := p[..i] + p[i + 1..];
      && |q| == |p| - 1
      && q[..i] == p[..i]
      && CollapseRuns(q[i..]) == CollapseRuns(p[i..])
      && forall k :: 0 <= k < i ==> !DoubleSpaceAt(q, k)
  {
    assert p[i..i + 2][0] == p[i] && p[i..i + 2][1] == p[i + 1];
    var q := p[..i] + p[i + 1..];
    assert q[i..] == p[i + 1..] == p[i..][1..];
    SkipDoubledSpace(p[i..]);
    forall k | 0 <= k < i ensures !DoubleSpaceAt(q, k) {
      assert !DoubleSpaceAt(p, k);
      if k == i - 1 {
        assert q[k] == p[k] && q[k + 1] == p[k + 2];
      } else {
        assert q[k] == p[k] && q[k + 1] == p[k + 1];
      }
    }
  }

  /** Stepping past a position where no double space starts moves its
      character from the collapse of the rest into the kept prefix. */
  lemma AdvanceStep(p: string, i: nat)
    requires i < |p| && !(i + 2 <= |p| && p[i..i + 2] == "  ")
    ensures !DoubleSpaceAt(p, i)
    ensures p[..i] + CollapseRuns(p[i..]) == p[..i + 1] + CollapseRuns(p[i + 1..])
  {
    if i + 2 <= |p| {
      assert p[i..i + 2] == [p[i], p[i + 1]];
    }
    KeepFirst(p[i..]);
    assert p[i..][1..] == p[i + 1..];
    assert p[..i] + [p[i]] == p[..i + 1];
  }

  /** Of two leading spaces the first can go without changing the collapse. */
  lemma SkipDoubledSpace(t: string)
    requires |t| >= 2 && t[0] == ' ' && t[1] == ' '
    ensures CollapseRuns(t) == CollapseRuns(t[1..])
  {
    assert DropSpaces(t) == DropSpaces(t[1..]);
  }

  /** When no double space starts the string, its first character is kept. */
  lemma KeepFirst(t: string)
    requires t != [] && !DoubleSpaceAt(t, 0)
    ensures CollapseRuns(t) == [t[0]] + CollapseRuns(t[1..])
  {
    if t[0] == ' ' {
      assert DropSpaces(t) == DropSpaces(t[1..]) == t[1..];
    }
  }

  /** `analyze_nutrition_tool`: the double spaces are removed from the
      report, and then the fixed placeholder is returned. */
  method AnalyzeNutritionTool(bloodReportData: string) returns (analysis: string)
    ensures analysis == Placeholder
  {
    var processedData := CollapseDoubleSpaces(bloodReportData);
    analysis := Placeholder;
  }

  /** The collapse leaves no two consecutive spaces. */
  lemma {:induction false} CollapsedHasNoDoubleSpace(s: string)
    ensures NoDoubleSpace(CollapseRuns(s))
    decreases |s|
  {
    if s != [] {
      var rest := if s[0] != ' ' then s[1..] else DropSpaces(s);
      CollapsedHasNoDoubleSpace(rest);
      var r, tail := CollapseRuns(s), CollapseRuns(rest);
      assert r == [s[0]] + tail;
      forall k ensures !DoubleSpaceAt(r, k) {
        if 0 < k < |r| - 1 {
          assert !DoubleSpaceAt(tail, k - 1);
        }
      }
    }
  }

  /** A string is left unchanged by the collapse exactly when it has no
      double space. */
  lemma {:induction false} CollapseFixedPoint(s: string)
    ensures CollapseRuns(s) == s <==> NoDoubleSpace(s)
    decreases |s|
  {
    CollapsedHasNoDoubleSpace(s);
    if s != [] && NoDoubleSpace(s) {
      assert NoDoubleSpace(s[1..]) by {
        forall k ensures !DoubleSpaceAt(s[1..], k) {
          assert !DoubleSpaceAt(s, k + 1);
        }
      }
      CollapseFixedPoint(s[1..]);
      KeepFirst(s);
    }
  }

  /** Dropping a leading run of spaces keeps every other character, and what
      remains starts no run that is not already counted. */
  lemma {:induction false} DropSpacesKeeps(s: string)
    ensures NonSpaces(DropSpaces(s)) == NonSpaces(s)
    ensures RunsAfter(true, s) == RunsAfter(false, DropSpaces(s))
    decreases |s|
  {
    if s != [] && s[0] == ' ' {
      DropSpacesKeeps(s[1..]);
    }
  }

  /** The collapse keeps every character other than a space, in order. */
  lemma {:induction false} CollapseKeepsNonSpaces(s: string)
    ensures NonSpaces(CollapseRuns(s)) == NonSpaces(s)
    decreases |s|
  {
    if s != [] {
      var rest := if s[0] != ' ' then s[1..] else DropSpaces(s);
      CollapseKeepsNonSpaces(rest);
      var r := CollapseRuns(s);
      assert r[1..] == CollapseRuns(rest);
      if s[0] == ' ' {
        DropSpacesKeeps(s[1..]);
      }
    }
  }

  /** The collapse keeps one space for every run of spaces: it has as many
      runs as its input, and its length is the number of other characters
      plus the number of runs. */
  lemma {:induction false} CollapseKeepsOneSpacePerRun(s: string)
    ensures SpaceRuns(CollapseRuns(s)) == SpaceRuns(s)
    ensures |CollapseRuns(s)| == |NonSpaces(s)| + SpaceRuns(s)
    decreases |s|
  {
    if s != [] {
      var rest := if s[0] != ' ' then s[1..] else DropSpaces(s);
      CollapseKeepsOneSpacePerRun(rest);
      var r, tail := CollapseRuns(s), CollapseRuns(rest);
      assert r[1..] == tail;
      if s[0] == ' ' {
        DropSpacesKeeps(s[1..]);
        assert tail == [] || tail[0] != ' ';
        assert RunsAfter(true, tail) == RunsAfter(false, tail);
      }
    }
  }

  /** Dropping the first character of `a` keeps it a subsequence of `b`. */
  lemma {:induction false} SubsequenceDropFirst(a: string, b: string)
    requires a != [] && IsSubsequence(a, b)
    ensures IsSubsequence(a[1..], b)
    decreases |b|
  {
    if a[0] != b[0] {
      SubsequenceDropFirst(a, b[1..]);
    }
    // now a[1..] is a subsequence of b[1..]
    if a[1..] != [] && a[1] == b[0] {
      SubsequenceDropFirst(a[1..], b[1..]);
      assert a[1..][1..] == a[2..];
    }
  }

  /** A subsequence of a suffix of `b` is a subsequence of `b`. */
  lemma {:induction false} SubsequenceOfSuffix(a: string, b: string, k: nat)
    requires k <= |b| && IsSubsequence(a, b[k..])
    ensures IsSubsequence(a, b)
    decreases k
  {
    if k > 0 {
      assert b[k - 1..][1..] == b[k..];
      if a != [] && a[0] == b[k - 1] {
        SubsequenceDropFirst(a, b[k..]);
      }
      SubsequenceOfSuffix(a, b, k - 1);
    } else {
      assert b[0..] == b;
    }
  }

  /** The collapse only deletes characters: its result is a subsequence of
      its input, and with `CollapseKeepsNonSpaces` the deleted ones are all spaces. */
  lemma {:induction false} CollapseIsSubsequence(s: string)
    ensures IsSubsequence(CollapseRuns(s), s)
    decreases |s|
  {
    if s != [] {
      var r := CollapseRuns(s);
      if s[0] != ' ' {
        CollapseIsSubsequence(s[1..]);
        assert r[1..] == CollapseRuns(s[1..]);
      } else {
        var rest := DropSpaces(s);
        CollapseIsSubsequence(rest);
        assert r[1..] == CollapseRuns(rest);
        assert rest == s[1..][|s| - |rest| - 1..];
        SubsequenceOfSuffix(CollapseRuns(rest), s[1..], |s| - |rest| - 1);
      }
    }
  }
}
