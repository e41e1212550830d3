/** The longest common subsequence behind ROUGE-L, of evaluation/metrics.py: the two-row table
    `_lcs_length`, and the score computed from it. */
module Metrics {
  import opened Ratios
  import opened Subsequences

  type Tokens = seq<string>

  function Max(x: nat, y: nat): nat {
    if x > y then x else y
  }

  /** The recurrence of the table, on the first `i` tokens of `a` and the first `j` of `b`. */
  function Cell(a: Tokens, b: Tokens, i: nat, j: nat): nat
    requires i <= |a| && j <= |b|
  {
    if i == 0 || j == 0 then 0
    else if a[i - 1] == b[j - 1] then Cell(a, b, i - 1, j - 1) + 1
    else Max(Cell(a, b, i - 1, j), Cell(a, b, i, j - 1))
  }

  ghost predicate IsCommon(c: Tokens, a: Tokens, b: Tokens) {
    IsSubseq(c, a) && IsSubseq(c, b)
  }

  /** The definition: the length of some common subsequence, and of none that is longer. */
  ghost predicate IsLongestCommon(n: nat, a: Tokens, b: Tokens) {
    && (exists c :: IsCommon(c, a, b) && |c| == n)
    && (forall c :: IsCommon(c, a, b) ==> |c| <= n)
  }

  lemma {:induction false} CellIsBound(a: Tokens, b: Tokens, i: nat, j: nat, c: Tokens)
    requires i <= |a| && j <= |b| && IsCommon(c, a[..i], b[..j])
    ensures |c| <= Cell(a, b, i, j)
    decreases i + j
  {
    if c != [] {
      var c' := c[..|c| - 1];
      assert a[..i][..i - 1] == a[..i - 1] && b[..j][..j - 1] == b[..j - 1];
      SubseqBySnoc(c, a[..i]);
      SubseqBySnoc(c, b[..j]);
      if IsSubseq(c, a[..i - 1]) {
        CellIsBound(a, b, i - 1, j, c);
        CellGrows(a, b, i - 1, j);
      } else if IsSubseq(c, b[..j - 1]) {
        CellIsBound(a, b, i, j - 1, c);
        CellGrows(a, b, i, j - 1);
      } else {
        CellIsBound(a, b, i - 1, j - 1, c');
      }
    }
  }

  /** A longer prefix has at least as long a common subsequence, and at most one more. */
  lemma {:induction false} CellGrows(a: Tokens, b: Tokens, i: nat, j: nat)
    requires i <= |a| && j <= |b|
    ensures i < |a| ==> Cell(a, b, i, j) <= Cell(a, b, i + 1, j) <= Cell(a, b, i, j) + 1
    ensures j < |b| ==> Cell(a, b, i, j) <= Cell(a, b, i, j + 1) <= Cell(a, b, i, j) + 1
    decreases i + j
  {
    if i > 0 { CellGrows(a, b, i - 1, j); }
    if j > 0 { CellGrows(a, b, i, j - 1); }
    if i > 0 && j > 0 { CellGrows(a, b, i - 1, j - 1); }
  }

  lemma {:induction false} CellIsReached(a: Tokens, b: Tokens, i: nat, j: nat) returns (c: Tokens)
    requires i <= |a| && j <= |b|
    ensures IsCommon(c, a[..i], b[..j]) && |c| == Cell(a, b, i, j)
    decreases i + j
  {
    if i == 0 || j == 0 {
      c := [];
    } else {
      assert a[..i] == a[..i - 1] + [a[i - 1]] && b[..j] == b[..j - 1] + [b[j - 1]];
      if a[i - 1] == b[j - 1] {
        var c' := CellIsReached(a, b, i - 1, j - 1);
        c := c' + [a[i - 1]];
        SubseqSnoc(c', a[..i - 1], a[i - 1]);
        SubseqSnoc(c', b[..j - 1], b[j - 1]);
      } else if Cell(a, b, i - 1, j) > Cell(a, b, i, j - 1) {
        c := CellIsReached(a, b, i - 1, j);
        SubseqSnoc(c, a[..i - 1], a[i - 1]);
      } else {
        c := CellIsReached(a, b, i, j - 1);
        SubseqSnoc(c, b[..j - 1], b[j - 1]);
      }
    }
  }

  lemma CellIsLongestCommon(a: Tokens, b: Tokens)
    ensures IsLongestCommon(Cell(a, b, |a|, |b|), a, b)
  {
    assert a[..|a|] == a && b[..|b|] == b;
    var c := CellIsReached(a, b, |a|, |b|);
    forall d | IsCommon(d, a, b) ensures |d| <= Cell(a, b, |a|, |b|) {
      CellIsBound(a, b, |a|, |b|, d);
    }
  }

  /** `row` holds the first `upto` cells of row `i` of the table. */
  ghost predicate IsRow(row: seq<nat>, a: Tokens, b: Tokens, i: nat, upto: nat) {
    i <= |a| && |row| == |b| + 1 && upto <= |row| && forall k :: 0 <= k < upto ==> row[k] == Cell(a, b, i, k)
  }

  lemma RowGrows(row: seq<nat>, prev: seq<nat>, a: Tokens, b: Tokens, i: nat, j: nat, x: nat)
    requires 0 < i <= |a| && 0 < j <= |b|
    requires IsRow(prev, a, b, i - 1, |b| + 1) && IsRow(row, a, b, i, j)
    requires x == if a[i - 1] == b[j - 1] then prev[j - 1] + 1 else Max(prev[j], row[j - 1])
    ensures IsRow(row[j := x], a, b, i, j + 1)
  {
  }

  /** `_lcs_length`: two rows of the table, the older one reused in turn. */
  method LcsLength(a: Tokens, b: Tokens) returns (length: nat)
    ensures IsLongestCommon(length, a, b)
  {
    var m, n := |a|, |b|;
    var prev := new nat[n + 1](_ => 0);
    var curr := new nat[n + 1](_ => 0);
    for i := 1 to m + 1
      invariant prev != curr && fresh(prev) && fresh(curr)
      invariant IsRow(prev[..], a, b, i - 1, n + 1)
      invariant curr.Length == n + 1 && curr[0] == 0
    {
      ghost var above := prev[..];
      for j := 1 to n + 1
        invariant prev[..] == above && IsRow(curr[..], a, b, i, j)
      {
        var x := if a[i - 1] == b[j - 1] then prev[j - 1] + 1 else Max(prev[j], curr[j - 1]);
        RowGrows(curr[..], above, a, b, i, j, x);
        curr[j] := x;
      }
      prev := curr;
      curr := new nat[n + 1](_ => 0);
    }
    CellIsLongestCommon(a, b);
    return prev[n];
  }

  // ---------------------------------------------------------------------
  // ROUGE-L
  // ---------------------------------------------------------------------

  datatype Score = Score(precision: real, recall: real, f1: real)

  function HarmonicMean(p: real, r: real): real {
    if p + r > 0.0 then 2.0 * p * r / (p + r) else 0.0
  }

  function Lcs(a: Tokens, b: Tokens): (n: nat)
    ensures IsLongestCommon(n, a, b)
  {
    CellIsLongestCommon(a, b);
    Cell(a, b, |a|, |b|)
  }

  /** `rouge_score` with variant `rouge_l`, on the token lists. */
  function RougeL(reference: Tokens, candidate: Tokens): Score {
    if reference == [] || candidate == [] then Score(0.0, 0.0, 0.0)
    else
      var lcs := Lcs(reference, candidate);
      var precision := lcs as real / |candidate| as real;
      var recall := lcs as real / |reference| as real;
      Score(precision, recall, HarmonicMean(precision, recall))
  }

  lemma LongestCommonUnique(m: nat, n: nat, a: Tokens, b: Tokens)
    requires IsLongestCommon(m, a, b) && IsLongestCommon(n, a, b)
    ensures m == n
  {
    var c :| IsCommon(c, a, b) && |c| == m;
    var d :| IsCommon(d, a, b) && |d| == n;
  }

  lemma LcsBounds(a: Tokens, b: Tokens)
    ensures Lcs(a, b) <= |a| && Lcs(a, b) <= |b|
    ensures Lcs(a, b) == Lcs(b, a)
    ensures Lcs(a, b) == |a| == |b| <==> a == b
  {
    var c :| IsCommon(c, a, b) && |c| == Lcs(a, b);
    assert IsCommon(c, a, b);
    SubseqElements(c, a);
    SubseqElements(c, b);
    forall d | IsCommon(d, b, a) ensures |d| <= Lcs(a, b) {
      assert IsCommon(d, a, b);
    }
    assert IsCommon(c, b, a);
    LongestCommonUnique(Lcs(a, b), Lcs(b, a), b, a);
    if Lcs(a, b) == |a| == |b| {
      FullSubseq(c, a);
      FullSubseq(c, b);
    }
    if a == b {
      SubseqOfSelf(a);
      assert IsCommon(a, a, b);
    }
  }

  /** The harmonic mean of L/m and L/n is 2L/(m+n). */
  lemma MeanOfRatios(l: real, m: real, n: real)
    requires 0.0 <= l && m > 0.0 && n > 0.0
    ensures HarmonicMean(l / n, l / m) == 2.0 * l / (m + n)
  {
    var p, r := l / n, l / m;
    assert p * n == l && r * m == l;
    if l == 0.0 {
      assert p == 0.0 && r == 0.0;
    } else {
      assert p > 0.0 && r > 0.0;
      assert (p * r) * (m + n) == p * (r * m) + r * (p * n);
      assert 2.0 * p * r * (m + n) == 2.0 * l * (p + r);
      var f := 2.0 * p * r / (p + r);
      assert f * (p + r) == 2.0 * p * r;
      assert f * (p + r) * (m + n) == 2.0 * l * (p + r);
      assert (f * (m + n) - 2.0 * l) * (p + r) == 0.0;
      assert f * (m + n) == 2.0 * l;
    }
  }

  lemma RougeLOfWords(reference: Tokens, candidate: Tokens)
    requires reference != [] && candidate != []
    ensures var s := RougeL(reference, candidate);
      && s.f1 == 2.0 * Lcs(reference, candidate) as real / (|reference| + |candidate|) as real
      && s.precision * |candidate| as real == s.recall * |reference| as real == Lcs(reference, candidate) as real
      && 0.0 <= s.precision <= 1.0 && 0.0 <= s.recall <= 1.0 && 0.0 <= s.f1 <= 1.0
      && RougeL(candidate, reference) == Score(s.recall, s.precision, s.f1)
      && (s.f1 == 1.0 <==> reference == candidate)
  {
    var l, m, n := Lcs(reference, candidate) as real, |reference| as real, |candidate| as real;
    LcsBounds(reference, candidate);
    MeanOfRatios(l, m, n);
    MeanOfRatios(l, n, m);
    RatioInUnit(l, m);
    RatioInUnit(l, n);
    RatioInUnit(2.0 * l, m + n);
  }

  /** ROUGE-L on any token lists: precision is the share of the candidate's tokens and recall that of
      the reference's tokens in a longest common subsequence; F1 is 2L/(m+n), or 0 when there is not
      a token in either; all scores lie in [0,1], swapping the lists swaps precision and recall and
      leaves F1 alone, and F1 is 1 exactly for equal lists that are not empty. */
  lemma RougeLIsAScore(reference: Tokens, candidate: Tokens)
    ensures var s := RougeL(reference, candidate);
      && s.f1 == (if reference == candidate == [] then 0.0
                  else 2.0 * Lcs(reference, candidate) as real / (|reference| + |candidate|) as real)
      && s.precision * |candidate| as real == s.recall * |reference| as real == Lcs(reference, candidate) as real
      && 0.0 <= s.precision <= 1.0 && 0.0 <= s.recall <= 1.0 && 0.0 <= s.f1 <= 1.0
      && RougeL(candidate, reference) == Score(s.recall, s.precision, s.f1)
      && (s.f1 == 1.0 <==> reference == candidate && reference != [])
  {
    if reference != [] && candidate != [] {
      RougeLOfWords(reference, candidate);
    } else {
      LcsBounds(reference, candidate);
    }
  }

  lemma RatioInUnit(x: real, y: real)
    requires 0.0 <= x <= y && y > 0.0
    ensures 0.0 <= x / y <= 1.0
    ensures x / y == 1.0 <==> x == y
  {
    RatioOrder(x, y, 0.0);
    RatioOrder(x, y, 1.0);
  }
}
