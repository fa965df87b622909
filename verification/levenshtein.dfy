/** Edit distance between two tokens and the similarity score the fuzzy
    strategy derives from it. */
module Levenshtein {
  import opened Common

  function Min3(x: nat, y: nat, z: nat): nat
  {
    if x <= y && x <= z then x else if y <= z then y else z
  }

  function Cost(a: char, b: char): nat { if a == b then 0 else 1 }

  /** Classic edit distance: insertion, deletion and substitution each cost
      one.  Written over prefixes so that `Dist(a[..i], b[..j])` is exactly
      cell `[i][j]` of the dynamic-programming matrix. */
  function Dist(a: string, b: string): nat
    decreases |a| + |b|
  {
    if |a| == 0 then |b|
    else if |b| == 0 then |a|
    else
      Min3(
        Dist(a[..|a| - 1], b) + 1,
        Dist(a, b[..|b| - 1]) + 1,
        Dist(a[..|a| - 1], b[..|b| - 1]) + Cost(a[|a| - 1], b[|b| - 1]))
  }

  /** The distance to the empty string is the other string's length, and in
      general the distance lies between the length difference and the
      longer length. */
  lemma {:induction false} DistBounds(a: string, b: string)
    ensures Dist(a, "") == |a| && Dist("", b) == |b|
    ensures Dist(a, b) <= Max(|a|, |b|)
    ensures Dist(a, b) >= |a| - |b| && Dist(a, b) >= |b| - |a|
    decreases |a| + |b|
  {
    if |a| > 0 && |b| > 0 {
      var a', b' := a[..|a| - 1], b[..|b| - 1];
      DistBounds(a', b);
      DistBounds(a, b');
      DistBounds(a', b');
    }
  }

  lemma {:induction false} DistSelf(a: string)
    ensures Dist(a, a) == 0
  {
    if |a| > 0 {
      DistSelf(a[..|a| - 1]);
    }
  }

  /** Distance is symmetric: deleting from one side is inserting on the other. */
  lemma {:induction false} DistSymmetric(a: string, b: string)
    ensures Dist(a, b) == Dist(b, a)
    decreases |a| + |b|
  {
    if |a| > 0 && |b| > 0 {
      var a', b' := a[..|a| - 1], b[..|b| - 1];
      DistSymmetric(a', b);
      DistSymmetric(a, b');
      DistSymmetric(a', b');
    }
  }

  /** Distance zero means the strings are equal, and only then. */
  lemma {:induction false} DistZeroIff(a: string, b: string)
    ensures Dist(a, b) == 0 <==> a == b
    decreases |a| + |b|
  {
    if a == b {
      DistSelf(a);
    }
    if |a| > 0 && |b| > 0 && Dist(a, b) == 0 {
      var a', b' := a[..|a| - 1], b[..|b| - 1];
      assert Dist(a', b') + Cost(a[|a| - 1], b[|b| - 1]) == 0;
      DistZeroIff(a', b');
      assert a == a' + [a[|a| - 1]] && b == b' + [b[|b| - 1]];
    }
  }

  /** Number of characters of `b` that never occur in `a`. */
  function Missing(b: string, a: string): (n: nat)
    ensures n <= |b|
  {
    if |b| == 0 then 0
    else Missing(b[..|b| - 1], a) + (if b[|b| - 1] in a then 0 else 1)
  }

  lemma {:induction false} MissingMonotone(b: string, small: string, large: string)
    requires forall c :: c in small ==> c in large
    ensures Missing(b, small) >= Missing(b, large)
  {
    if |b| > 0 {
      MissingMonotone(b[..|b| - 1], small, large);
    }
  }

  /** Every character of `b` absent from `a` needs its own insertion or
      substitution, so it costs at least one edit. */
  lemma {:induction false} DistAtLeastMissing(a: string, b: string)
    ensures Dist(a, b) >= Missing(b, a)
    decreases |a| + |b|
  {
    if |a| > 0 && |b| > 0 {
      var a', b' := a[..|a| - 1], b[..|b| - 1];
      assert forall c :: c in a' ==> c in a;
      DistAtLeastMissing(a', b);
      MissingMonotone(b, a', a);
      DistAtLeastMissing(a, b');
      DistAtLeastMissing(a', b');
      MissingMonotone(b', a', a);
      if a[|a| - 1] == b[|b| - 1] {
        assert b[|b| - 1] in a;
      }
    }
  }

  lemma RatioBounds(d: real, m: real)
    requires 0.0 <= d <= m && m > 0.0
    ensures 0.0 <= d / m <= 1.0
    ensures d / m == 0.0 <==> d == 0.0
  {
    assert d / m * m == d;
  }

  /** `calculateSimilarity`: one minus the distance over the longer length,
      and 1 for two empty strings. */
  function Similarity(a: string, b: string): (r: real)
    ensures 0.0 <= r <= 1.0
    ensures |a| == 0 && |b| == 0 ==> r == 1.0
    ensures r == 1.0 <==> a == b
  {
    var maxLen := Max(|a|, |b|);
    if maxLen == 0 then 1.0
    else
      DistBounds(a, b);
      DistZeroIff(a, b);
      RatioBounds(Dist(a, b) as real, maxLen as real);
      1.0 - Dist(a, b) as real / maxLen as real
  }

  /** Characters of one token that the other lacks cap their similarity:
      at most one minus their count over the longer length. */
  lemma SimilarityAtMost(a: string, b: string)
    requires Max(|a|, |b|) > 0
    ensures Similarity(a, b) <= 1.0 - Missing(b, a) as real / Max(|a|, |b|) as real
    ensures Similarity(a, b) <= 1.0 - Missing(a, b) as real / Max(|a|, |b|) as real
  {
    var m := Max(|a|, |b|) as real;
    DistAtLeastMissing(a, b);
    DistAtLeastMissing(b, a);
    DistSymmetric(a, b);
    DivideMonotone(Missing(b, a) as real, Dist(a, b) as real, m);
    DivideMonotone(Missing(a, b) as real, Dist(a, b) as real, m);
  }

  lemma DivideMonotone(x: real, y: real, m: real)
    requires x <= y && m > 0.0
    ensures x / m <= y / m
  {
    assert x / m * m == x && y / m * m == y;
  }

  // ---------------------------------------------------------------
  // The dynamic-programming implementation
  // ---------------------------------------------------------------

  /** One cell of the matrix from its three neighbours. */
  lemma DistStep(a: string, b: string, i: nat, j: nat)
    requires 1 <= i <= |a| && 1 <= j <= |b|
    ensures Dist(a[..i], b[..j]) == Min3(
      Dist(a[..i - 1], b[..j]) + 1,
      Dist(a[..i], b[..j - 1]) + 1,
      Dist(a[..i - 1], b[..j - 1]) + Cost(a[i - 1], b[j - 1]))
  {
    assert a[..i][..i - 1] == a[..i - 1];
    assert b[..j][..j - 1] == b[..j - 1];
  }

  /** Row 0 and column 0 of the matrix: distances to an empty prefix. */
  lemma BorderCells(a: string, b: string)
    ensures forall k :: 0 <= k <= |b| ==> Dist(a[..0], b[..k]) == k
    ensures forall k :: 0 <= k <= |a| ==> Dist(a[..k], b[..0]) == k
  {
  }

  /** Rows `0 .. rows-1` of the matrix hold the prefix distances. */
  ghost predicate RowsDone(matrix: array2<nat>, s1: string, s2: string, rows: nat)
    reads matrix
    requires matrix.Length0 == |s1| + 1 && matrix.Length1 == |s2| + 1
  {
    forall p, q :: 0 <= p < rows && p <= |s1| && 0 <= q <= |s2| ==>
      matrix[p, q] == Dist(s1[..p], s2[..q])
  }

  /** The inner loop of `levenshteinDistance`: fills row `i` left to right. */
  method FillRow(matrix: array2<nat>, s1: string, s2: string, i: nat)
    requires matrix.Length0 == |s1| + 1 && matrix.Length1 == |s2| + 1
    requires 1 <= i <= |s1|
    requires RowsDone(matrix, s1, s2, i)
    requires forall p :: i <= p <= |s1| ==> matrix[p, 0] == Dist(s1[..p], s2[..0])
    modifies matrix
    ensures RowsDone(matrix, s1, s2, i + 1)
    ensures forall p :: i < p <= |s1| ==> matrix[p, 0] == Dist(s1[..p], s2[..0])
  {
    var j := 1;
    while j <= |s2|
      invariant 1 <= j <= |s2| + 1
      invariant RowsDone(matrix, s1, s2, i)
      invariant forall p :: i < p <= |s1| ==> matrix[p, 0] == Dist(s1[..p], s2[..0])
      invariant forall q :: 0 <= q < j ==> matrix[i, q] == Dist(s1[..i], s2[..q])
    {
      var cost := if s1[i - 1] == s2[j - 1] then 0 else 1;
      DistStep(s1, s2, i, j);
      assert matrix[i - 1, j] == Dist(s1[..i - 1], s2[..j]);
      assert matrix[i - 1, j - 1] == Dist(s1[..i - 1], s2[..j - 1]);
      ghost var cell := Dist(s1[..i], s2[..j]);
      matrix[i, j] := Min3(
        matrix[i - 1, j] + 1,       // deletion
        matrix[i, j - 1] + 1,       // insertion
        matrix[i - 1, j - 1] + cost // substitution
      );
      assert matrix[i, j] == cell;
      j := j + 1;
    }
  }

  /** `levenshteinDistance`: fills the `(|s1|+1) x (|s2|+1)` matrix row by
      row, after the early returns for an empty side. */
  method LevenshteinDistance(s1: string, s2: string) returns (d: nat)
    ensures d == Dist(s1, s2)
  {
    var len1 := |s1|;
    var len2 := |s2|;
    if len1 == 0 { return len2; }
    if len2 == 0 { return len1; }

    var matrix := new nat[len1 + 1, len2 + 1];
    var i := 0;
    while i <= len1
      invariant 0 <= i <= len1 + 1
      invariant forall k :: 0 <= k < i ==> matrix[k, 0] == k
    {
      matrix[i, 0] := i;
      i := i + 1;
    }
    var j := 0;
    while j <= len2
      invariant 0 <= j <= len2 + 1
      invariant forall k :: 0 <= k <= len1 ==> matrix[k, 0] == k
      invariant forall k :: 0 <= k < j ==> matrix[0, k] == k
    {
      matrix[0, j] := j;
      j := j + 1;
    }

    BorderCells(s1, s2);
    i := 1;
    while i <= len1
      invariant 1 <= i <= len1 + 1
      invariant RowsDone(matrix, s1, s2, i)
      invariant forall p :: i <= p <= len1 ==> matrix[p, 0] == Dist(s1[..p], s2[..0])
    {
      FillRow(matrix, s1, s2, i);
      i := i + 1;
    }
    assert s1[..len1] == s1 && s2[..len2] == s2;
    return matrix[len1, len2];
  }
}
