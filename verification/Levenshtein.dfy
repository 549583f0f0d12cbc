/** The table `levenshtein` fills in place, and the metric laws of what it returns. */
module Levenshtein {
  import opened Base
  import opened EditDistance

  /** What cell (i, j) has to hold: the distance between the first `i` bytes of `a` and the first `j` of `b`. */
  function PrefixDist(a: Bytes, b: Bytes, i: nat, j: nat): nat
    requires i <= |a| && j <= |b|
  {
    Dist(a[..i], b[..j])
  }

  /** Row `i` holds distances up to column `j`, exclusive. */
  ghost predicate RowFilled(d: array2<nat>, a: Bytes, b: Bytes, i: nat, j: nat)
    requires d.Length0 == |a| + 1 && d.Length1 == |b| + 1 && i <= |a| && j <= |b| + 1
    reads d
  {
    forall y: nat :: y < j ==> d[i, y] == PrefixDist(a, b, i, y)
  }

  method Levenshtein(a: Bytes, b: Bytes) returns (r: nat)
    ensures r == Dist(a, b)
    ensures IsEditDistance(a, b, r)
  {
    var la, lb := |a|, |b|;
    ghost var width := lb + 1;
    var d := new nat[la + 1, lb + 1]((_, _) => 0);
    for i := 0 to la + 1
      invariant forall k :: 0 <= k < i ==> d[k, 0] == k
    {
      d[i, 0] := i;
    }
    for j := 0 to lb + 1
      invariant forall k :: 0 <= k <= la ==> d[k, 0] == k
      invariant forall k :: 0 <= k < j ==> d[0, k] == k
    {
      d[0, j] := j;
    }
    BorderDist(a, b);
    hide PrefixDist, Dist, IsEditDistance;
    assert RowFilled(d, a, b, 0, width);
    for i := 1 to la + 1
      invariant forall x :: i <= x <= la ==> d[x, 0] == x
      invariant forall x: nat :: x < i ==> RowFilled(d, a, b, x, width)
    {
      for j := 1 to lb + 1
        invariant forall x :: i <= x <= la ==> d[x, 0] == x
        invariant forall x: nat :: x < i ==> RowFilled(d, a, b, x, width)
        invariant RowFilled(d, a, b, i, j)
      {
        assert RowFilled(d, a, b, i - 1, width);
        DistOfPrefixes(a, b, i, j);
        var cost := 1;
        if a[i - 1] == b[j - 1] {
          cost := 0;
        }
        var min := d[i - 1, j] + 1;
        if d[i, j - 1] + 1 < min {
          min := d[i, j - 1] + 1;
        }
        if d[i - 1, j - 1] + cost < min {
          min := d[i - 1, j - 1] + cost;
        }
        assert min == PrefixDist(a, b, i, j);
        label before:
        d[i, j] := min;
        forall x: nat | x < i
          ensures RowFilled(d, a, b, x, width)
        {
          assert old@before(RowFilled(d, a, b, x, width));
        }
      }
    }
    r := d[la, lb];
    assert RowFilled(d, a, b, la, width);
    WholeDist(a, b);
    DistIsEditDistance(a, b, r);
  }

  lemma BorderDist(a: Bytes, b: Bytes)
    ensures forall i: nat :: i <= |a| ==> PrefixDist(a, b, i, 0) == i
    ensures forall j: nat :: j <= |b| ==> PrefixDist(a, b, 0, j) == j
  {
  }

  lemma WholeDist(a: Bytes, b: Bytes)
    ensures PrefixDist(a, b, |a|, |b|) == Dist(a, b)
  {
    assert a[..|a|] == a && b[..|b|] == b;
  }

  lemma DistOfPrefixes(a: Bytes, b: Bytes, i: nat, j: nat)
    requires 1 <= i <= |a| && 1 <= j <= |b|
    ensures PrefixDist(a, b, i, j) ==
            Min3(PrefixDist(a, b, i - 1, j) + 1, PrefixDist(a, b, i, j - 1) + 1,
                 PrefixDist(a, b, i - 1, j - 1) + if a[i - 1] == b[j - 1] then 0 else 1)
  {
    assert DropLast(a[..i]) == a[..i - 1] && DropLast(b[..j]) == b[..j - 1];
  }
}
