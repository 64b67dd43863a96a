/** The median split that drives the divide and conquer
    (src/proton/delaunay/delaunay.c:788-845): node references are swapped
    in place in an array until the first k of a range have keys no larger
    than those of the rest. The source compares the cutting coordinate
    `(*ref)[dim]`; here the comparison key is passed as a function, which
    the tree builder instantiates with `r => nodes[r][dim]` (Key). */
module DelaunayPartition {
  import opened Geometry

  /** The cutting coordinate of node r; 0 stands for references past the
      node array, which the triangulation never makes. */
  function Key(nodes: seq<Point>, r: nat, dim: nat): real
  {
    if r < |nodes| then Coord(nodes[r], dim) else 0.0
  }

  /** Every entry of the sequence references one of n nodes. */
  predicate RefsIn(a: seq<nat>, n: nat)
  {
    forall k | 0 <= k < |a| :: a[k] < n
  }

  /** No entry of a in [lo, m) has a larger key than an entry in [m, hi). */
  predicate Split(key: nat -> real, a: seq<nat>, lo: nat, m: nat, hi: nat)
  {
    forall i, j | lo <= i < m <= j < hi && j < |a| :: key(a[i]) <= key(a[j])
  }

  /** `a` is `b` with the entries of [lo, hi) permuted: the same multiset,
      and every entry outside the range in place. */
  predicate PermutedWithin(a: seq<nat>, b: seq<nat>, lo: nat, hi: nat)
  {
    |a| == |b| && lo <= hi <= |a| && multiset(a) == multiset(b) &&
    forall k | 0 <= k < |a| && !(lo <= k < hi) :: a[k] == b[k]
  }

  lemma SwapPermutes(a: seq<nat>, i: nat, j: nat, lo: nat, hi: nat)
    requires lo <= i < hi && lo <= j < hi && hi <= |a|
    ensures PermutedWithin(a[i := a[j]][j := a[i]], a, lo, hi)
  {
  }

  lemma PermutedTrans(a: seq<nat>, b: seq<nat>, c: seq<nat>, lo: nat, hi: nat)
    requires PermutedWithin(a, b, lo, hi) && PermutedWithin(b, c, lo, hi)
    ensures PermutedWithin(a, c, lo, hi)
  {
  }

  /** The multiset of a sequence is that of its three pieces cut at lo and hi. */
  lemma ThreePieces(s: seq<nat>, lo: nat, hi: nat)
    requires lo <= hi <= |s|
    ensures multiset(s) == multiset(s[..lo]) + multiset(s[lo..hi]) + multiset(s[hi..])
  {
    assert s == s[..lo] + s[lo..hi] + s[hi..];
  }

  /** A permutation within a sub-range is a permutation within any range
      around it. */
  lemma PermutedWiden(a: seq<nat>, b: seq<nat>, lo: nat, hi: nat, lo2: nat, hi2: nat)
    requires PermutedWithin(a, b, lo, hi) && lo2 <= lo && hi <= hi2 <= |a|
    ensures PermutedWithin(a, b, lo2, hi2)
  {
  }

  /** A permutation of [lo, hi) followed by permutations of [lo, m) and
      of [m, hi) is a permutation of [lo, hi). */
  lemma PermutedHalves(a0: seq<nat>, a1: seq<nat>, a2: seq<nat>, a3: seq<nat>, lo: nat, m: nat, hi: nat)
    requires lo <= m <= hi
    requires PermutedWithin(a1, a0, lo, hi) && PermutedWithin(a2, a1, lo, m) && PermutedWithin(a3, a2, m, hi)
    ensures PermutedWithin(a3, a0, lo, hi)
  {
    PermutedWiden(a2, a1, lo, m, lo, hi);
    PermutedWiden(a3, a2, m, hi, lo, hi);
  }

  /** A permutation within [lo, hi) permutes the entries of [lo, hi) among
      themselves. */
  lemma {:induction false} PermutedRange(a: seq<nat>, b: seq<nat>, lo: nat, hi: nat)
    requires PermutedWithin(a, b, lo, hi)
    ensures multiset(a[lo..hi]) == multiset(b[lo..hi])
  {
    assert a[..lo] == b[..lo];
    assert a[hi..] == b[hi..];
    ThreePieces(a, lo, hi);
    ThreePieces(b, lo, hi);
    var x, y := multiset(a[..lo]), multiset(a[hi..]);
    var p, q := multiset(a[lo..hi]), multiset(b[lo..hi]);
    assert x + p + y == x + q + y;
    forall e
      ensures p[e] == q[e]
    {
      assert (x + p + y)[e] == (x + q + y)[e];
    }
  }

  /** Permuting entries keeps every reference naming a node. */
  lemma {:induction false} PermutedRefs(a: seq<nat>, b: seq<nat>, lo: nat, hi: nat, n: nat)
    requires PermutedWithin(a, b, lo, hi) && RefsIn(b, n)
    ensures RefsIn(a, n)
  {
    forall k | 0 <= k < |a|
      ensures a[k] < n
    {
      assert a[k] in multiset(a);
      assert a[k] in multiset(b);
    }
  }

  /** `qswap(p1, p2)` (delaunay.c:788-794). */
  method QSwap(a: array<nat>, i: nat, j: nat)
    requires i < a.Length && j < a.Length
    modifies a
    ensures a[..] == old(a[..])[i := old(a[j])][j := old(a[i])]
  {
    a[i], a[j] := a[j], a[i];
  }

  /** A qswap of two entries of [lo, hi), as the permutation it is. */
  method Exchange(a: array<nat>, i: nat, j: nat, lo: nat, hi: nat)
    requires lo <= i < hi && lo <= j < hi && hi <= a.Length
    modifies a
    ensures PermutedWithin(a[..], old(a[..]), lo, hi)
    ensures a[i] == old(a[j]) && a[j] == old(a[i])
    ensures forall k | 0 <= k < a.Length && k != i && k != j :: a[k] == old(a[k])
  {
    SwapPermutes(a[..], i, j, lo, hi);
    QSwap(a, i, j);
  }

  /** One compare-and-swap of qpivot: afterwards a[i] has the smaller key. */
  method OrderPair(key: nat -> real, a: array<nat>, i: nat, j: nat, lo: nat, hi: nat)
    requires lo <= i < hi && lo <= j < hi && hi <= a.Length && i != j
    modifies a
    ensures PermutedWithin(a[..], old(a[..]), lo, hi)
    ensures key(a[i]) <= key(a[j])
    ensures (a[i] == old(a[i]) && a[j] == old(a[j])) || (a[i] == old(a[j]) && a[j] == old(a[i]))
    ensures forall k | 0 <= k < a.Length && k != i && k != j :: a[k] == old(a[k])
  {
    if key(a[j]) < key(a[i]) {
      Exchange(a, i, j, lo, hi);
    }
  }

  /** `qpivot(base, end, dim)` (delaunay.c:796-811): orders the first,
      middle and last entries of [lo, hi) and returns the middle key, which
      then lies between the first and the last. */
  method QPivot(key: nat -> real, a: array<nat>, lo: nat, hi: nat) returns (p: real)
    requires lo + 2 <= hi <= a.Length
    modifies a
    ensures PermutedWithin(a[..], old(a[..]), lo, hi)
    ensures key(a[lo]) <= p && key(a[lo + (hi - lo) / 2]) == p && p <= key(a[hi - 1])
  {
    var mid, last := lo + (hi - lo) / 2, hi - 1;
    ghost var a0 := a[..];
    OrderPair(key, a, lo, mid, lo, hi);
    if key(a[last]) < key(a[mid]) {
      ghost var a1 := a[..];
      Exchange(a, mid, last, lo, hi);
      PermutedTrans(a[..], a1, a0, lo, hi);
      ghost var a2 := a[..];
      OrderPair(key, a, lo, mid, lo, hi);
      PermutedTrans(a[..], a2, a0, lo, hi);
    }
    p := key(a[mid]);
  }

  /** The first do-while of qpart: from i0 up to the first key not below
      p, which the entry at s guarantees. */
  method ScanUp(key: nat -> real, a: array<nat>, i0: nat, ghost s: nat, p: real) returns (i: nat)
    requires i0 <= s < a.Length && key(a[s]) >= p
    ensures i0 <= i <= s && key(a[i]) >= p
    ensures forall k | i0 <= k < i :: key(a[k]) < p
  {
    i := i0;
    while key(a[i]) < p
      invariant i0 <= i <= s
      invariant forall k | i0 <= k < i :: key(a[k]) < p
      decreases s - i
    {
      i := i + 1;
    }
  }

  /** The second do-while of qpart: from j0 down to the first key not
      above p, which the entry at s guarantees. */
  method ScanDown(key: nat -> real, a: array<nat>, j0: nat, ghost s: nat, p: real) returns (j: nat)
    requires s <= j0 < a.Length && key(a[s]) <= p
    ensures s <= j <= j0 && key(a[j]) <= p
    ensures forall k | j < k <= j0 :: key(a[k]) > p
  {
    j := j0;
    while key(a[j]) > p
      invariant s <= j <= j0
      invariant forall k | j < k <= j0 :: key(a[k]) > p
      decreases j - s
    {
      j := j - 1;
    }
  }

  /** The state qpart keeps between rounds: keys up to i are at most the
      pivot and keys from j on are at least the pivot. */
  predicate Parted(key: nat -> real, s: seq<nat>, lo: int, i: int, j: int, hi: int, p: real)
    requires 0 <= lo <= j && i < hi <= |s|
  {
    (forall k | lo <= k <= i :: key(s[k]) <= p) && (forall k | j <= k < hi :: key(s[k]) >= p)
  }

  /** Two one-sided bounds by the pivot give the pairwise split. */
  lemma PivotSplit(key: nat -> real, s: seq<nat>, lo: nat, m: nat, hi: nat, p: real)
    requires lo <= m <= hi <= |s|
    requires Parted(key, s, lo, m - 1, m, hi, p)
    ensures Split(key, s, lo, m, hi)
  {
  }

  /** When qpart's scans cross, the range splits where the upward scan
      stopped. */
  lemma Crossed(key: nat -> real, s: seq<nat>, lo: nat, i0: int, i: nat, j: nat, j0: int, hi: nat, p: real)
    requires lo <= j <= i < hi <= |s| && lo - 1 <= i0 < i && j < j0 <= hi
    requires Parted(key, s, lo, i0, j0, hi, p)
    requires forall k | i0 < k < i :: key(s[k]) < p
    requires forall k | j < k < j0 :: key(s[k]) > p
    requires key(s[i]) >= p
    ensures Split(key, s, lo, i, hi)
  {
    assert Parted(key, s, lo, i - 1, i, hi, p);
    PivotSplit(key, s, lo, i, hi, p);
  }

  /** The exchange inside qpart's loop: once both scans stopped at i < j,
      swapping the two entries extends both bounded stretches. */
  method SwapStopped(key: nat -> real, a: array<nat>, lo: nat, i0: int, i: nat, j: nat, j0: int, hi: nat, p: real)
    requires lo <= i < j < hi <= a.Length && lo - 1 <= i0 < i && j < j0 <= hi
    requires Parted(key, a[..], lo, i0, j0, hi, p)
    requires forall k | i0 < k < i :: key(a[k]) < p
    requires forall k | j < k < j0 :: key(a[k]) > p
    requires key(a[i]) >= p && key(a[j]) <= p
    modifies a
    ensures PermutedWithin(a[..], old(a[..]), lo, hi)
    ensures Parted(key, a[..], lo, i, j, hi, p)
    ensures key(a[i]) <= p && key(a[j]) >= p
  {
    Exchange(a, i, j, lo, hi);
  }

  /** `qpart(base, end, dim)` (delaunay.c:813-832): Hoare's partition
      around the median-of-three pivot. The entries the pivot step leaves
      at both ends stop both scans inside the range, and the size returned
      for the lower part is never 0 nor the whole range, so `kpart` always
      recurses on a smaller range. */
  method QPart(key: nat -> real, a: array<nat>, lo: nat, hi: nat) returns (part: nat)
    requires lo + 2 <= hi <= a.Length
    modifies a
    ensures 1 <= part < hi - lo
    ensures PermutedWithin(a[..], old(a[..]), lo, hi)
    ensures Split(key, a[..], lo, lo + part, hi)
  {
    var p := QPivot(key, a, lo, hi);
    ghost var mid := lo + (hi - lo) / 2;
    var i: int, j: int := lo - 1, hi;
    ghost var si: int, sj: int := hi - 1, lo;
    ghost var first := true;
    while true
      invariant lo - 1 <= i < j <= hi && i < si < hi && lo <= sj < j
      invariant key(a[si]) >= p && key(a[sj]) <= p
      invariant Parted(key, a[..], lo, i, j, hi, p)
      invariant first ==> i == lo - 1 && j == hi && key(a[mid]) == p
      invariant !first ==> lo <= i
      invariant PermutedWithin(a[..], old(a[..]), lo, hi)
      decreases j - i
    {
      var i1 := ScanUp(key, a, i + 1, si, p);
      var j1 := ScanDown(key, a, j - 1, sj, p);
      assert first ==> mid <= j1;
      if i1 >= j1 {
        part := i1 - lo;
        Crossed(key, a[..], lo, i, i1, j1, j, hi, p);
        return;
      }
      ghost var before := a[..];
      SwapStopped(key, a, lo, i, i1, j1, j, hi, p);
      PermutedTrans(a[..], before, old(a[..]), lo, hi);
      i, j := i1, j1;
      si, sj := j, i;
      first := false;
    }
  }

  /** `kpart(N, refs, k, dim)` (delaunay.c:834-845): quickselect on
      [lo, hi). Only swaps happen, so the range ends as a permutation of
      itself, and none of its first k entries has a larger key than any of
      the others. */
  method KPart(key: nat -> real, a: array<nat>, lo: nat, hi: nat, k: nat)
    requires lo < hi <= a.Length && k < hi - lo
    modifies a
    ensures PermutedWithin(a[..], old(a[..]), lo, hi)
    ensures Split(key, a[..], lo, lo + k, hi)
    decreases hi - lo
  {
    if hi - lo == 1 {
      return;
    }
    ghost var a0 := a[..];
    var part := QPart(key, a, lo, hi);
    ghost var a1 := a[..];
    if k < part {
      KPart(key, a, lo, lo + part, k);
      SplitLeft(key, a0, a1, a[..], lo, lo + k, lo + part, hi);
    } else {
      KPart(key, a, lo + part, hi, k - part);
      SplitRight(key, a0, a1, a[..], lo, lo + part, lo + k, hi);
    }
  }

  /** Splitting the lower part [lo, m) of a partition at k <= m, in place,
      splits the whole range at k. */
  lemma {:induction false} SplitLeft(key: nat -> real, a0: seq<nat>, a1: seq<nat>, a2: seq<nat>, lo: nat, k: nat, m: nat, hi: nat)
    requires lo <= k <= m <= hi <= |a1| && PermutedWithin(a1, a0, lo, hi) && PermutedWithin(a2, a1, lo, m)
    requires Split(key, a1, lo, m, hi) && Split(key, a2, lo, k, m)
    ensures PermutedWithin(a2, a0, lo, hi)
    ensures Split(key, a2, lo, k, hi)
  {
    PermutedRange(a2, a1, lo, m);
    forall i, j | lo <= i < k <= j < hi
      ensures key(a2[i]) <= key(a2[j])
    {
      if j >= m {
        assert a2[i] == a2[lo..m][i - lo];
        assert a2[i] in multiset(a1[lo..m]);
        var i1 :| 0 <= i1 < m - lo && a1[lo..m][i1] == a2[i];
        assert a1[lo + i1] == a2[i] && a2[j] == a1[j];
      }
    }
  }

  /** Splitting the upper part [m, hi) of a partition at k >= m, in place,
      splits the whole range at k. */
  lemma {:induction false} SplitRight(key: nat -> real, a0: seq<nat>, a1: seq<nat>, a2: seq<nat>, lo: nat, m: nat, k: nat, hi: nat)
    requires lo <= m <= k <= hi <= |a1| && PermutedWithin(a1, a0, lo, hi) && PermutedWithin(a2, a1, m, hi)
    requires Split(key, a1, lo, m, hi) && Split(key, a2, m, k, hi)
    ensures PermutedWithin(a2, a0, lo, hi)
    ensures Split(key, a2, lo, k, hi)
  {
    PermutedRange(a2, a1, m, hi);
    forall i, j | lo <= i < k <= j < hi
      ensures key(a2[i]) <= key(a2[j])
    {
      if i < m {
        assert a2[j] == a2[m..hi][j - m];
        assert a2[j] in multiset(a1[m..hi]);
        var j1 :| 0 <= j1 < hi - m && a1[m..hi][j1] == a2[j];
        assert a1[m + j1] == a2[j] && a2[i] == a1[i];
      }
    }
  }
}
