/** The scans the single-pass MCC loader builds, and the queries over them,
    src/proton/mcc-data.c lines 469-531 and 586-681: the `qsort`
    comparators, the dose threshold and integral, the two binary searches and
    the point-dose interpolation. Doses and positions are `real`; `fma` is
    an exact multiply-add here. */
module MccDataScan {

  /** One sample of a scan: its position along the scan and its dose. */
  datatype Point = Point(x: real, dose: real)

  /** `struct mcc_scan`: the scan's ordinate, its `sz` samples, and the
      number of samples its allocation holds (`_cap`). */
  datatype Scan = Scan(y: real, data: seq<Point>, cap: nat)

  /** `INIT_SCANCAP` and `INIT_DATACAP`. */
  const InitScanCap: nat := 64
  const InitDataCap: nat := 128

  /** `(a > b) - (a < b)`, the sign both comparators return. */
  function Compare(a: real, b: real): (r: int)
    ensures r == -1 || r == 0 || r == 1
    ensures r < 0 <==> a < b
    ensures r > 0 <==> b < a
  {
    (if a > b then 1 else 0) - (if a < b then 1 else 0)
  }

  /** `mcc_data_scancmp`: scans ordered by ordinate. */
  function ScanCmp(s1: Scan, s2: Scan): int
  {
    Compare(s1.y, s2.y)
  }

  /** `mcc_data_datacmp`: samples ordered by position (the first member of
      a sample is its position). */
  function DataCmp(p1: Point, p2: Point): int
  {
    Compare(p1.x, p2.x)
  }

  /** The comparator is a total preorder, as `qsort` requires: swapping the
      arguments negates it, and "not after" is transitive. */
  lemma CompareIsOrder(a: real, b: real, c: real)
    ensures Compare(a, b) == -Compare(b, a)
    ensures Compare(a, b) <= 0 && Compare(b, c) <= 0 ==> Compare(a, c) <= 0
    ensures Compare(a, a) == 0
  {
  }

  function ScanY(s: Scan): real
  {
    s.y
  }

  function PointX(p: Point): real
  {
    p.x
  }

  /** No element comes after one with a larger key. */
  ghost predicate SortedBy<T>(s: seq<T>, key: T -> real)
  {
    forall i, j :: 0 <= i < j < |s| ==> key(s[i]) <= key(s[j])
  }

  /** `x` placed before the first element whose key is not smaller. */
  function Insert<T>(x: T, s: seq<T>, key: T -> real): (r: seq<T>)
    requires SortedBy(s, key)
    ensures SortedBy(r, key) && multiset(r) == multiset(s) + multiset{x}
  {
    if s == [] || key(x) <= key(s[0]) then
      [x] + s
    else
      var t := Insert(x, s[1..], key);
      assert s == [s[0]] + s[1..];
      LeastStaysFirst(x, s, t, key);
      [s[0]] + t
  }

  /** The head of a sorted list has a key no larger than any element of the
      rest with one larger element added. */
  lemma LeastStaysFirst<T>(x: T, s: seq<T>, t: seq<T>, key: T -> real)
    requires SortedBy(s, key) && |s| > 0 && key(s[0]) < key(x)
    requires multiset(t) == multiset(s[1..]) + multiset{x}
    requires SortedBy(t, key)
    ensures SortedBy([s[0]] + t, key)
  {
    forall k | 0 <= k < |t| ensures key(s[0]) <= key(t[k]) {
      assert t[k] in multiset(t);
      if t[k] != x {
        assert t[k] in multiset(s[1..]);
        var j :| 0 <= j < |s[1..]| && s[1..][j] == t[k];
        assert s[j + 1] == t[k];
      }
    }
    var u := [s[0]] + t;
    forall i, j | 0 <= i < j < |u| ensures key(u[i]) <= key(u[j]) {
      if i > 0 {
        assert u[i] == t[i - 1] && u[j] == t[j - 1];
      } else {
        assert u[j] == t[j - 1];
      }
    }
  }

  /** What `qsort` with a comparator on `key` leaves: the same elements,
      ordered by key. */
  function SortBy<T>(s: seq<T>, key: T -> real): (r: seq<T>)
    ensures SortedBy(r, key) && multiset(r) == multiset(s)
  {
    if s == [] then []
    else
      assert s == [s[0]] + s[1..];
      Insert(s[0], SortBy(s[1..], key), key)
  }

  /** A list ordered by a key is ordered by the comparator on that key. */
  lemma SortedScansCompare(ss: seq<Scan>)
    requires SortedBy(ss, ScanY)
    ensures forall i, j :: 0 <= i < j < |ss| ==> ScanCmp(ss[i], ss[j]) <= 0
  {
    forall i, j | 0 <= i < j < |ss| ensures ScanCmp(ss[i], ss[j]) <= 0 {
      assert ScanY(ss[i]) <= ScanY(ss[j]);
    }
  }

  /** Each scan with its samples ordered by position, the scans left in
      place: what the loop of `qsort` calls over the scans does. */
  function SortEach(ss: seq<Scan>): (r: seq<Scan>)
    ensures |r| == |ss|
    ensures forall k :: 0 <= k < |ss| ==> r[k].y == ss[k].y && r[k].cap == ss[k].cap
    ensures forall k :: 0 <= k < |ss| ==> multiset(r[k].data) == multiset(ss[k].data)
    ensures forall k :: 0 <= k < |ss| ==> SortedBy(r[k].data, PointX)
  {
    seq(|ss|, k requires 0 <= k < |ss| => ss[k].(data := SortBy(ss[k].data, PointX)))
  }

  /** The doses of a list of samples, in order. */
  function DosesOf(ps: seq<Point>): (ds: seq<real>)
    ensures |ds| == |ps| && forall k :: 0 <= k < |ps| ==> ds[k] == ps[k].dose
  {
    if ps == [] then [] else DosesOf(ps[..|ps| - 1]) + [ps[|ps| - 1].dose]
  }

  /** All doses, scan by scan, in the order the integration visits them. */
  function Doses(ss: seq<Scan>): seq<real>
  {
    if ss == [] then [] else Doses(ss[..|ss| - 1]) + DosesOf(ss[|ss| - 1].data)
  }

  /** The number of doses: the samples of all scans together. */
  lemma {:induction false} DosesLength(ss: seq<Scan>)
    ensures |Doses(ss)| == SampleCount(ss)
  {
    if ss != [] {
      DosesLength(ss[..|ss| - 1]);
    }
  }

  function SampleCount(ss: seq<Scan>): nat
  {
    if ss == [] then 0 else SampleCount(ss[..|ss| - 1]) + |ss[|ss| - 1].data|
  }

  /** The running sum `data->sum` accumulates. */
  function Total(ds: seq<real>): real
  {
    if ds == [] then 0.0 else Total(ds[..|ds| - 1]) + ds[|ds| - 1]
  }

  /** `maxf`. */
  function Max(a: real, b: real): real
  {
    if a > b then a else b
  }

  /** The running maximum of `mcc_data_threshold`, started at 0. */
  function Peak(ds: seq<real>): real
  {
    if ds == [] then 0.0 else Max(Peak(ds[..|ds| - 1]), ds[|ds| - 1])
  }

  /** The number of doses strictly above `t`. */
  function CountAbove(ds: seq<real>, t: real): nat
  {
    if ds == [] then 0 else CountAbove(ds[..|ds| - 1], t) + (if ds[|ds| - 1] > t then 1 else 0)
  }

  /** The running maximum is max(0, all doses): at least 0 and every dose,
      and equal to 0 or to one of them. */
  lemma {:induction false} PeakIsMaximum(ds: seq<real>)
    ensures Peak(ds) >= 0.0
    ensures forall k :: 0 <= k < |ds| ==> ds[k] <= Peak(ds)
    ensures Peak(ds) == 0.0 || Peak(ds) in ds
  {
    if ds != [] {
      var p := ds[..|ds| - 1];
      PeakIsMaximum(p);
      assert forall k :: 0 <= k < |p| ==> ds[k] == p[k];
      assert Peak(p) in p ==> Peak(p) in ds;
    }
  }

  /** The support count never exceeds the number of doses. */
  lemma {:induction false} CountAboveAtMost(ds: seq<real>, t: real)
    ensures CountAbove(ds, t) <= |ds|
  {
    if ds != [] {
      CountAboveAtMost(ds[..|ds| - 1], t);
    }
  }

  /** A dose above the threshold is counted. */
  lemma {:induction false} CountAboveHas(ds: seq<real>, t: real, k: nat)
    requires k < |ds| && ds[k] > t
    ensures CountAbove(ds, t) >= 1
  {
    if k < |ds| - 1 {
      CountAboveHas(ds[..|ds| - 1], t, k);
    }
  }

  /** Whenever some dose is positive, the largest one lies above a tenth of
      the maximum, so the support is not empty. */
  lemma SupportNotEmpty(ds: seq<real>)
    requires exists k :: 0 <= k < |ds| && ds[k] > 0.0
    ensures CountAbove(ds, 0.1 * Peak(ds)) >= 1
  {
    var k :| 0 <= k < |ds| && ds[k] > 0.0;
    PeakIsMaximum(ds);
    assert Peak(ds) > 0.0;
    var j :| 0 <= j < |ds| && ds[j] == Peak(ds);
    CountAboveHas(ds, 0.1 * Peak(ds), j);
  }

  /** The ordinates of the scans. */
  function Ys(ss: seq<Scan>): (ks: seq<real>)
    ensures |ks| == |ss| && forall k :: 0 <= k < |ss| ==> ks[k] == ss[k].y
  {
    seq(|ss|, k requires 0 <= k < |ss| => ss[k].y)
  }

  /** The positions of the samples. */
  function Xs(ps: seq<Point>): (ks: seq<real>)
    ensures |ks| == |ps| && forall k :: 0 <= k < |ps| ==> ks[k] == ps[k].x
  {
    seq(|ps|, k requires 0 <= k < |ps| => ps[k].x)
  }

  ghost predicate Ascending(ks: seq<real>)
  {
    forall i, j :: 0 <= i < j < |ks| ==> ks[i] <= ks[j]
  }

  ghost predicate StrictlyAscending(ks: seq<real>)
  {
    forall i, j :: 0 <= i < j < |ks| ==> ks[i] < ks[j]
  }

  /** The loop of `mcc_data_scan_bsearch` and `mcc_data_data_bsearch` from
      the window `[l, r)`: halve the window until the key is hit or the
      window is empty, then answer one before its left end. */
  function BSearch(ks: seq<real>, q: real, l: nat, r: nat): (i: int)
    requires l <= r <= |ks|
    ensures l - 1 <= i < r
    decreases r - l
  {
    if l < r then
      var med := (r + l) / 2;
      if q < ks[med] then BSearch(ks, q, l, med)
      else if ks[med] < q then BSearch(ks, q, med + 1, r)
      else med
    else l - 1
  }

  /** On ascending keys, a search whose window has only smaller keys to its
      left and only larger keys to its right answers an index whose key is
      not above `q`, or -1; and either it hit `q` exactly or every key after
      the answer is above `q`. */
  lemma {:induction false} BSearchWindow(ks: seq<real>, q: real, l: nat, r: nat)
    requires l <= r <= |ks| && Ascending(ks)
    requires forall k :: 0 <= k < l ==> ks[k] < q
    requires forall k :: r <= k < |ks| ==> q < ks[k]
    ensures var i := BSearch(ks, q, l, r);
      (i >= 0 ==> ks[i] <= q) &&
      ((i >= 0 && ks[i] == q) || forall k :: i < k < |ks| ==> q < ks[k])
    decreases r - l
  {
    if l < r {
      var med := (r + l) / 2;
      if q < ks[med] {
        forall k | med <= k < |ks| ensures q < ks[k] {
          assert ks[med] <= ks[k];
        }
        BSearchWindow(ks, q, l, med);
      } else if ks[med] < q {
        forall k | 0 <= k < med + 1 ensures ks[k] < q {
          assert ks[k] <= ks[med];
        }
        BSearchWindow(ks, q, med + 1, r);
      }
    }
  }

  /** The searches answer the largest key not above the query: its index,
      or -1 when there is none. */
  lemma BSearchLargest(ks: seq<real>, q: real)
    requires Ascending(ks)
    ensures var i := BSearch(ks, q, 0, |ks|);
      -1 <= i < |ks| && (i >= 0 ==> ks[i] <= q) && (forall k :: i < k < |ks| ==> q <= ks[k]) &&
      forall k :: 0 <= k < |ks| && ks[k] <= q ==> i >= 0 && ks[k] <= ks[i]
  {
    var i := BSearch(ks, q, 0, |ks|);
    BSearchWindow(ks, q, 0, |ks|);
    forall k | i < k < |ks| ensures q <= ks[k] {
      if i >= 0 && ks[i] == q {
        assert ks[i] <= ks[k];
      }
    }
    forall k | 0 <= k < |ks| && ks[k] <= q ensures i >= 0 && ks[k] <= ks[i] {
      if k <= i {
        assert ks[k] <= ks[i];
      }
    }
  }

  /** The last index whose key is not above `q`, or -1: a plain scan from
      the end. */
  function LastAtMost(ks: seq<real>, q: real): (i: int)
    ensures -1 <= i < |ks|
  {
    if ks == [] then -1
    else if ks[|ks| - 1] <= q then |ks| - 1
    else LastAtMost(ks[..|ks| - 1], q)
  }

  lemma {:induction false} LastAtMostIs(ks: seq<real>, q: real)
    ensures var i := LastAtMost(ks, q);
      (i >= 0 ==> ks[i] <= q) && forall k :: i < k < |ks| ==> q < ks[k]
  {
    if ks != [] && q < ks[|ks| - 1] {
      LastAtMostIs(ks[..|ks| - 1], q);
    }
  }

  /** On strictly ascending keys the search answer is the last index whose
      key is not above the query. */
  lemma BSearchIsLastAtMost(ks: seq<real>, q: real)
    requires StrictlyAscending(ks)
    ensures BSearch(ks, q, 0, |ks|) == LastAtMost(ks, q)
  {
    var i := BSearch(ks, q, 0, |ks|);
    var j := LastAtMost(ks, q);
    BSearchLargest(ks, q);
    LastAtMostIs(ks, q);
  }

  /** `SIG_NONCOMPACT`, the answer of a scan interpolation outside the
      scan. */
  const NonCompact: real := -1.0

  /** The relative offset `(a - a0) / (a1 - a0)`. Where the two abscissae
      coincide the C division has no finite answer; the model takes 0. */
  function Offset(a: real, a0: real, a1: real): real
  {
    if a1 == a0 then 0.0 else (a - a0) / (a1 - a0)
  }

  /** The value a fraction `t` of the way from `a` to `b`: `(b - a) * t + a`,
      the formula of both interpolations. */
  function Lerp(a: real, b: real, t: real): real
  {
    (b - a) * t + a
  }

  /** `mcc_data_interp_scan`: linear interpolation between the bracketing
      samples, or `SIG_NONCOMPACT` when the query has no sample on both
      sides. */
  function InterpScan(s: Scan, x: real): real
  {
    var l := BSearch(Xs(s.data), x, 0, |s.data|);
    if l >= 0 && l + 1 < |s.data| then
      Lerp(s.data[l].dose, s.data[l + 1].dose, Offset(x, s.data[l].x, s.data[l + 1].x))
    else NonCompact
  }

  /** `mcc_data_interp_scans`: linear interpolation in y between the two
      scans' interpolations, or 0 when either is `SIG_NONCOMPACT`. */
  function InterpScans(s1: Scan, s2: Scan, x: real, y: real): real
  {
    var i0 := InterpScan(s1, x);
    var i1 := InterpScan(s2, x);
    if i0 != NonCompact && i1 != NonCompact then
      Lerp(i0, i1, Offset(y, s1.y, s2.y))
    else 0.0
  }

  /** `mcc_data_get_point_dose`: interpolate between the bracketing scans,
      or 0 when `y` is not bracketed. */
  function PointDose(ss: seq<Scan>, x: real, y: real): real
  {
    var l := BSearch(Ys(ss), y, 0, |ss|);
    if l >= 0 && l + 1 < |ss| then InterpScans(ss[l], ss[l + 1], x, y) else 0.0
  }

  /** Outside the band of scans (below the first ordinate or above the
      last) the point dose is 0. */
  lemma PointDoseOutsideScans(ss: seq<Scan>, x: real, y: real)
    requires Ascending(Ys(ss))
    requires ss == [] || y < ss[0].y || ss[|ss| - 1].y < y
    ensures PointDose(ss, x, y) == 0.0
  {
    BSearchLargest(Ys(ss), y);
  }

  /** Outside a scan's samples (before the first position or after the
      last) its interpolation is `SIG_NONCOMPACT`, so a point there between
      two scans has dose 0. */
  lemma InterpScanOutside(s: Scan, x: real)
    requires Ascending(Xs(s.data))
    requires s.data == [] || x < s.data[0].x || s.data[|s.data| - 1].x < x
    ensures InterpScan(s, x) == NonCompact
  {
    BSearchLargest(Xs(s.data), x);
  }

  /** With `0 <= t < 1`, `m * t + d0` lies between `d0` and `d0 + m`. */
  lemma LerpBetween(d0: real, m: real, t: real)
    requires 0.0 <= t < 1.0
    ensures Min(d0, d0 + m) <= m * t + d0 <= Max(d0, d0 + m)
  {
    if m >= 0.0 {
      calc {
        m * t;
      >= { MulNonNeg(m, t); }
        0.0;
      }
      calc {
        m - m * t;
        m * (1.0 - t);
      >= { MulNonNeg(m, 1.0 - t); }
        0.0;
      }
    } else {
      calc {
        -(m * t);
        (-m) * t;
      >= { MulNonNeg(-m, t); }
        0.0;
      }
      calc {
        m * t - m;
        (-m) * (1.0 - t);
      >= { MulNonNeg(-m, 1.0 - t); }
        0.0;
      }
    }
  }

  function Min(a: real, b: real): real
  {
    if a < b then a else b
  }

  lemma MulNonNeg(a: real, b: real)
    requires 0.0 <= a && 0.0 <= b
    ensures 0.0 <= a * b
  {
  }

  lemma MulPos(a: real, b: real)
    requires 0.0 < a && 0.0 < b
    ensures 0.0 < a * b
  {
  }

  /** The relative offset of a point from the left of two abscissae, before
      the right one, lies in [0, 1). */
  lemma OffsetInUnit(a: real, a0: real, a1: real)
    requires a0 <= a < a1
    ensures 0.0 <= Offset(a, a0, a1) < 1.0
  {
    var d := a1 - a0;
    var t := (a - a0) / d;
    assert t * d == a - a0;
    if t < 0.0 {
      calc {
        0.0;
      < { MulPos(-t, d); }
        (-t) * d;
        -(t * d);
        a0 - a;
      }
    }
    if t >= 1.0 {
      calc {
        0.0;
      <= { MulNonNeg(t - 1.0, d); }
        (t - 1.0) * d;
        t * d - d;
        a - a1;
      }
    }
  }

  /** On ascending positions the bracket the search answers holds the
      query: its left sample is not after it, and its right sample is after
      it unless both share one position. */
  lemma BracketHolds(ks: seq<real>, x: real)
    requires Ascending(ks)
    requires var l := BSearch(ks, x, 0, |ks|); l >= 0 && l + 1 < |ks|
    ensures var l := BSearch(ks, x, 0, |ks|);
      ks[l] <= x && (ks[l + 1] == ks[l] || x < ks[l + 1])
  {
    BSearchLargest(ks, x);
    var l := BSearch(ks, x, 0, |ks|);
    assert ks[l] <= ks[l + 1];
  }

  /** Inside a scan, the interpolated dose lies between the doses of the two
      bracketing samples. */
  lemma InterpScanBetween(s: Scan, x: real)
    requires Ascending(Xs(s.data))
    requires var l := BSearch(Xs(s.data), x, 0, |s.data|); l >= 0 && l + 1 < |s.data|
    ensures var l := BSearch(Xs(s.data), x, 0, |s.data|);
      Min(s.data[l].dose, s.data[l + 1].dose) <= InterpScan(s, x) <= Max(s.data[l].dose, s.data[l + 1].dose)
  {
    var xs := Xs(s.data);
    var l := BSearch(xs, x, 0, |s.data|);
    var x0, x1 := s.data[l].x, s.data[l + 1].x;
    var d0, d1 := s.data[l].dose, s.data[l + 1].dose;
    assert x0 <= x && (x1 == x0 || x < x1) by {
      BracketHolds(xs, x);
      assert xs[l] == x0 && xs[l + 1] == x1;
    }
    InterpScanInside(s, x);
    InterpolationBetween(x, x0, x1, d0, d1);
  }

  /** Inside a scan, the interpolation is the formula on the two
      bracketing samples. */
  lemma InterpScanInside(s: Scan, x: real)
    requires var l := BSearch(Xs(s.data), x, 0, |s.data|); l >= 0 && l + 1 < |s.data|
    ensures var l := BSearch(Xs(s.data), x, 0, |s.data|);
      InterpScan(s, x) == Lerp(s.data[l].dose, s.data[l + 1].dose, Offset(x, s.data[l].x, s.data[l + 1].x))
  {
  }

  /** The interpolation formula at a point of a bracket `[x0, x1)` lies
      between the doses at its ends. */
  lemma InterpolationBetween(x: real, x0: real, x1: real, d0: real, d1: real)
    requires x0 <= x && (x1 == x0 || x < x1)
    ensures Min(d0, d1) <= Lerp(d0, d1, Offset(x, x0, x1)) <= Max(d0, d1)
  {
    var t := Offset(x, x0, x1);
    if x1 != x0 {
      OffsetInUnit(x, x0, x1);
    }
    LerpBetween(d0, d1 - d0, t);
  }

  /** At a sample position of strictly ascending samples, other than the
      last, the interpolation gives that sample's dose. */
  lemma InterpScanAtSample(s: Scan, k: nat)
    requires StrictlyAscending(Xs(s.data)) && k + 1 < |s.data|
    ensures InterpScan(s, s.data[k].x) == s.data[k].dose
  {
    var x := s.data[k].x;
    SearchAtSample(Xs(s.data), k);
    InterpScanInside(s, x);
    assert Offset(x, x, s.data[k + 1].x) == 0.0;
    assert Lerp(s.data[k].dose, s.data[k + 1].dose, 0.0) == s.data[k].dose;
  }

  /** On strictly ascending keys, searching for a key finds its index. */
  lemma SearchAtSample(ks: seq<real>, k: nat)
    requires StrictlyAscending(ks) && k < |ks|
    ensures BSearch(ks, ks[k], 0, |ks|) == k
  {
    BSearchIsLastAtMost(ks, ks[k]);
    LastAtMostIs(ks, ks[k]);
  }
}
