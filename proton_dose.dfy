/** The integer and index logic of the dose grid in
    src/proton/proton-dose.c: the ceiling division used to map image pixels
    onto the dose lattice, the bounds test for the bilinear stencil, the
    depth lookup into the per-plane arrays and its guards, the constriction
    of the planes to the last one that carries dose, the line-dose fill and
    `array_maxf`. Doses are `real`; the floating-point kernels that compute
    the values are not part of this model and enter as parameters. */
module ProtonDose {
  import opened Wrappers

  /** `NULL_THRESH` (proton-dose.c:23): a plane whose dose does not exceed
      this fraction of the maximum dose carries nothing. */
  const NullThresh: real := 0.0001

  /** C's `/` on `long`: truncation toward zero. */
  function CDiv(n: int, d: int): (q: int)
    requires d != 0
    ensures n >= 0 && d > 0 ==> q == n / d
  {
    if (n >= 0) == (d > 0) then
      (if n >= 0 then n else -n) / (if d > 0 then d else -d)
    else
      -((if n >= 0 then n else -n) / (if d > 0 then d else -d))
  }

  /** `IDIVCEIL(num, denom)` (proton-dose.c:19). */
  function IDivCeil(num: int, denom: int): (r: int)
    requires denom != 0
  {
    CDiv(num + denom - 1, denom)
  }

  /** For a non-negative numerator and a positive denominator `IDIVCEIL`
      is the ceiling of the quotient. */
  lemma IDivCeilIsCeiling(num: int, denom: int)
    requires num >= 0 && denom > 0
    ensures IDivCeil(num, denom) * denom >= num
    ensures (IDivCeil(num, denom) - 1) * denom < num
  {
    var q := (num + denom - 1) / denom;
    var r := (num + denom - 1) % denom;
    assert num + denom - 1 == q * denom + r && 0 <= r < denom;
    assert q * denom == num + denom - 1 - r;
    assert (q - 1) * denom == num - 1 - r;
  }

  /** `proton_dose_sublattice_clamp(b, blim, a, alim)`
      (proton-dose.c:449-456): each coordinate of `a` in a lattice of size
      `alim` is carried to the lattice of size `blim`, rounding up. */
  function SublatticeClamp(blim: (int, int), a: (int, int), alim: (int, int)): (b: (int, int))
    requires alim.0 != 0 && alim.1 != 0
  {
    (IDivCeil(blim.0 * a.0, alim.0), IDivCeil(blim.1 * a.1, alim.1))
  }

  /** One coordinate of the clamp stays on the target lattice: a point
      between 0 and the source limit lands between 0 and the target
      limit, at the smallest lattice point not before it. */
  lemma {:induction false} ClampCoordinate(blim: int, a: int, alim: int)
    requires alim > 0 && blim >= 0 && 0 <= a <= alim
    ensures 0 <= IDivCeil(blim * a, alim) <= blim
    ensures IDivCeil(blim * a, alim) * alim >= blim * a
    ensures (IDivCeil(blim * a, alim) - 1) * alim < blim * a
  {
    var n := blim * a;
    MulBounds(blim, a, alim);
    IDivCeilIsCeiling(n, alim);
    var q := IDivCeil(n, alim);
    if q < 0 {
      MulMonotone(q, -1, alim);
      assert false;
    }
    if q - 1 >= blim {
      MulMonotone(blim, q - 1, alim);
      assert false;
    }
  }

  lemma MulBounds(blim: int, a: int, alim: int)
    requires alim > 0 && blim >= 0 && 0 <= a <= alim
    ensures 0 <= blim * a <= blim * alim
  {
    MulMonotone(a, alim, blim);
  }

  lemma MulMonotone(x: int, y: int, c: int)
    requires x <= y && c >= 0
    ensures x * c <= y * c && c * x <= c * y
  {
  }

  /** The clamp maps the source lattice into the target lattice on both
      axes. */
  lemma SublatticeClampInRange(blim: (int, int), a: (int, int), alim: (int, int))
    requires alim.0 > 0 && alim.1 > 0 && blim.0 >= 0 && blim.1 >= 0
    requires 0 <= a.0 <= alim.0 && 0 <= a.1 <= alim.1
    ensures var b := SublatticeClamp(blim, a, alim);
      0 <= b.0 <= blim.0 && 0 <= b.1 <= blim.1
  {
    ClampCoordinate(blim.0, a.0, alim.0);
    ClampCoordinate(blim.1, a.1, alim.1);
  }

  /** `proton_dose_square_out_of_bounds` (proton-dose.c:175-181) for the
      square `a` of a grid with `dimx` columns and `dimz` rows: the square
      is in bounds exactly when its four corners are pixels of the grid. */
  predicate SquareOutOfBounds(a: (int, int), dimx: int, dimz: int)
    ensures !SquareOutOfBounds(a, dimx, dimz) <==>
      0 <= a.0 && a.0 + 1 < dimx && 0 <= a.1 && a.1 + 1 < dimz
  {
    var xbnd := a.0 < 0 || a.0 >= dimx - 1;
    var ybnd := a.1 < 0 || a.1 >= dimz - 1;
    xbnd || ybnd
  }

  /** The grid cell containing coordinate `c` of an axis with origin
      `origin` and pixel spacing `spacing`, and the fraction of the way
      across it: one axis of `proton_dose_find_square`
      (proton-dose.c:162-173). */
  function CellOf(c: real, origin: real, spacing: real): (r: (int, real))
    requires spacing != 0.0
    ensures 0.0 <= r.1 < 1.0
    ensures r.0 as real + r.1 == (c - origin) / spacing
  {
    var u := (c - origin) / spacing;
    (u.Floor, u - u.Floor as real)
  }

  /** `proton_dose_find_square` (proton-dose.c:162-173): the square of the
      coronal grid (axes 0 and 2) containing `(x, y)` and the position
      within it. */
  function FindSquare(x: real, y: real, topLeft: (real, real), pxSpacing: (real, real)): (r: ((int, int), (real, real)))
    requires pxSpacing.0 != 0.0 && pxSpacing.1 != 0.0
    ensures 0.0 <= r.1.0 < 1.0 && 0.0 <= r.1.1 < 1.0
    ensures r.0.0 as real + r.1.0 == (x - topLeft.0) / pxSpacing.0
    ensures r.0.1 as real + r.1.1 == (y - topLeft.1) / pxSpacing.1
  {
    var (a0, r0) := CellOf(x, topLeft.0, pxSpacing.0);
    var (a1, r1) := CellOf(y, topLeft.1, pxSpacing.1);
    ((a0, a1), (r0, r1))
  }

  /** Offset into the dose data of the stencil corner for plane `j` of the
      square `a` (proton-dose.c:209-214): planes are `dimx` apart and rows
      `dimx * dimy` apart. */
  function StencilBase(a: (int, int), j: int, dimx: int, dimy: int): int
  {
    a.1 * (dimx * dimy) + j * dimx + a.0
  }

  /** For a square in bounds, all four reads of the bilinear stencil for
      every plane stay inside the `dimx * dimy * dimz` dose array. */
  lemma {:induction false} StencilInGrid(a: (int, int), j: int, dimx: int, dimy: int, dimz: int)
    requires !SquareOutOfBounds(a, dimx, dimz) && 0 <= j < dimy
    ensures 0 <= StencilBase(a, j, dimx, dimy)
    ensures StencilBase(a, j, dimx, dimy) + dimx * dimy + 1 < dimx * dimy * dimz
  {
    var axskip := dimx * dimy;
    assert 0 <= a.0 && a.0 + 1 < dimx && 0 <= a.1 && a.1 + 1 < dimz;
    MulMonotone(0, j, dimx);
    MulMonotone(j, dimy - 1, dimx);
    MulMonotone(0, a.1, axskip);
    MulMonotone(a.1 + 1, dimz - 1, axskip);
    calc {
      StencilBase(a, j, dimx, dimy) + axskip + 1;
      a.1 * axskip + j * dimx + a.0 + axskip + 1;
    <=
      a.1 * axskip + (dimy - 1) * dimx + a.0 + axskip + 1;
      (a.1 + 1) * axskip + dimx * dimy - dimx + a.0 + 1;
    <
      (a.1 + 1) * axskip + axskip;
      (a.1 + 2) * axskip;
    <=
      { MulMonotone(a.1 + 2, dimz, axskip); }
      dimz * axskip;
    }
  }

  /** `proton_dose_1d_interp` (proton-dose.c:135-142): the plane index at
      `depth` and the fraction of the way to the next plane, plane `i`
      being centred at `(i + 1/2) * spacing`. */
  function Locate(spacing: real, depth: real): (r: (int, real))
    requires spacing != 0.0
    ensures 0.0 <= r.1 < 1.0
    ensures r.0 as real + r.1 == (depth - spacing / 2.0) / spacing
  {
    CellOf(depth, spacing / 2.0, spacing)
  }

  /** `proton_line_get_dose`, `proton_planes_get_dose` and
      `proton_stppwr_get_dose` (proton-dose.c:144-160) on the array `arr`:
      zero unless the plane index lies in `[0, nplanes)`, and otherwise the
      linear blend of entries `i` and `i + 1`. `None` stands for a read
      past the end of `arr`. */
  function GetDose(arr: seq<real>, nplanes: int, spacing: real, depth: real): (r: Option<real>)
    requires spacing != 0.0
    ensures var i := Locate(spacing, depth).0;
      r == None <==> 0 <= i < nplanes && i + 1 >= |arr|
    ensures var i := Locate(spacing, depth).0;
      !(0 <= i < nplanes) ==> r == Some(0.0)
  {
    var (i, t) := Locate(spacing, depth);
    if 0 <= i < nplanes then
      if i + 1 < |arr| then Some(Lerp(arr[i], arr[i + 1], t)) else None
    else Some(0.0)
  }

  /** The point a fraction t of the way from x to y. */
  function Lerp(x: real, y: real, t: real): real
  {
    x + (y - x) * t
  }

  /** With one entry beyond the last plane, the lookup never reads past the
      array, and inside the planes it lies between the two neighbouring
      samples. */
  lemma GetDoseBetween(arr: seq<real>, nplanes: int, spacing: real, depth: real)
    requires spacing != 0.0 && |arr| >= nplanes + 1
    ensures GetDose(arr, nplanes, spacing, depth).Some?
    ensures var i := Locate(spacing, depth).0;
      var v := GetDose(arr, nplanes, spacing, depth).value;
      0 <= i < nplanes ==> Min(arr[i], arr[i + 1]) <= v <= Max(arr[i], arr[i + 1])
  {
    var (i, t) := Locate(spacing, depth);
    if 0 <= i < nplanes {
      Blend(arr[i], arr[i + 1], t);
    }
  }

  function Min(x: real, y: real): real { if x <= y then x else y }
  function Max(x: real, y: real): real { if x >= y then x else y }

  lemma Blend(a: real, b: real, t: real)
    requires 0.0 <= t < 1.0
    ensures Min(a, b) <= a + (b - a) * t <= Max(a, b)
  {
    if a <= b {
      calc {
        b - (a + (b - a) * t);
        (b - a) * (1.0 - t);
      >=
        { MulNonNeg(b - a, 1.0 - t); }
        0.0;
      }
      calc {
        a + (b - a) * t - a;
        (b - a) * t;
      >=
        { MulNonNeg(b - a, t); }
        0.0;
      }
    } else {
      calc {
        a - (a + (b - a) * t);
        (a - b) * t;
      >=
        { MulNonNeg(a - b, t); }
        0.0;
      }
      calc {
        a + (b - a) * t - b;
        (a - b) * (1.0 - t);
      >=
        { MulNonNeg(a - b, 1.0 - t); }
        0.0;
      }
    }
  }

  lemma MulNonNeg(x: real, y: real)
    requires x >= 0.0 && y >= 0.0
    ensures x * y >= 0.0
  {
  }

  /** At the centre of plane `k` the lookup returns that plane's sample. */
  lemma GetDoseAtCentre(arr: seq<real>, nplanes: int, spacing: real, k: int)
    requires spacing != 0.0 && 0 <= k < nplanes && |arr| >= nplanes + 1
    ensures GetDose(arr, nplanes, spacing, (k as real + 0.5) * spacing) == Some(arr[k])
  {
    var depth := (k as real + 0.5) * spacing;
    calc {
      (depth - spacing / 2.0) / spacing;
      (k as real * spacing) / spacing;
      k as real;
    }
    assert (k as real).Floor == k;
  }

  /** The index of the last entry above `threshold`, or 0 when there is
      none: the loop of proton-dose.c:92-94. */
  function LastAbove(s: seq<real>, threshold: real): (r: nat)
    ensures r == 0 || r < |s|
    ensures forall j :: r < j < |s| ==> s[j] <= threshold
    ensures r > 0 ==> s[r] > threshold
  {
    if |s| == 0 then 0
    else if s[|s| - 1] > threshold then |s| - 1
    else LastAbove(s[..|s| - 1], threshold)
  }

  /** The entry found is above the threshold unless no entry is. */
  lemma LastAboveFound(s: seq<real>, threshold: real)
    requires |s| > 0
    ensures s[LastAbove(s, threshold)] > threshold <==> exists j :: 0 <= j < |s| && s[j] > threshold
  {
  }

  /** `proton_planes_constrict` (proton-dose.c:88-106) on the plane array
      `planes`: the planes are cut after the last one above the threshold
      and a zero is appended for the interpolator. The new block is a fresh
      array, as `realloc` may move it. */
  method Constrict(planes: array<real>, threshold: real) returns (newPlanes: array<real>, nplanes: int)
    requires planes.Length >= 1
    ensures nplanes == LastAbove(planes[..], threshold) + 1
    ensures 1 <= nplanes <= planes.Length
    ensures fresh(newPlanes) && newPlanes[..] == planes[..nplanes] + [0.0]
  {
    var i, end := 0, 0;
    while i < planes.Length
      invariant 0 <= i <= planes.Length
      invariant end == LastAbove(planes[..i], threshold)
    {
      assert planes[..i + 1][..i] == planes[..i];
      end := if planes[i] > threshold then i else end;
      i := i + 1;
    }
    assert planes[..i] == planes[..];
    end := end + 1;
    newPlanes := new real[end + 1](k requires 0 <= k <= end reads planes => if k < end then planes[k] else 0.0);
    nplanes := end;
  }

  /** `proton_dose_get_line` (proton-dose.c:201-217): for a square out of
      bounds the first `nplanes` entries of the line dose are zeroed;
      otherwise entry `j` is the stencil kernel applied at the plane-`j`
      offset of the square. `kernel` stands for
      `proton_dose_interpolate_square`. The entry at `nplanes` is never
      written. */
  method GetLine(linedose: array<real>, nplanes: int, a: (int, int), dimx: int, dimy: int, dimz: int, kernel: int -> real)
    requires 0 <= nplanes < linedose.Length
    modifies linedose
    ensures SquareOutOfBounds(a, dimx, dimz) ==> forall j :: 0 <= j < nplanes ==> linedose[j] == 0.0
    ensures !SquareOutOfBounds(a, dimx, dimz) ==>
      forall j :: 0 <= j < nplanes ==> linedose[j] == kernel(StencilBase(a, j, dimx, dimy))
    ensures linedose[nplanes..] == old(linedose[nplanes..])
  {
    var out := SquareOutOfBounds(a, dimx, dimz);
    var j := 0;
    var offset := a.1 * (dimx * dimy) + a.0;
    while j < nplanes
      invariant 0 <= j <= nplanes
      invariant offset == StencilBase(a, j, dimx, dimy)
      invariant forall k :: 0 <= k < j ==> linedose[k] == if out then 0.0 else kernel(StencilBase(a, k, dimx, dimy))
      invariant linedose[nplanes..] == old(linedose[nplanes..])
    {
      linedose[j] := if out then 0.0 else kernel(offset);
      offset := offset + dimx;
      j := j + 1;
    }
  }

  /** `array_maxf(n, arr)` (proton-dose.c:219-226): the largest of the first
      `n` entries and 0. */
  method ArrayMaxF(arr: array<real>, n: int) returns (res: real)
    requires 1 <= n <= arr.Length
    ensures res >= 0.0
    ensures forall i :: 0 <= i < n ==> arr[i] <= res
    ensures res == 0.0 || exists i :: 0 <= i < n && arr[i] == res
  {
    res := 0.0;
    var k := 0;
    while k < n
      invariant 0 <= k <= n
      invariant res >= 0.0
      invariant forall i :: 0 <= i < k ==> arr[i] <= res
      invariant res == 0.0 || exists i :: 0 <= i < k && arr[i] == res
    {
      res := if res > arr[k] then res else arr[k];
      k := k + 1;
    }
  }

  /** The per-plane arrays of `ProtonDose` (proton-dose.h:21-36) after
      `proton_dose_create`: `nplanes` planes, each array with one entry
      past the last plane so that the interpolator may read entry
      `nplanes`. That entry is zero for the planes and the line dose; the
      stopping powers keep the integrated value there when a row follows
      the last plane. */
  class DoseGrid {
    /** `px_dimensions`. */
    const dimx: int
    const dimy: int
    const dimz: int
    /** `px_spacing[1]`, the distance between planes. */
    const spacing: real
    var nplanes: int
    var planes: array<real>
    var stppwr: array<real>
    var linedose: array<real>

    predicate Valid()
      reads this, planes, stppwr, linedose
    {
      spacing != 0.0 && 1 <= nplanes <= dimy &&
      planes.Length == nplanes + 1 && planes[nplanes] == 0.0 &&
      stppwr.Length == nplanes + 1 &&
      linedose.Length == nplanes + 1 && linedose[nplanes] == 0.0
    }

    /** `proton_planes_create` and the end of `proton_dose_create`
        (proton-dose.c:108-115, 330-347) given the
        integrated planes and stopping powers: the planes are constricted
        and the line dose is allocated with a trailing zero. The stopping
        powers keep all `dimy` rows in the source (proton-dose.c:81, 111),
        so entry `nplanes` is the integrated row that follows the last
        plane; only when the last plane is the last row is there no such
        row, and then the model supplies a zero (see
        `StppwrGetDoseAsWritten`). */
    constructor (dimx: int, dimy: int, dimz: int, spacing: real, dmax: real, sums: seq<real>, stopping: seq<real>)
      requires spacing != 0.0 && dimy >= 1 && |sums| == dimy && |stopping| == dimy
      ensures Valid()
      ensures nplanes == LastAbove(sums, NullThresh * dmax) + 1
      ensures planes[..] == sums[..nplanes] + [0.0]
      ensures stppwr[..] == stopping[..nplanes] + [StppwrPad(stopping, nplanes)]
    {
      this.dimx, this.dimy, this.dimz, this.spacing := dimx, dimy, dimz, spacing;
      var p := new real[dimy](k requires 0 <= k < dimy => sums[k]);
      assert p[..] == sums;
      var np, n := Constrict(p, NullThresh * dmax);
      planes, nplanes := np, n;
      stppwr := new real[n + 1](k requires 0 <= k <= n => if k < n then stopping[k] else StppwrPad(stopping, n));
      linedose := new real[n + 1](_ => 0.0);
      new;
      assert stppwr[..] == stopping[..nplanes] + [StppwrPad(stopping, nplanes)];
    }

    /** `proton_line_get_dose` (proton-dose.c:144-148). */
    function LineGetDose(depth: real): (r: real)
      reads this, planes, stppwr, linedose
      requires Valid()
      ensures var i := Locate(spacing, depth).0;
        0 <= i < nplanes ==> Min(linedose[i], linedose[i + 1]) <= r <= Max(linedose[i], linedose[i + 1])
    {
      GetDoseBetween(linedose[..], nplanes, spacing, depth);
      GetDose(linedose[..], nplanes, spacing, depth).value
    }

    /** `proton_planes_get_dose` (proton-dose.c:150-154). */
    function PlanesGetDose(depth: real): (r: real)
      reads this, planes, stppwr, linedose
      requires Valid()
      ensures var i := Locate(spacing, depth).0;
        0 <= i < nplanes ==> Min(planes[i], planes[i + 1]) <= r <= Max(planes[i], planes[i + 1])
    {
      GetDoseBetween(planes[..], nplanes, spacing, depth);
      GetDose(planes[..], nplanes, spacing, depth).value
    }

    /** `proton_stppwr_get_dose` (proton-dose.c:156-160). */
    function StppwrGetDose(depth: real): (r: real)
      reads this, planes, stppwr, linedose
      requires Valid()
      ensures var i := Locate(spacing, depth).0;
        0 <= i < nplanes ==> Min(stppwr[i], stppwr[i + 1]) <= r <= Max(stppwr[i], stppwr[i + 1])
    {
      GetDoseBetween(stppwr[..], nplanes, spacing, depth);
      GetDose(stppwr[..], nplanes, spacing, depth).value
    }

    /** `proton_dose_get_line(dose, x, y)` for the square `a` that
        `proton_dose_find_square` located. */
    method GetLineAt(a: (int, int), kernel: int -> real)
      requires Valid()
      modifies linedose
      ensures Valid()
      ensures SquareOutOfBounds(a, dimx, dimz) ==> forall j :: 0 <= j < nplanes ==> linedose[j] == 0.0
      ensures !SquareOutOfBounds(a, dimx, dimz) ==>
        forall j :: 0 <= j < nplanes ==> linedose[j] == kernel(StencilBase(a, j, dimx, dimy))
    {
      GetLine(linedose, nplanes, a, dimx, dimy, dimz, kernel);
      assert linedose[nplanes] == linedose[nplanes..][0];
    }

    /** `proton_planes_max` (proton-dose.c:228-231). */
    method PlanesMax() returns (res: real)
      requires Valid()
      ensures res >= 0.0 && forall i :: 0 <= i < nplanes ==> planes[i] <= res
      ensures res == 0.0 || exists i :: 0 <= i < nplanes && planes[i] == res
    {
      res := ArrayMaxF(planes, nplanes);
    }

    /** `proton_stppwr_max` (proton-dose.c:233-236). */
    method StppwrMax() returns (res: real)
      requires Valid()
      ensures res >= 0.0 && forall i :: 0 <= i < nplanes ==> stppwr[i] <= res
      ensures res == 0.0 || exists i :: 0 <= i < nplanes && stppwr[i] == res
    {
      res := ArrayMaxF(stppwr, nplanes);
    }
  }

  /** The stopping-power entry past the last of `nplanes` planes: the row
      the source holds there, or zero when the planes reach the last row. */
  function StppwrPad(stopping: seq<real>, nplanes: nat): real
  {
    if nplanes < |stopping| then stopping[nplanes] else 0.0
  }

  /** Wherever the source's stopping-power lookup stays inside its `dimy`
      rows, the padded array of the model gives the same dose; and the
      padded array never reads past its end. */
  lemma StppwrAgreesAsWritten(sums: seq<real>, stopping: seq<real>, dmax: real, spacing: real, depth: real)
    requires spacing != 0.0 && |sums| == |stopping| >= 1
    ensures var n := LastAbove(sums, NullThresh * dmax) + 1;
            var padded := stopping[..n] + [StppwrPad(stopping, n)];
            var d := GetDose(padded, n, spacing, depth);
            d.Some? && (StppwrGetDoseAsWritten(sums, stopping, dmax, spacing, depth).Some? ==>
                          StppwrGetDoseAsWritten(sums, stopping, dmax, spacing, depth) == d)
  {
    var n := LastAbove(sums, NullThresh * dmax) + 1;
    var padded := stopping[..n] + [StppwrPad(stopping, n)];
    var i := Locate(spacing, depth).0;
    GetDoseBetween(padded, n, spacing, depth);
    if 0 <= i < n && i + 1 < |stopping| {
      assert padded[i] == stopping[i] && padded[i + 1] == stopping[i + 1];
      GetDoseSameEntries(padded, stopping, n, spacing, depth);
    }
  }

  /** Two arrays that agree on the two entries the lookup reads give the
      same dose. */
  lemma GetDoseSameEntries(a: seq<real>, b: seq<real>, nplanes: int, spacing: real, depth: real)
    requires spacing != 0.0
    requires var i := Locate(spacing, depth).0;
             0 <= i < nplanes ==> i + 1 < |a| && i + 1 < |b| && a[i] == b[i] && a[i + 1] == b[i + 1]
    ensures GetDose(a, nplanes, spacing, depth) == GetDose(b, nplanes, spacing, depth)
  {
  }

  /** `proton_stppwr_get_dose` as written: `stppwr` keeps the `dimy`
      entries it was allocated with (proton-dose.c:110) while `nplanes`
      may reach `dimy`. */
  function StppwrGetDoseAsWritten(sums: seq<real>, stopping: seq<real>, dmax: real, spacing: real, depth: real): Option<real>
    requires spacing != 0.0
  {
    GetDose(stopping, LastAbove(sums, NullThresh * dmax) + 1, spacing, depth)
  }

  /** Two planes, both carrying dose: `nplanes` is 2, and a depth in the
      second plane makes the source read `stppwr[2]` of a two-entry array. */
  lemma StppwrGetDoseAsWrittenOverruns()
    ensures StppwrGetDoseAsWritten([1.0, 1.0], [3.0, 4.0], 1.0, 1.0, 1.75) == None
  {
    assert LastAbove([1.0, 1.0], NullThresh * 1.0) == 1;
    var d := (1.75 - 1.0 / 2.0) / 1.0;
    assert d == 1.25;
    assert d.Floor == 1;
  }
}
