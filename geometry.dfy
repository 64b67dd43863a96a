/** The geometric predicates of the divide-and-conquer triangulation
    (src/proton/delaunay/delaunay.c:41-249), computed over exact reals
    instead of IEEE doubles. A node is a position plus a dose value; only
    the position matters here. */
module Geometry {

  datatype Point = Point(x: real, y: real)

  /** `node[dim]`: the cutting coordinate of a node, x for dimension 0, y otherwise. */
  function Coord(p: Point, dim: nat): real
  {
    if dim == 0 then p.x else p.y
  }

  function Dot(u: Point, v: Point): real
  {
    u.x * v.x + u.y * v.y
  }

  function Cross(u: Point, v: Point): real
  {
    u.x * v.y - u.y * v.x
  }

  /** The vector from `src` to `dst` (relative_twovec). */
  function Relative(src: Point, dst: Point): Point
  {
    Point(dst.x - src.x, dst.y - src.y)
  }

  /** Squared distance between two points (segment_d_sqrd). */
  function SegmentDSqrd(a: Point, b: Point): real
  {
    Dot(Relative(a, b), Relative(a, b))
  }

  /** A squared distance is never negative and vanishes only between equal points. */
  lemma SegmentDSqrdZero(a: Point, b: Point)
    ensures SegmentDSqrd(a, b) >= 0.0
    ensures SegmentDSqrd(a, b) == 0.0 <==> a == b
  {
    var v := Relative(a, b);
    if a == b {
      assert v == Point(0.0, 0.0);
    } else {
      calc {
        SegmentDSqrd(a, b);
      ==
        v.x * v.x + v.y * v.y;
      > { SumOfSquaresPositive(v.x, v.y); }
        0.0;
      }
    }
  }

  lemma ProductPositive(a: real, b: real)
    requires a > 0.0 && b > 0.0
    ensures a * b > 0.0
  {
  }

  lemma SumOfSquaresPositive(x: real, y: real)
    requires x != 0.0 || y != 0.0
    ensures x * x + y * y > 0.0
  {
    if x > 0.0 { ProductPositive(x, x); }
    else if x < 0.0 { ProductPositive(-x, -x); }
    else if y > 0.0 { ProductPositive(y, y); }
    else { ProductPositive(-y, -y); }
  }

  /** Sign of a number: -1, 0 or 1 (signum). */
  function Signum(x: real): (s: int)
    ensures -1 <= s <= 1
    ensures s < 0 <==> x < 0.0
    ensures s > 0 <==> x > 0.0
  {
    if x < 0.0 then -1 else if x > 0.0 then 1 else 0
  }

  /** Orientation of the triangle ABC: the sign of AB x BC
      (triangle_orientation). 1 is counter-clockwise, -1 clockwise, 0 collinear. */
  function TriangleOrientation(a: Point, b: Point, c: Point): int
  {
    Signum(Cross(Relative(a, b), Relative(b, c)))
  }

  /** Twice the signed area of ABC, the usual determinant form. */
  function SignedArea(a: Point, b: Point, c: Point): real
  {
    (b.x - a.x) * (c.y - a.y) - (b.y - a.y) * (c.x - a.x)
  }

  /** The orientation the source computes from AB x BC is the sign of the
      usual signed area. */
  lemma OrientationIsSignedArea(a: Point, b: Point, c: Point)
    ensures TriangleOrientation(a, b, c) == Signum(SignedArea(a, b, c))
  {
    var ab := Relative(a, b);
    assert Cross(ab, Relative(b, c)) == Cross(ab, Relative(a, c)) - Cross(ab, ab);
    assert Cross(ab, ab) == 0.0;
  }

  /** Exchanging the last two vertices reverses the orientation; this is
      what sort_ccw relies on. */
  lemma OrientationSwap(a: Point, b: Point, c: Point)
    ensures TriangleOrientation(a, c, b) == -TriangleOrientation(a, b, c)
  {
    OrientationIsSignedArea(a, b, c);
    OrientationIsSignedArea(a, c, b);
    assert SignedArea(a, c, b) == -SignedArea(a, b, c);
  }

  /** A cyclic shift of the vertices keeps the orientation. */
  lemma OrientationRotate(a: Point, b: Point, c: Point)
    ensures TriangleOrientation(b, c, a) == TriangleOrientation(a, b, c)
  {
    OrientationIsSignedArea(a, b, c);
    OrientationIsSignedArea(b, c, a);
    assert SignedArea(b, c, a) == SignedArea(a, b, c);
  }

  /** A circumcircle: centre and squared radius (circumcenter[0..3] in the
      source). A collinear triple has none: the source divides by zero
      there, and the model keeps the outcome as Degenerate, which contains
      no point. */
  datatype Circle = Circle(center: Point, r2: real) | Degenerate

  /** Strict containment test used by candidate_collision: the squared
      distance from the centre is below the squared radius. */
  predicate InsideCircle(p: Point, c: Circle)
  {
    c.Circle? && SegmentDSqrd(p, c.center) < c.r2
  }

  /** Closed containment test used when the merge compares both candidates. */
  predicate InsideOrOnCircle(p: Point, c: Circle)
  {
    c.Circle? && SegmentDSqrd(c.center, p) <= c.r2
  }

  /** triangle_circumcircle: the centre from the closed formula of the
      source, and the squared distance from that centre to A. */
  function TriangleCircumcircle(a: Point, b: Point, c: Point): Circle
  {
    if TriangleOrientation(a, b, c) == 0 then Degenerate
    else
      var bSqrd := Dot(b, b);
      CircleFormula(a, Relative(a, b), Relative(b, c), Dot(c, c) - bSqrd, Dot(a, a) - bSqrd)
  }

  /** The closed formula itself, on the edge vectors AB, BC and the terms
      t0 = |C|^2 - |B|^2, t1 = |A|^2 - |B|^2. */
  function CircleFormula(a: Point, ab: Point, bc: Point, t0: real, t1: real): Circle
    requires Cross(ab, bc) != 0.0
  {
    var denom := 2.0 * Cross(ab, bc);
    var center := Point(-(t0 * ab.y + t1 * bc.y) / denom, (t0 * ab.x + t1 * bc.x) / denom);
    Circle(center, SegmentDSqrd(center, a))
  }

  /** The circumcircle exists exactly for non-collinear triples. */
  lemma CircumcircleExists(a: Point, b: Point, c: Point)
    ensures TriangleCircumcircle(a, b, c).Circle? <==> TriangleOrientation(a, b, c) != 0
  {
  }

  /** For non-collinear A, B, C the centre is equidistant from all three,
      the common squared distance being the stored radius. */
  lemma CircumcircleEquidistant(a: Point, b: Point, c: Point)
    requires TriangleOrientation(a, b, c) != 0
    ensures var r := TriangleCircumcircle(a, b, c);
      r.Circle? &&
      SegmentDSqrd(r.center, a) == r.r2 &&
      SegmentDSqrd(r.center, b) == r.r2 &&
      SegmentDSqrd(r.center, c) == r.r2
  {
    var ab := Relative(a, b);
    var bc := Relative(b, c);
    var t0 := Dot(c, c) - Dot(b, b);
    var t1 := Dot(a, a) - Dot(b, b);
    var r := CircleFormula(a, ab, bc, t0, t1);
    assert TriangleCircumcircle(a, b, c) == r;
    FormulaOnBisectors(a, ab, bc, t0, t1);
    EquidistantFromBisectors(r.center, a, b, c);
  }

  /** The centre given by the formula lies on the perpendicular bisectors of
      AB and BC: 2 P.AB = -t1 and 2 P.BC = t0. */
  lemma FormulaOnBisectors(a: Point, ab: Point, bc: Point, t0: real, t1: real)
    requires Cross(ab, bc) != 0.0
    ensures var p := CircleFormula(a, ab, bc, t0, t1).center;
      2.0 * Dot(p, ab) == -t1 && 2.0 * Dot(p, bc) == t0
  {
    var p := CircleFormula(a, ab, bc, t0, t1).center;
    var cr := Cross(ab, bc);
    CenterOnBisectors(ab.x, ab.y, bc.x, bc.y, cr, t0, t1);
    calc {
      2.0 * Dot(p, ab);
    ==
      2.0 * (p.x * ab.x + p.y * ab.y);
    ==
      -t1;
    }
    calc {
      2.0 * Dot(p, bc);
    ==
      2.0 * (p.x * bc.x + p.y * bc.y);
    ==
      t0;
    }
  }

  /** A point on the perpendicular bisectors of AB and BC is equally far
      from A, B and C. */
  lemma EquidistantFromBisectors(p: Point, a: Point, b: Point, c: Point)
    requires 2.0 * Dot(p, Relative(a, b)) == -(Dot(a, a) - Dot(b, b))
    requires 2.0 * Dot(p, Relative(b, c)) == Dot(c, c) - Dot(b, b)
    ensures SegmentDSqrd(p, a) == SegmentDSqrd(p, b) == SegmentDSqrd(p, c)
  {
    DistanceDifference(p, a, b);
    DistanceDifference(p, b, c);
  }

  /** The centre formula, on plain coordinates: the point it gives lies on
      the perpendicular bisectors of AB and BC, i.e. 2 P.AB = -t1 and
      2 P.BC = t0. */
  lemma CenterOnBisectors(abx: real, aby: real, bcx: real, bcy: real, cr: real, t0: real, t1: real)
    requires cr == abx * bcy - aby * bcx && cr != 0.0
    ensures var denom := 2.0 * cr;
      var px := -(t0 * aby + t1 * bcy) / denom;
      var py := (t0 * abx + t1 * bcx) / denom;
      2.0 * (px * abx + py * aby) == -t1 && 2.0 * (px * bcx + py * bcy) == t0
  {
    var denom := 2.0 * cr;
    var nx := -(t0 * aby + t1 * bcy);
    var ny := t0 * abx + t1 * bcx;
    BisectorIdentity(abx, aby, bcx, bcy, t0, t1);
    ScaledDot(nx, ny, denom, abx, aby, -t1 * cr);
    ScaledDot(nx, ny, denom, bcx, bcy, t0 * cr);
    Cancel(-t1, cr);
    Cancel(t0, cr);
  }

  /** The numerators of the centre formula against AB and BC. */
  lemma BisectorIdentity(abx: real, aby: real, bcx: real, bcy: real, t0: real, t1: real)
    ensures var nx := -(t0 * aby + t1 * bcy); var ny := t0 * abx + t1 * bcx;
      nx * abx + ny * aby == -t1 * (abx * bcy - aby * bcx) &&
      nx * bcx + ny * bcy == t0 * (abx * bcy - aby * bcx)
  {
  }

  /** Dividing both numerators by `denom` and dotting with (ux, uy) divides
      the dot product by `denom`. */
  lemma ScaledDot(nx: real, ny: real, denom: real, ux: real, uy: real, v: real)
    requires denom != 0.0
    requires nx * ux + ny * uy == v
    ensures 2.0 * ((nx / denom) * ux + (ny / denom) * uy) == 2.0 * v / denom
  {
    assert (nx / denom) * ux + (ny / denom) * uy == (nx * ux + ny * uy) / denom;
  }

  lemma Cancel(k: real, cr: real)
    requires cr != 0.0
    ensures 2.0 * (k * cr) / (2.0 * cr) == k
  {
  }

  /** |P - A|^2 - |P - B|^2 = |A|^2 - |B|^2 + 2 P.(B - A). */
  lemma DistanceDifference(p: Point, a: Point, b: Point)
    ensures SegmentDSqrd(p, a) - SegmentDSqrd(p, b) == Dot(a, a) - Dot(b, b) + 2.0 * Dot(p, Relative(a, b))
  {
  }

  /** Three points on the x axis are collinear. */
  lemma CollinearOnAxis(a: Point, b: Point, c: Point)
    requires a.y == 0.0 && b.y == 0.0 && c.y == 0.0
    ensures TriangleOrientation(a, b, c) == 0
  {
    var u, v := Relative(a, b), Relative(b, c);
    calc {
      Cross(u, v);
      == u.x * v.y - u.y * v.x;
      == u.x * 0.0 - 0.0 * v.x;
      == 0.0;
    }
  }

  /** On the x axis the dot product of two offsets is the product of their lengths along x. */
  lemma DotOnAxis(p: Point, q: Point, r: Point)
    requires p.y == 0.0 && q.y == 0.0 && r.y == 0.0
    ensures Dot(Relative(p, q), Relative(p, r)) == (q.x - p.x) * (r.x - p.x)
  {
    var u, v := Relative(p, q), Relative(p, r);
    calc {
      Dot(u, v);
      == u.x * v.x + u.y * v.y;
      == u.x * v.x + 0.0 * 0.0;
      == (q.x - p.x) * (r.x - p.x);
    }
  }

  /** collinear_center: the index (0, 1 or 2) of the node that the source
      takes as the middle of three collinear nodes. */
  function CollinearCenter(v0: Point, v1: Point, v2: Point): (k: nat)
    ensures k < 3
  {
    if Dot(Relative(v2, v0), Relative(v2, v1)) < 0.0 then 2
    else if Dot(Relative(v1, v0), Relative(v1, v2)) < 0.0 then 1
    else 0
  }

  /** `p` lies strictly between `q` and `r`: the vectors towards them point
      in opposite directions. */
  predicate Between(p: Point, q: Point, r: Point)
  {
    Dot(Relative(p, q), Relative(p, r)) < 0.0
  }

  /** Of three distinct collinear nodes, collinear_center picks the one that
      lies between the other two. */
  lemma CollinearCenterIsBetween(v0: Point, v1: Point, v2: Point)
    requires TriangleOrientation(v0, v1, v2) == 0
    requires v0 != v1 && v1 != v2 && v0 != v2
    ensures var k := CollinearCenter(v0, v1, v2);
      (k == 0 ==> Between(v0, v1, v2)) &&
      (k == 1 ==> Between(v1, v0, v2)) &&
      (k == 2 ==> Between(v2, v0, v1))
  {
    if CollinearCenter(v0, v1, v2) == 0 {
      var u := Relative(v0, v1);
      var w := Relative(v0, v2);
      assert Cross(u, w) == 0.0 by {
        OrientationIsSignedArea(v0, v1, v2);
      }
      CollinearMiddle(u.x, u.y, w.x, w.y);
    }
  }

  /** Writing w = t u for the collinear vectors u = v1 - v0 and w = v2 - v0:
      if neither v2 nor v1 lies between the other two, then t < 0, so v0 does. */
  lemma CollinearMiddle(ux: real, uy: real, wx: real, wy: real)
    requires ux * wy - uy * wx == 0.0
    requires ux != 0.0 || uy != 0.0
    requires wx != 0.0 || wy != 0.0
    requires wx != ux || wy != uy
    requires (-wx) * (ux - wx) + (-wy) * (uy - wy) >= 0.0
    requires (-ux) * (wx - ux) + (-uy) * (wy - uy) >= 0.0
    ensures ux * wx + uy * wy < 0.0
  {
    var t := Parallel(ux, uy, wx, wy);
    var uu := ux * ux + uy * uy;
    SumOfSquaresPositive(ux, uy);
    assert t != 0.0;
    assert t != 1.0;
    calc {
      (-ux) * (wx - ux) + (-uy) * (wy - uy);
    ==
      (-ux) * (t * ux - ux) + (-uy) * (t * uy - uy);
    ==
      (1.0 - t) * uu;
    }
    calc {
      (-wx) * (ux - wx) + (-wy) * (uy - wy);
    ==
      (-(t * ux)) * (ux - t * ux) + (-(t * uy)) * (uy - t * uy);
    ==
      (t * (t - 1.0)) * uu;
    }
    assert 1.0 - t >= 0.0 by {
      if 1.0 - t < 0.0 { ProductPositive(t - 1.0, uu); }
    }
    assert t < 0.0 by {
      if t > 0.0 { ProductPositive(t * (1.0 - t), uu); ProductPositive(t, 1.0 - t); }
    }
    calc {
      ux * wx + uy * wy;
    ==
      ux * (t * ux) + uy * (t * uy);
    ==
      t * uu;
    < { ProductPositive(-t, uu); }
      0.0;
    }
  }

  /** A vector w parallel to a non-zero vector u is a multiple of it. */
  lemma Parallel(ux: real, uy: real, wx: real, wy: real) returns (t: real)
    requires ux * wy - uy * wx == 0.0
    requires ux != 0.0 || uy != 0.0
    ensures wx == t * ux && wy == t * uy
  {
    if ux != 0.0 {
      t := wx / ux;
      calc { t * uy; == wx * uy / ux; == wy * ux / ux; == wy; }
    } else {
      t := wy / uy;
      calc { wx; == { assert uy * wx == 0.0; } 0.0; == t * ux; }
    }
  }

  /** ROT(o, i): rotate orientation `o` by `i` steps; the source only ever
      uses i = 1 or i = -1 and never goes below -3 in total. */
  function Rot(o: int, i: int): (r: nat)
    requires 3 + o + i >= 0
    ensures r < 3
  {
    (3 + o + i) % 3
  }

  /** Rotating one way and back returns to the starting side. */
  lemma RotInverse(o: nat, i: int)
    requires o < 3 && (i == 1 || i == -1)
    ensures Rot(Rot(o, i), -i) == o
    ensures Rot(o, i) != o
  {
  }
}
