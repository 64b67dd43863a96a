/** The hull walks and candidate tests of the merge step of
    src/proton/delaunay/delaunay.c, stated on the pool as a value. The
    source's loops have no termination argument (the author marks the
    tangent search as unproven), so every walk here carries a fuel bound
    and answers None when the fuel runs out or when it meets an empty
    vertex slot where the source would dereference NULL. */
module DelaunayWalk {
  import opened Wrappers
  import opened Geometry
  import opened DelaunayMesh

  /** `NEXT_MANIFOLD(t, dir)` (delaunay.c:273): the record across side dir. */
  function NextManifold(m: Mesh, t: nat, dir: nat): (r: nat)
    requires Linked(m) && t < Count(m) && dir < 3
    ensures r < Count(m)
  {
    Next(m, t, dir).next
  }

  /** The record reached from t after k steps of NEXT_MANIFOLD through side dir. */
  function HullWalk(m: Mesh, t: nat, dir: nat, k: nat): (r: nat)
    requires Linked(m) && t < Count(m) && dir < 3
    ensures r < Count(m)
    decreases k
  {
    if k == 0 then t else HullWalk(m, NextManifold(m, t, dir), dir, k - 1)
  }

  /** Walking k steps and then one more is walking k + 1 steps. */
  lemma {:induction false} HullWalkStep(m: Mesh, t: nat, dir: nat, k: nat)
    requires Linked(m) && t < Count(m) && dir < 3
    ensures HullWalk(m, t, dir, k + 1) == NextManifold(m, HullWalk(m, t, dir, k), dir)
    decreases k
  {
    if k > 0 {
      HullWalkStep(m, NextManifold(m, t, dir), dir, k - 1);
    }
  }

  /** If [lo, hi) is closed and the walk starts inside it, u is inside it. */
  predicate Within(m: Mesh, lo: nat, hi: nat, t: nat, u: nat)
  {
    Mutual(m, lo, hi) && lo <= t < hi ==> lo <= u < hi
  }

  /** One NEXT_MANIFOLD step from a record of a closed range stays in it. */
  lemma NextManifoldStays(m: Mesh, lo: nat, hi: nat, t: nat, dir: nat)
    requires Mutual(m, lo, hi) && Linked(m) && lo <= t < hi && dir < 3
    ensures lo <= NextManifold(m, t, dir) < hi
  {
    var s := Slot(t, dir);
    assert 3 * lo <= s < 3 * hi;
    assert 3 * lo <= m.adj[s] < 3 * hi;
  }

  /** A walk that stayed within every closed range holding its start still
      does after one more step. */
  lemma WithinStep(m: Mesh, t: nat, u: nat, dir: nat)
    requires Linked(m) && u < Count(m) && dir < 3
    requires forall lo: nat, hi: nat :: Within(m, lo, hi, t, u)
    ensures forall lo: nat, hi: nat :: Within(m, lo, hi, t, NextManifold(m, u, dir))
  {
    forall lo: nat, hi: nat
      ensures Within(m, lo, hi, t, NextManifold(m, u, dir))
    {
      if Mutual(m, lo, hi) && lo <= t < hi {
        assert Within(m, lo, hi, t, u);
        NextManifoldStays(m, lo, hi, u, dir);
      }
    }
  }

  /** A hull walk never leaves a closed range it starts in. */
  lemma {:induction false} HullWalkStays(m: Mesh, lo: nat, hi: nat, t: nat, dir: nat, k: nat)
    requires Mutual(m, lo, hi) && Linked(m) && lo <= t < hi && dir < 3
    ensures lo <= HullWalk(m, t, dir, k) < hi
    decreases k
  {
    if k > 0 {
      NextManifoldStays(m, lo, hi, t, dir);
      HullWalkStays(m, lo, hi, NextManifold(m, t, dir), dir, k - 1);
    }
  }

  /** The node of side o of t as a point, when the slot is filled. */
  function VertexPoint(m: Mesh, nodes: seq<Point>, t: nat, o: nat): (p: Option<Point>)
    requires Linked(m) && VerticesIn(m, |nodes|) && t < Count(m) && o < 3
    ensures p.Some? <==> Vertex(m, t, o).Some?
    ensures p.Some? ==> p.value == nodes[Vertex(m, t, o).value]
  {
    match Vertex(m, t, o)
    case None => None
    case Some(v) => Some(nodes[v])
  }

  /** `lower_tangent(L, R, t, rot)` (delaunay.c:543-552): the hull vertex
      opposite rot on t, and vertex rot of the record across from it, both
      lie to the left of or on the directed line L -> R. The second vertex
      is only read when the first passes. */
  function LowerTangent(m: Mesh, nodes: seq<Point>, l: Point, r: Point, t: nat, rot: nat): (ok: Option<bool>)
    requires Linked(m) && VerticesIn(m, |nodes|) && t < Count(m) && rot < 2
  {
    match VertexPoint(m, nodes, t, Other(rot))
    case None => None
    case Some(a) =>
      if TriangleOrientation(l, r, a) < 0 then Some(false)
      else
        match VertexPoint(m, nodes, NextManifold(m, t, Other(rot)), rot)
        case None => None
        case Some(b) => Some(TriangleOrientation(l, r, b) >= 0)
  }

  /** The tangent test answers true exactly when both neighbours are
      present and neither lies strictly to the right of L -> R (signed
      area not negative), and false exactly when one present neighbour
      lies strictly to the right. */
  lemma LowerTangentMeaning(m: Mesh, nodes: seq<Point>, l: Point, r: Point, t: nat, rot: nat)
    requires Linked(m) && VerticesIn(m, |nodes|) && t < Count(m) && rot < 2
    ensures var ok, a := LowerTangent(m, nodes, l, r, t, rot), VertexPoint(m, nodes, t, Other(rot));
            var b := VertexPoint(m, nodes, NextManifold(m, t, Other(rot)), rot);
            (ok == Some(true) <==> a.Some? && b.Some? && SignedArea(l, r, a.value) >= 0.0 && SignedArea(l, r, b.value) >= 0.0) &&
            (ok == Some(false) <==> a.Some? && (SignedArea(l, r, a.value) < 0.0 || (b.Some? && SignedArea(l, r, b.value) < 0.0)))
  {
    var a := VertexPoint(m, nodes, t, Other(rot));
    var b := VertexPoint(m, nodes, NextManifold(m, t, Other(rot)), rot);
    if a.Some? {
      OrientationIsSignedArea(l, r, a.value);
    }
    if b.Some? {
      OrientationIsSignedArea(l, r, b.value);
    }
  }

  /** `candidate_collision(cand, circum, direction)` (delaunay.c:637-647):
      from the IN side of the ghost `cand`, rotate twice against
      `direction`; the candidate collides when the vertex reached is
      present and strictly inside the circle. */
  function CandidateCollision(m: Mesh, nodes: seq<Point>, cand: nat, circle: Circle, direction: int): (hit: bool)
    requires Linked(m) && VerticesIn(m, |nodes|) && cand < Count(m) && (direction == RotCw || direction == RotCcw)
  {
    var e := NextAfterCandidate(m, cand, direction);
    match VertexPoint(m, nodes, e.next, e.side)
    case None => false
    case Some(p) => InsideCircle(p, circle)
  }

  /** The side two `next_rotate` steps against `direction` from the IN side of cand. */
  function NextAfterCandidate(m: Mesh, cand: nat, direction: int): (e: Edge)
    requires Linked(m) && cand < Count(m) && (direction == RotCw || direction == RotCcw)
    ensures e.next < Count(m) && e.side < 3
  {
    var e1 := NextRotate(m, cand, ManifoldIn, -direction);
    NextRotate(m, e1.next, e1.side, -direction)
  }

  /** With the circle through L, R and a candidate C not on one line, a
      collision means the next candidate is strictly closer to the centre
      than L, R and C are: it lies inside their circumcircle. */
  lemma CollisionMeansInside(m: Mesh, nodes: seq<Point>, cand: nat, l: Point, r: Point, c: Point, direction: int)
    requires Linked(m) && VerticesIn(m, |nodes|) && cand < Count(m) && (direction == RotCw || direction == RotCcw)
    requires TriangleOrientation(l, r, c) != 0
    ensures var circle := TriangleCircumcircle(l, r, c);
            var e := NextAfterCandidate(m, cand, direction);
            var p := VertexPoint(m, nodes, e.next, e.side);
            circle.Circle? &&
            (CandidateCollision(m, nodes, cand, circle, direction) <==>
               p.Some? && SegmentDSqrd(p.value, circle.center) < SegmentDSqrd(circle.center, l) &&
               SegmentDSqrd(circle.center, l) == SegmentDSqrd(circle.center, r) == SegmentDSqrd(circle.center, c))
  {
    CircumcircleEquidistant(l, r, c);
  }

  /** Which side the merge loop of `merge_triangulations`
      (delaunay.c:727-760) advances on. */
  datatype Accept = AcceptLeft | AcceptRight | Finished

  /** The branch structure of the merge loop: with both candidates valid
      the right one wins when it lies in or on the circle through L, R and
      the left candidate; a single valid candidate wins; with none the merge
      is finished. */
  function MergeChoice(leftOk: bool, rightOk: bool, rightInLeftCircle: bool): (a: Accept)
  {
    if leftOk then
      if rightOk && rightInLeftCircle then AcceptRight else AcceptLeft
    else if rightOk then AcceptRight
    else Finished
  }

  /** The merge stops exactly when neither side offers a candidate; it
      takes the left candidate only when the right one is invalid or lies
      strictly outside the left candidate's circle, and the right one
      only when it is valid and the left one is invalid or does not
      exclude it. */
  lemma MergeChoiceMeaning(leftOk: bool, rightOk: bool, inside: bool)
    ensures MergeChoice(leftOk, rightOk, inside) == Finished <==> !leftOk && !rightOk
    ensures MergeChoice(leftOk, rightOk, inside) == AcceptLeft <==> leftOk && !(rightOk && inside)
    ensures MergeChoice(leftOk, rightOk, inside) == AcceptRight <==> rightOk && (!leftOk || inside)
  {
  }

  /** The number of records `build_2dtree` (delaunay.c:852-877) takes from
      the pool for n >= 2 nodes: two per segment leaf, four per triple
      leaf, and two per merge. */
  function TreeBudget(n: nat): nat
    requires n >= 2
  {
    if n <= 3 then (if n == 3 then 4 else 2)
    else TreeBudget(n / 2) + TreeBudget((n + 1) / 2) + 2
  }

  /** The two halves of build_2dtree cover the range: n/2 + (n+1)/2 = n. */
  lemma HalvesCover(n: nat)
    ensures n / 2 + (n + 1) / 2 == n
  {
  }

  /** The budget is exactly 2n - 2, the pool size `triangulate` allocates
      (delaunay.c:1007): the recursion never reaches a single node, since
      both halves of n >= 4 have at least two. */
  lemma {:induction false} TreeBudgetExact(n: nat)
    requires n >= 2
    ensures TreeBudget(n) == 2 * n - 2
    decreases n
  {
    if n > 3 {
      HalvesCover(n);
      TreeBudgetExact(n / 2);
      TreeBudgetExact((n + 1) / 2);
    }
  }
}
