/** The triangle pool of src/proton/delaunay/delaunay.c as a mutable object:
    the record arrays of the pool, the bump cursor `end`, and the nodes the
    vertex slots refer to. Every method that rewrites records is proved to
    leave exactly the pool that the matching function of DelaunayMesh
    describes, so the closure and shape lemmas proved there apply to it. */
module DelaunayPool {
  import opened Wrappers
  import opened Geometry
  import opened DelaunayMesh
  import opened DelaunayWalk
  import opened DelaunayMerge
  import opened DelaunayPartition

  class TrianglePool {
    /** The nodes being triangulated; a vertex slot holds an index into it. */
    const nodes: seq<Point>
    /** Three vertex slots per record. */
    const verts: array<Option<nat>>
    /** Three partner slots per record (see DelaunayMesh). */
    const adj: array<nat>
    /** One circumcircle per record. */
    const circles: array<Circle>
    /** `p->end`: records below it have been handed out. */
    var end: nat

    /** The records as a value. */
    function Model(): Mesh
      reads verts, adj, circles
    {
      Mesh(verts[..], adj[..], circles[..])
    }

    /** The pool's capacity in records. */
    function Capacity(): nat
      reads this
    {
      circles.Length
    }

    /** Slots are laid out three per record, every partner names a slot of
        the pool, every vertex names a node, and the cursor is in range. */
    predicate Valid()
      reads this, verts, adj, circles
    {
      verts.Length == 3 * circles.Length && adj.Length == 3 * circles.Length &&
      end <= circles.Length && Linked(Model()) && VerticesIn(Model(), |nodes|)
    }

    /** `new_triangle_pool(N)` (delaunay.c:280-288): room for `capacity`
        records, none handed out. */
    constructor (nodes: seq<Point>, capacity: nat)
      ensures Valid() && this.nodes == nodes && Capacity() == capacity && end == 0
      ensures fresh(verts) && fresh(adj) && fresh(circles)
    {
      this.nodes := nodes;
      verts := new Option<nat>[3 * capacity](_ => None);
      adj := new nat[3 * capacity](_ => 0);
      circles := new Circle[capacity](_ => Degenerate);
      end := 0;
    }

    /** `reserve_tris(p, N)` (delaunay.c:311-339): hands out the next `n`
        records and advances the cursor by exactly `n`. The source does not
        check the capacity; callers must stay within it. */
    method Reserve(n: nat) returns (ts: nat)
      requires Valid() && end + n <= Capacity()
      modifies this
      ensures Valid() && ts == old(end) && end == old(end) + n
    {
      ts := end;
      end := end + n;
    }

    /** `retarget_tri(t1, o1, t2, o2)` (delaunay.c:344-351). */
    method RetargetTri(t1: nat, o1: nat, t2: nat, o2: nat)
      requires Valid() && t1 < Capacity() && t2 < Capacity() && o1 < 3 && o2 < 3
      modifies adj
      ensures Valid() && Model() == Retarget(old(Model()), t1, o1, t2, o2)
    {
      adj[Slot(t1, o1)] := Slot(t2, o2);
      adj[Slot(t2, o2)] := Slot(t1, o1);
    }

    /** Writes the three vertex slots of record t. */
    method SetRecordVertices(t: nat, a: Option<nat>, b: Option<nat>, c: Option<nat>)
      requires Valid() && t < Capacity()
      requires (a.Some? ==> a.value < |nodes|) && (b.Some? ==> b.value < |nodes|) && (c.Some? ==> c.value < |nodes|)
      modifies verts
      ensures Valid() && Model() == SetVertices(old(Model()), t, a, b, c)
    {
      verts[Slot(t, 0)] := a;
      verts[Slot(t, 1)] := b;
      verts[Slot(t, 2)] := c;
    }

    /** `make_segment(p, v0, v1)` (delaunay.c:358-376). */
    method MakeSegment(a: nat, b: nat) returns (ts: nat)
      requires Valid() && end + 2 <= Capacity() && a < |nodes| && b < |nodes|
      modifies this, verts, adj
      ensures Valid() && ts == old(end) && end == old(end) + 2
      ensures Model() == MakeSegmentMesh(old(Model()), ts, a, b) && Mutual(Model(), old(end), end)
    {
      MakeSegmentShape(Model(), end, a, b);
      ts := Reserve(2);
      SetRecordVertices(ts, Some(a), Some(b), None);
      SetRecordVertices(ts + 1, Some(b), Some(a), None);
      RetargetTri(ts, ManifoldIn, ts + 1, ManifoldIn);
      RetargetTri(ts, ManifoldCw, ts + 1, ManifoldCcw);
      RetargetTri(ts + 1, ManifoldCw, ts, ManifoldCcw);
    }

    /** `double_segments(ts, vs)` (delaunay.c:399-436) on reserved records
        ts..ts+3, with the middle node of the triple put in position 1 as
        the source evidently intends (see DelaunayMesh.CollinearOrder). */
    method DoubleSegments(ts: nat, v0: nat, v1: nat, v2: nat)
      requires Valid() && ts + 4 <= Capacity() && v0 < |nodes| && v1 < |nodes| && v2 < |nodes|
      modifies verts, adj
      ensures Valid()
      ensures var o := CollinearOrder(nodes, (v0, v1, v2));
              Model() == DoubleSegmentsMesh(old(Model()), ts, o.0, o.1, o.2)
    {
      var o := CollinearOrder(nodes, (v0, v1, v2));
      SetRecordVertices(ts, Some(o.0), Some(o.1), None);
      SetRecordVertices(ts + 1, Some(o.1), Some(o.0), None);
      SetRecordVertices(ts + 2, Some(o.2), Some(o.1), None);
      SetRecordVertices(ts + 3, Some(o.1), Some(o.2), None);
      RetargetTri(ts, ManifoldIn, ts + 1, ManifoldIn);
      RetargetTri(ts + 2, ManifoldIn, ts + 3, ManifoldIn);
      RetargetTri(ts, ManifoldCcw, ts + 1, ManifoldCw);
      RetargetTri(ts + 1, ManifoldCcw, ts + 2, ManifoldCw);
      RetargetTri(ts + 2, ManifoldCcw, ts + 3, ManifoldCw);
      RetargetTri(ts + 3, ManifoldCcw, ts, ManifoldCw);
    }

    /** `make_triangle(p, v0, v1, v2)` (delaunay.c:439-477): reserves four
        records and builds the leaf DelaunayMesh.MakeTriangleMesh describes,
        returning the record it names. */
    method MakeTriangle(v0: nat, v1: nat, v2: nat) returns (t: nat)
      requires Valid() && end + 4 <= Capacity() && v0 < |nodes| && v1 < |nodes| && v2 < |nodes|
      modifies this, verts, adj, circles
      ensures Valid() && end == old(end) + 4 && old(end) <= t < end
      ensures (Model(), t) == MakeTriangleMesh(old(Model()), nodes, old(end), v0, v1, v2)
    {
      var ts := Reserve(4);
      var sorted := SortCcw(nodes, v0, v1, v2);
      if sorted.2 {
        DoubleSegments(ts, v0, sorted.0, sorted.1);
        return ts;
      }
      RealTriangle(ts, v0, sorted.0, sorted.1);
      t := ts + 1;
    }

    /** The non-collinear branch of `make_triangle` (delaunay.c:450-474) on
        reserved records ts..ts+3: a real triangle `(a, b, c)`, one ghost
        per side, and the real triangle's circumcircle in ts. */
    method RealTriangle(ts: nat, a: nat, b: nat, c: nat)
      requires Valid() && ts + 4 <= Capacity() && a < |nodes| && b < |nodes| && c < |nodes|
      modifies verts, adj, circles
      ensures Valid()
      ensures Model() == RealTriangleMesh(old(Model()), ts, a, b, c, TriangleCircumcircle(nodes[a], nodes[b], nodes[c]))
    {
      WriteRealTriangle(ts, a, b, c);
      JoinRealTriangle(ts);
      ghost var m4 := Model();
      circles[ts] := TriangleCircumcircle(nodes[a], nodes[b], nodes[c]);
      assert Model() == m4.(circles := m4.circles[ts := TriangleCircumcircle(nodes[a], nodes[b], nodes[c])]);
    }

    /** The vertex writes of `make_triangle` (delaunay.c:450-457): the
        triangle `(a, b, c)` in ts and a ghost per side in ts+1..ts+3. */
    method WriteRealTriangle(ts: nat, a: nat, b: nat, c: nat)
      requires Valid() && ts + 4 <= Capacity() && a < |nodes| && b < |nodes| && c < |nodes|
      modifies verts
      ensures Valid()
      ensures Model() ==
        var m1 := SetVertices(SetVertices(old(Model()), ts, Some(a), Some(b), Some(c)), ts + 1, Some(c), Some(b), None);
        SetVertices(SetVertices(m1, ts + 2, Some(a), Some(c), None), ts + 3, Some(b), Some(a), None)
    {
      ghost var m0 := Model();
      SetRecordVertices(ts, Some(a), Some(b), Some(c));
      SetRecordVertices(ts + 1, Some(c), Some(b), None);
      ghost var m1 := Model();
      assert m1 == SetVertices(SetVertices(m0, ts, Some(a), Some(b), Some(c)), ts + 1, Some(c), Some(b), None);
      SetRecordVertices(ts + 2, Some(a), Some(c), None);
      SetRecordVertices(ts + 3, Some(b), Some(a), None);
    }

    /** The joins of `make_triangle` (delaunay.c:458-473): side o of ts to
        IN of ghost ts+1+o, and CCW of each ghost to CW of the next. */
    method JoinRealTriangle(ts: nat)
      requires Valid() && ts + 4 <= Capacity()
      modifies adj
      ensures Valid()
      ensures Model() ==
        var m3 := Retarget(Retarget(Retarget(old(Model()), ts, 0, ts + 1, ManifoldIn), ts, 1, ts + 2, ManifoldIn), ts, 2, ts + 3, ManifoldIn);
        Retarget(Retarget(Retarget(m3, ts + 1, ManifoldCcw, ts + 2, ManifoldCw),
                          ts + 2, ManifoldCcw, ts + 3, ManifoldCw), ts + 3, ManifoldCcw, ts + 1, ManifoldCw)
    {
      RetargetTri(ts, 0, ts + 1, ManifoldIn);
      RetargetTri(ts, 1, ts + 2, ManifoldIn);
      RetargetTri(ts, 2, ts + 3, ManifoldIn);
      RetargetTri(ts + 1, ManifoldCcw, ts + 2, ManifoldCw);
      RetargetTri(ts + 2, ManifoldCcw, ts + 3, ManifoldCw);
      RetargetTri(ts + 3, ManifoldCcw, ts + 1, ManifoldCw);
    }

    /** `next_triangle` (delaunay.c:484-489) on the pool. */
    function NextTriangle(t: nat, rot: nat): (e: Edge)
      reads this, verts, adj, circles
      requires Valid() && t < Capacity() && rot < 3
      ensures e.next < Capacity() && e.side < 3
    {
      Next(Model(), t, rot)
    }

    /** `make_edge(p, t1, o1, t2, o2)` (delaunay.c:602-626): reserves two
        records, splices the new segment between vertex o1 of t1 and vertex
        o2 of t2 into both hulls as DelaunayMesh.MakeEdgeMesh says, and
        returns the upper ghost ts + 1. */
    method MakeEdge(t1: nat, o1: nat, t2: nat, o2: nat) returns (t: nat)
      requires Valid() && end + 2 <= Capacity() && t1 < Capacity() && t2 < Capacity() && o1 < 2 && o2 < 2
      modifies this, verts, adj
      ensures Valid() && end == old(end) + 2 && t == old(end) + 1
      ensures Model() == MakeEdgeMesh(old(Model()), old(end), t1, o1, t2, o2)
    {
      ghost var m0 := Model();
      var ts := Reserve(2);
      var v1, v2 := verts[Slot(t1, o1)], verts[Slot(t2, o2)];
      assert v1 == Vertex(m0, t1, o1) && v2 == Vertex(m0, t2, o2);
      BeginSegment(ts, v1, v2);
      SpliceSegment(ts, t1, Other(o1), t2, Other(o2));
      t := ts + 1;
    }

    /** The first writes of `make_edge` (delaunay.c:607-612). */
    method BeginSegment(ts: nat, v1: Option<nat>, v2: Option<nat>)
      requires Valid() && ts + 2 <= Capacity()
      requires (v1.Some? ==> v1.value < |nodes|) && (v2.Some? ==> v2.value < |nodes|)
      modifies verts, adj
      ensures Valid() && Model() == NewSegment(old(Model()), ts, v1, v2)
    {
      SetRecordVertices(ts, v2, v1, None);
      SetRecordVertices(ts + 1, v1, v2, None);
      RetargetTri(ts, ManifoldIn, ts + 1, ManifoldIn);
    }

    /** The splices of `make_edge` (delaunay.c:614-624) at side oa of ta and
        side ob of tb, each partner read after the writes before it. */
    method SpliceSegment(ts: nat, ta: nat, oa: nat, tb: nat, ob: nat)
      requires Valid() && ts + 2 <= Capacity() && ta < Capacity() && tb < Capacity() && oa < 3 && ob < 3
      modifies adj
      ensures Valid() && Model() == Splice(old(Model()), ts, Slot(ta, oa), Slot(tb, ob))
    {
      ghost var m0 := Model();
      var e := NextTriangle(ta, oa);
      assert Slot(e.next, e.side) == m0.adj[Slot(ta, oa)];
      RetargetTri(ts, ManifoldCw, e.next, e.side);
      ghost var m3 := Model();
      assert m3 == Join(m0, Slot(ts, ManifoldCw), m0.adj[Slot(ta, oa)]);
      e := NextTriangle(tb, ob);
      assert Slot(e.next, e.side) == m3.adj[Slot(tb, ob)];
      RetargetTri(ts, ManifoldCcw, e.next, e.side);
      ghost var m4 := Model();
      assert m4 == Join(m3, Slot(ts, ManifoldCcw), m3.adj[Slot(tb, ob)]);
      RetargetTri(ts + 1, ManifoldCw, tb, ob);
      ghost var m5 := Model();
      assert m5 == Join(m4, Slot(ts + 1, ManifoldCw), Slot(tb, ob));
      RetargetTri(ts + 1, ManifoldCcw, ta, oa);
      assert Model() == Join(m5, Slot(ts + 1, ManifoldCcw), Slot(ta, oa));
    }

    /** `flip_edge(t, rot, direction)` (delaunay.c:503-514). */
    method FlipEdge(t: nat, rot: nat, direction: int)
      requires Valid() && t < Capacity() && rot < 3 && (direction == RotCw || direction == RotCcw)
      modifies verts, adj
      ensures Valid() && Model() == FlipEdgeMesh(old(Model()), t, rot, direction)
    {
      ghost var m0 := Model();
      var n := NextTriangle(t, rot);
      var t2, rot2 := n.next, n.side;
      verts[Slot(t, Rot(rot, direction))] := verts[Slot(t2, rot2)];
      verts[Slot(t2, Rot(rot2, direction))] := verts[Slot(t, rot)];
      ghost var m2 := Model();
      assert m2 == SetVertex(SetVertex(m0, t, Rot(rot, direction), Vertex(m0, t2, rot2)), t2, Rot(rot2, direction),
                             Vertex(SetVertex(m0, t, Rot(rot, direction), Vertex(m0, t2, rot2)), t, rot));
      var back := -direction;
      var e := NextTriangle(t2, Rot(rot2, back));
      RetargetTri(t, rot, e.next, e.side);
      e := NextTriangle(t, Rot(rot, back));
      RetargetTri(t2, rot2, e.next, e.side);
      RetargetTri(t, Rot(rot, back), t2, Rot(rot2, back));
    }

    /** `swap_sides(t, o1, o2)` (delaunay.c:650-659). */
    method SwapSides(t: nat, o1: nat, o2: nat)
      requires Valid() && t < Capacity() && o1 < 3 && o2 < 3
      modifies verts, adj
      ensures Valid() && Model() == SwapSidesMesh(old(Model()), t, o1, o2)
    {
      ghost var m0 := Model();
      var v := verts[Slot(t, o1)];
      var n := NextTriangle(t, o1);
      verts[Slot(t, o1)] := verts[Slot(t, o2)];
      ghost var m1 := Model();
      assert m1 == SetVertex(m0, t, o1, Vertex(m0, t, o2));
      var e := NextTriangle(t, o2);
      RetargetTri(t, o1, e.next, e.side);
      verts[Slot(t, o2)] := v;
      RetargetTri(t, o2, n.next, n.side);
    }

    /** `validate_manifold(t)` (delaunay.c:668-679): finds the empty vertex
        slot of ghost t and, when it is not MANIFOLD_IN, rotates the record
        with two side swaps. When no slot is empty the source reads past the
        record; the scan here stops at three and leaves t alone. */
    method ValidateManifold(t: nat)
      requires Valid() && t < Capacity()
      modifies verts, adj
      ensures Valid() && Model() == ValidateManifoldMesh(old(Model()), t)
    {
      var i := 0;
      while i < 3 && verts[Slot(t, i)].Some?
        invariant 0 <= i <= 3
        invariant forall k | 0 <= k < i :: verts[Slot(t, k)].Some?
      {
        i := i + 1;
      }
      assert i == FirstEmpty(Model(), t);
      if i >= ManifoldIn {
        return;
      }
      SwapSides(t, i, ManifoldIn);
      SwapSides(t, i, Other(i));
    }

    /** `minimum_node(t, direction, dim)` (delaunay.c:523-535): walks the
        hull through side `direction` while the coordinate falls, then while
        it rises, and stops at a record whose vertex `direction` is not above
        its other hull vertex in `dim`. */
    method MinimumNode(t: nat, direction: nat, dim: nat, fuel: nat) returns (r: Option<nat>)
      requires Valid() && t < Capacity() && direction < 2
      ensures r.Some? ==> r.value < Capacity() && exists k :: HullWalk(Model(), t, direction, k) == r.value
      ensures r.Some? ==> var a, b := VertexPoint(Model(), nodes, r.value, direction), VertexPoint(Model(), nodes, r.value, Other(direction));
                          a.Some? && b.Some? && Coord(a.value, dim) <= Coord(b.value, dim)
      ensures r.Some? ==> forall lo: nat, hi: nat :: Within(Model(), lo, hi, t, r.value)
    {
      var cur, f := t, fuel;
      ghost var k := 0;
      while true
        invariant cur < Capacity() && cur == HullWalk(Model(), t, direction, k)
        invariant forall lo: nat, hi: nat :: Within(Model(), lo, hi, t, cur)
        decreases f
      {
        var a, b := verts[Slot(cur, direction)], verts[Slot(cur, Other(direction))];
        if a.None? || b.None? {
          return None;
        }
        if !(Coord(nodes[a.value], dim) < Coord(nodes[b.value], dim)) {
          break;
        }
        if f == 0 {
          return None;
        }
        HullWalkStep(Model(), t, direction, k);
        WithinStep(Model(), t, cur, direction);
        cur, k, f := NextManifold(Model(), cur, direction), k + 1, f - 1;
      }
      while true
        invariant cur < Capacity() && cur == HullWalk(Model(), t, direction, k)
        invariant forall lo: nat, hi: nat :: Within(Model(), lo, hi, t, cur)
        decreases f
      {
        var a, b := verts[Slot(cur, direction)], verts[Slot(cur, Other(direction))];
        if a.None? || b.None? {
          return None;
        }
        if !(Coord(nodes[a.value], dim) > Coord(nodes[b.value], dim)) {
          return Some(cur);
        }
        if f == 0 {
          return None;
        }
        HullWalkStep(Model(), t, direction, k);
        WithinStep(Model(), t, cur, direction);
        cur, k, f := NextManifold(Model(), cur, direction), k + 1, f - 1;
      }
    }

    /** The node in vertex slot o of record t, known to be filled. */
    function Node(t: nat, o: nat): Point
      reads this, verts, adj, circles
      requires Valid() && t < Capacity() && o < 3 && verts[Slot(t, o)].Some?
    {
      nodes[verts[Slot(t, o)].value]
    }

    /** `find_base_LR_edge(tleft, tright, dim)` (delaunay.c:571-595): from
        the lowest hull records across the cut, advance the right record
        until L -> R is tangent to the right hull, then the left one, until
        both tests pass. The answer (l, r) has vertex L at the CCW slot of l
        and R at the CW slot of r, with both hulls on the left of L -> R. */
    method FindBaseLREdge(tleft: nat, tright: nat, dim: nat, fuel: nat) returns (res: Option<(nat, nat)>)
      requires Valid() && tleft < Capacity() && tright < Capacity() && dim < 2
      ensures res.Some? ==>
                var (l, r) := res.value;
                l < Capacity() && r < Capacity() && verts[Slot(l, ManifoldCcw)].Some? && verts[Slot(r, ManifoldCw)].Some? &&
                LowerTangent(Model(), nodes, Node(l, ManifoldCcw), Node(r, ManifoldCw), r, ManifoldCw) == Some(true) &&
                LowerTangent(Model(), nodes, Node(l, ManifoldCcw), Node(r, ManifoldCw), l, ManifoldCcw) == Some(true)
      ensures res.Some? ==>
                (forall lo: nat, hi: nat :: Within(Model(), lo, hi, tleft, res.value.0)) &&
                (forall lo: nat, hi: nat :: Within(Model(), lo, hi, tright, res.value.1))
    {
      var lm := MinimumNode(tleft, ManifoldCcw, Other(dim), fuel);
      var rm := MinimumNode(tright, ManifoldCw, Other(dim), fuel);
      if lm.None? || rm.None? {
        return None;
      }
      var tl: nat, tr: nat := lm.value, rm.value;
      var f := fuel;
      while true
        invariant tl < Capacity() && tr < Capacity()
        invariant verts[Slot(tl, ManifoldCcw)].Some? && verts[Slot(tr, ManifoldCw)].Some?
        invariant forall lo: nat, hi: nat :: Within(Model(), lo, hi, tleft, tl)
        invariant forall lo: nat, hi: nat :: Within(Model(), lo, hi, tright, tr)
        decreases f
      {
        ghost var f0 := f;
        var lp := Node(tl, ManifoldCcw);
        while true
          invariant tr < Capacity() && verts[Slot(tr, ManifoldCw)].Some? && f <= f0
          invariant forall lo: nat, hi: nat :: Within(Model(), lo, hi, tright, tr)
          decreases f
        {
          var ok := LowerTangent(Model(), nodes, lp, Node(tr, ManifoldCw), tr, ManifoldCw);
          if ok.None? {
            return None;
          }
          if ok.value {
            break;
          }
          if f == 0 {
            return None;
          }
          f := f - 1;
          WithinStep(Model(), tright, tr, ManifoldCcw);
          tr := NextManifold(Model(), tr, ManifoldCcw);
          if verts[Slot(tr, ManifoldCw)].None? {
            return None;
          }
        }
        var ok := LowerTangent(Model(), nodes, lp, Node(tr, ManifoldCw), tl, ManifoldCcw);
        if ok.None? {
          return None;
        }
        if ok.value {
          return Some((tl, tr));
        }
        if f == 0 {
          return None;
        }
        f := f - 1;
        WithinStep(Model(), tleft, tl, ManifoldCw);
        tl := NextManifold(Model(), tl, ManifoldCw);
        if verts[Slot(tl, ManifoldCcw)].None? {
          return None;
        }
      }
    }

    /** `submit_candidate(tedge, rot, direction, vl, vr)`
        (delaunay.c:692-712): while the candidate at side rot of tedge lies
        to the left of L -> R and the next candidate around collides with
        its circumcircle, flip the IN edge of tedge and validate the ghost
        that was across it. An accepted candidate lies to the left of or on
        L -> R and the pool left has no collision for it; a refused one lies
        strictly to the right. */
    method SubmitCandidate(tedge: nat, rot: nat, direction: int, l: Point, r: Point, fuel: nat) returns (ok: Option<bool>)
      requires Valid() && tedge < Capacity() && rot < 3 && (direction == RotCw || direction == RotCcw)
      modifies verts, adj
      ensures Valid() && (Model(), ok) == SubmitLoop(old(Model()), nodes, tedge, rot, direction, l, r, fuel)
      ensures ok == Some(true) ==>
                var c := VertexPoint(Model(), nodes, tedge, rot);
                c.Some? && SignedArea(l, r, c.value) >= 0.0 &&
                !CandidateCollision(Model(), nodes, tedge, TriangleCircumcircle(l, r, c.value), direction)
      ensures ok == Some(false) ==>
                var c := VertexPoint(Model(), nodes, tedge, rot);
                c.Some? && SignedArea(l, r, c.value) < 0.0
    {
      ghost var goal := SubmitLoop(Model(), nodes, tedge, rot, direction, l, r, fuel);
      SubmitLoopAnswer(Model(), nodes, tedge, rot, direction, l, r, fuel);
      var f, done := fuel, false;
      ok := None;
      while !done
        invariant Valid()
        invariant !done ==> SubmitLoop(Model(), nodes, tedge, rot, direction, l, r, f) == goal
        invariant done ==> (Model(), ok) == goal
        decreases f, !done
      {
        done, ok, f := SubmitPass(tedge, rot, direction, l, r, f);
      }
    }

    /** One pass of the loop of `submit_candidate` (delaunay.c:697-710):
        with a verdict other than a collision, or no fuel left, it stops
        with the answer; otherwise it flips once and the submission goes on
        with one flip less from the pool it leaves. */
    method SubmitPass(tedge: nat, rot: nat, direction: int, l: Point, r: Point, f: nat) returns (done: bool, ok: Option<bool>, rest: nat)
      requires Valid() && tedge < Capacity() && rot < 3 && (direction == RotCw || direction == RotCcw)
      modifies verts, adj
      ensures Valid() && rest <= f
      ensures done ==> (Model(), ok) == SubmitLoop(old(Model()), nodes, tedge, rot, direction, l, r, f)
      ensures !done ==> rest < f &&
                        SubmitLoop(Model(), nodes, tedge, rot, direction, l, r, rest) ==
                        SubmitLoop(old(Model()), nodes, tedge, rot, direction, l, r, f)
    {
      ghost var m := Model();
      var verdict := SubmitVerdict(Model(), nodes, tedge, rot, direction, l, r);
      if verdict != Collides || f == 0 {
        SubmitStops(m, nodes, tedge, rot, direction, l, r, f);
        ok := if verdict == Accepted then Some(true) else if verdict == Refused then Some(false) else None;
        return true, ok, f;
      }
      rest := f - 1;
      FlipCandidate(tedge, direction);
      SubmitFlipsTo(m, Model(), nodes, tedge, rot, direction, l, r, f, rest);
      done, ok := false, None;
    }

    /** The body of the loop of `submit_candidate` (delaunay.c:704-706):
        flip the IN edge of tedge and validate the ghost that was across it. */
    method FlipCandidate(tedge: nat, direction: int)
      requires Valid() && tedge < Capacity() && (direction == RotCw || direction == RotCcw)
      modifies verts, adj
      ensures Valid() && Model() == SubmitFlip(old(Model()), tedge, direction)
    {
      var other := NextManifold(Model(), tedge, ManifoldIn);
      FlipEdge(tedge, ManifoldIn, direction);
      ValidateManifold(other);
    }

    /** The circumcircle update after an accepted candidate
        (delaunay.c:753, 758): record t, now a real triangle, gets the
        circle through its three nodes. A missing vertex, where the source
        would dereference NULL, leaves the pool alone and answers false. */
    method RecomputeCircle(t: nat) returns (ok: bool)
      requires Valid() && t < Capacity()
      modifies circles
      ensures Valid() && Model().verts == old(Model()).verts && Model().adj == old(Model()).adj
      ensures ok <==> verts[Slot(t, 0)].Some? && verts[Slot(t, 1)].Some? && verts[Slot(t, 2)].Some?
      ensures ok ==> circles[..] == old(circles[..])[t := TriangleCircumcircle(Node(t, 0), Node(t, 1), Node(t, 2))]
      ensures !ok ==> circles[..] == old(circles[..])
      ensures (Model(), ok) == Recircle(old(Model()), nodes, t)
    {
      var a, b, c := verts[Slot(t, 0)], verts[Slot(t, 1)], verts[Slot(t, 2)];
      if a.None? || b.None? || c.None? {
        return false;
      }
      circles[t] := TriangleCircumcircle(nodes[a.value], nodes[b.value], nodes[c.value]);
      return true;
    }

    /** The start of `merge_triangulations` (delaunay.c:724-725): find the
        base edge and join its ends with `make_edge`, which takes two
        records. Answers the upper base ghost and the two hull records,
        whose base vertices L and R have both hulls on the left of L -> R.
        When the two halves are closed triangulations [lo, mid) and
        [mid, end) holding tleft and tright, the joined pool is one closed
        triangulation [lo, end). */
    method JoinBase(tleft: nat, tright: nat, dim: nat, fuel: nat) returns (res: Option<(nat, nat, nat)>)
      requires Valid() && tleft < Capacity() && tright < Capacity() && dim < 2 && end + 2 <= Capacity()
      modifies this, verts, adj
      ensures Valid()
      ensures res.Some? ==> end == old(end) + 2 && res.value.0 == old(end) + 1 &&
                            res.value.1 < Capacity() && res.value.2 < Capacity()
      ensures res.Some? ==> Model() == MakeEdgeMesh(old(Model()), old(end), res.value.1, ManifoldCcw, res.value.2, ManifoldCw)
      ensures res.Some? ==>
                var a, b := VertexPoint(old(Model()), nodes, res.value.1, ManifoldCcw), VertexPoint(old(Model()), nodes, res.value.2, ManifoldCw);
                a.Some? && b.Some? &&
                LowerTangent(old(Model()), nodes, a.value, b.value, res.value.2, ManifoldCw) == Some(true) &&
                LowerTangent(old(Model()), nodes, a.value, b.value, res.value.1, ManifoldCcw) == Some(true)
      ensures res.Some? ==>
                forall lo: nat, mid: nat
                  | Mutual(old(Model()), lo, mid) && Mutual(old(Model()), mid, old(end)) && lo <= tleft < mid <= tright < old(end) ::
                  Mutual(Model(), lo, end)
      ensures res.Some? ==> JoinedAt(old(Model()), nodes, old(end), tleft, tright, res.value.1, res.value.2)
      ensures res.None? ==> end == old(end) && Model() == old(Model())
    {
      var base := FindBaseLREdge(tleft, tright, dim, fuel);
      if base.None? {
        return None;
      }
      var tl, tr := base.value.0, base.value.1;
      JoinWalkedMutual(Model(), end, tleft, tright, tl, tr);
      assert JoinedAt(Model(), nodes, end, tleft, tright, tl, tr);
      var ts := MakeEdge(tl, ManifoldCcw, tr, ManifoldCw);
      return Some((ts, tl, tr));
    }

    /** One round of the merge loop (delaunay.c:727-750): with L at the CCW
        slot of tl and R at the CW slot of tr, submit the left candidate
        (the CW vertex of tl, rotating CCW) and the right candidate (the
        CCW vertex of tr, rotating CW), and choose the side to advance on.
        None where the source would dereference NULL or a walk runs out of
        fuel. */
    method MergeRound(tl: nat, tr: nat, fuel: nat) returns (choice: Option<Accept>)
      requires Valid() && tl < Capacity() && tr < Capacity()
      modifies verts, adj
      ensures Valid() && (Model(), choice) == MergeRoundSpec(old(Model()), nodes, tl, tr, fuel)
    {
      var a, b := verts[Slot(tl, ManifoldCcw)], verts[Slot(tr, ManifoldCw)];
      if a.None? || b.None? {
        return None;
      }
      var vl, vr := nodes[a.value], nodes[b.value];
      var leftOk := SubmitCandidate(tl, ManifoldCw, RotCcw, vl, vr, fuel);
      var rightOk := SubmitCandidate(tr, ManifoldCcw, RotCw, vl, vr, fuel);
      if leftOk.None? || rightOk.None? {
        return None;
      }
      var inside := false;
      if leftOk.value && rightOk.value {
        var c, d := verts[Slot(tl, ManifoldCw)], verts[Slot(tr, ManifoldCcw)];
        if c.None? || d.None? {
          return None;
        }
        inside := InsideOrOnCircle(nodes[d.value], TriangleCircumcircle(vl, vr, nodes[c.value]));
      }
      return Some(MergeChoice(leftOk.value, rightOk.value, inside));
    }

    /** The two accept labels of the merge (delaunay.c:751-760): flip the
        base ghost ts on the chosen side, recompute the circumcircle of the
        triangle the old hull record now completes, and move that side's
        hull record to the one across the flipped side of ts. */
    method Advance(ts: nat, tl: nat, tr: nat, right: bool) returns (ok: bool, tl2: nat, tr2: nat)
      requires Valid() && ts < Capacity() && tl < Capacity() && tr < Capacity()
      modifies verts, adj, circles
      ensures Valid() && tl2 < Capacity() && tr2 < Capacity()
      ensures right ==> tl2 == tl
      ensures !right ==> tr2 == tr
      ensures (Model(), ok, tl2, tr2) == AdvanceMesh(old(Model()), nodes, ts, tl, tr, right)
    {
      tl2, tr2 := tl, tr;
      if right {
        FlipEdge(ts, ManifoldCw, RotCcw);
        ok := RecomputeCircle(tr);
        tr2 := NextManifold(Model(), ts, ManifoldCw);
      } else {
        FlipEdge(ts, ManifoldCcw, RotCw);
        ok := RecomputeCircle(tl);
        tl2 := NextManifold(Model(), ts, ManifoldCcw);
      }
    }

    /** `merge_triangulations(p, tleft, tright, dim)` (delaunay.c:716-761):
        finds the base edge, joins the hulls with `make_edge`, and then
        repeats MergeRound and Advance until neither side offers a
        candidate. The merge takes exactly the two records of its
        `make_edge` and returns the upper base ghost; the pool it leaves is
        the one DelaunayMerge.MergeLoop gives from the pool joined at two
        hull records that DelaunayMerge.JoinedAt describes (the lower common
        tangent, closing the halves into one range), and without a base
        edge nothing changes. */
    method Merge(tleft: nat, tright: nat, dim: nat, fuel: nat) returns (t: Option<nat>)
      requires Valid() && tleft < Capacity() && tright < Capacity() && dim < 2 && end + 2 <= Capacity()
      modifies this, verts, adj, circles
      ensures Valid()
      ensures t.Some? ==> end == old(end) + 2 && t.value == old(end) + 1
      ensures old(end) <= end <= old(end) + 2
      ensures end == old(end) ==> t.None? && Model() == old(Model())
      ensures end != old(end) ==>
                exists ts: nat, tl: nat, tr: nat
                  | ts == old(end) + 1 && tl < Capacity() && tr < Capacity() &&
                    VerticesIn(MakeEdgeMesh(old(Model()), old(end), tl, ManifoldCcw, tr, ManifoldCw), |nodes|) ::
                  JoinedAt(old(Model()), nodes, old(end), tleft, tright, tl, tr) &&
                  (Model(), t) == MergeLoop(MakeEdgeMesh(old(Model()), old(end), tl, ManifoldCcw, tr, ManifoldCw),
                                            nodes, ts, tl, tr, fuel, fuel)
    {
      var start := JoinBase(tleft, tright, dim, fuel);
      if start.None? {
        return None;
      }
      var ts: nat, tl: nat, tr: nat := start.value.0, start.value.1, start.value.2;
      ghost var goal := MergeLoop(Model(), nodes, ts, tl, tr, fuel, fuel);
      ghost var tl0, tr0, mj := tl, tr, Model();
      assert mj == MakeEdgeMesh(old(Model()), old(end), tl0, ManifoldCcw, tr0, ManifoldCw) && VerticesIn(mj, |nodes|);
      var f, done := fuel, false;
      t := None;
      while !done
        invariant Valid() && tl < Capacity() && tr < Capacity() && ts == old(end) + 1 && end == old(end) + 2
        invariant !done ==> MergeLoop(Model(), nodes, ts, tl, tr, fuel, f) == goal
        invariant done ==> (Model(), t) == goal
        decreases f, !done
      {
        done, t, tl, tr, f := MergeStep(ts, tl, tr, fuel, f);
      }
      assert (Model(), t) == MergeLoop(mj, nodes, ts, tl0, tr0, fuel, fuel);
    }

    /** One pass of the loop of `merge_triangulations` (delaunay.c:727-760):
        a round, and the accept label it chooses when the merge is not
        finished and advances are left. When the merge stops, the answer
        is that of MergeLoop from the pool the pass started from; otherwise
        MergeLoop from the pool it leaves, with one advance less, is the
        same as from the pool it started from. */
    method MergeStep(ts: nat, tl: nat, tr: nat, fuel: nat, f: nat) returns (done: bool, t: Option<nat>, tl2: nat, tr2: nat, rest: nat)
      requires Valid() && ts < Capacity() && tl < Capacity() && tr < Capacity()
      modifies verts, adj, circles
      ensures Valid() && tl2 < Capacity() && tr2 < Capacity() && rest <= f
      ensures done ==> (Model(), t) == MergeLoop(old(Model()), nodes, ts, tl, tr, fuel, f)
      ensures !done ==> rest < f && MergeLoop(Model(), nodes, ts, tl2, tr2, fuel, rest) == MergeLoop(old(Model()), nodes, ts, tl, tr, fuel, f)
    {
      ghost var m := Model();
      var choice := MergeRound(tl, tr, fuel);
      if choice.None? || choice.value == Finished || f == 0 {
        return true, (if choice.Some? && choice.value == Finished then Some(ts) else None), tl, tr, f;
      }
      rest := f - 1;
      MergeLoopAdvancesFrom(m, nodes, ts, tl, tr, fuel, f, rest);
      var ok;
      ok, tl2, tr2 := Advance(ts, tl, tr, choice.value == AcceptRight);
      done, t := !ok, None;
    }

    /** The leaves of `build_2dtree` (delaunay.c:855-861): three
        references make a triangle (four records), two make a segment (two
        records). */
    method BuildLeaf(refs: array<nat>, lo: nat, n: nat) returns (t: nat)
      requires Valid() && refs != adj && lo + n <= refs.Length && 2 <= n <= 3
      requires RefsIn(refs[..], |nodes|) && end + 2 * n - 2 <= Capacity()
      modifies this, verts, adj, circles
      ensures Valid() && end == old(end) + 2 * n - 2 && old(end) <= t < end
      ensures n == 3 ==> (Model(), t) == MakeTriangleMesh(old(Model()), nodes, old(end), refs[lo], refs[lo + 1], refs[lo + 2])
      ensures n == 2 ==> t == old(end) && Model() == MakeSegmentMesh(old(Model()), old(end), refs[lo], refs[lo + 1])
      ensures Mutual(Model(), old(end), end)
    {
      if n == 3 {
        MakeTriangleShape(Model(), nodes, end, refs[lo], refs[lo + 1], refs[lo + 2]);
        t := MakeTriangle(refs[lo], refs[lo + 1], refs[lo + 2]);
      } else {
        t := MakeSegment(refs[lo], refs[lo + 1]);
      }
    }

    /** `build_2dtree(p, N, refs, dim)` (delaunay.c:852-877) on the range
        [lo, lo + n) of refs: two or three nodes make a leaf; more are split
        at the median of coordinate `dim` (DelaunayPartition.KPart), both
        halves are built with the other coordinate and then merged. The
        references are only permuted, and a build that completes takes
        exactly 2n - 2 records (DelaunayWalk.TreeBudgetExact). */
    method Build2dTree(refs: array<nat>, lo: nat, n: nat, dim: nat, fuel: nat) returns (t: Option<nat>)
      requires Valid() && refs != adj && lo + n <= refs.Length && 2 <= n && dim < 2
      requires RefsIn(refs[..], |nodes|) && end + 2 * n - 2 <= Capacity()
      modifies this, verts, adj, circles, refs
      ensures Valid() && RefsIn(refs[..], |nodes|) && PermutedWithin(refs[..], old(refs[..]), lo, lo + n)
      ensures old(end) <= end <= old(end) + 2 * n - 2
      ensures t.Some? ==> end == old(end) + 2 * n - 2 && t.value < end
      ensures n <= 3 ==> t.Some? && Mutual(Model(), old(end), end)
      decreases n
    {
      if n <= 3 {
        var r := BuildLeaf(refs, lo, n);
        return Some(r);
      }
      var med, rest := n / 2, (n + 1) / 2;
      HalvesCover(n);
      assert 2 <= med && 2 <= rest && med + rest == n;
      var ns := nodes;
      ghost var r0 := refs[..];
      KPart((r: nat) => Key(ns, r, dim), refs, lo, lo + n, med);
      PermutedRefs(refs[..], r0, lo, lo + n, |nodes|);
      ghost var r1 := refs[..];
      var left := Build2dTree(refs, lo, med, Other(dim), fuel);
      ghost var r2 := refs[..];
      if left.None? {
        PermutedHalves(r0, r1, r2, r2, lo, lo + med, lo + n);
        return None;
      }
      var right := Build2dTree(refs, lo + med, rest, Other(dim), fuel);
      PermutedHalves(r0, r1, r2, refs[..], lo, lo + med, lo + n);
      if right.None? {
        return None;
      }
      t := Merge(left.value, right.value, dim, fuel);
    }
  }

  /** `triangulate(N, nodes)` (delaunay.c:1004-1041): a pool of 2(N - 1)
      records, references 0..N-1 to the nodes, and the tree build over all
      of them; when the build completes it has used every record of the
      pool. The source needs N >= 2 (for N < 2 it reads past the references
      and the pool size wraps around). */
  method Triangulate(nodes: seq<Point>, fuel: nat) returns (p: TrianglePool, t: Option<nat>)
    requires |nodes| >= 2
    ensures fresh(p) && p.Valid() && p.nodes == nodes && p.Capacity() == 2 * (|nodes| - 1)
    ensures t.Some? ==> p.end == p.Capacity() && t.value < p.Capacity()
  {
    var n := |nodes|;
    p := new TrianglePool(nodes, 2 * (n - 1));
    var refs := new nat[n];
    for i := 0 to n
      modifies refs
      invariant forall k | 0 <= k < i :: refs[k] == k
    {
      refs[i] := i;
    }
    t := p.Build2dTree(refs, 0, n, 0, fuel);
  }
}
