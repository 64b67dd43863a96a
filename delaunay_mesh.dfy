/** The triangle pool of the divide-and-conquer triangulation
    (src/proton/delaunay/delaunay.h:41-52) and the record surgery of
    src/proton/delaunay/delaunay.c, stated on immutable values.

    A record `t` of the pool has three vertex slots and three adjacency
    records; they are laid out flat, side `o` of record `t` being slot
    `3 * t + o`. Pointers become indices: a vertex slot holds the index of
    a node or nothing (the NULL of a ghost), and the adjacency record
    `(next, next_side)` of a slot is stored as the slot it is joined to,
    `3 * next + next_side`. The pool class in DelaunayPool changes its
    arrays exactly as these functions say. */
module DelaunayMesh {
  import opened Wrappers
  import opened Geometry

  /** Slot names of a manifold (ghost) triangle (delaunay.c:267-271). */
  const ManifoldCw: nat := 0
  const ManifoldCcw: nat := 1
  const ManifoldIn: nat := 2

  /** Rotation directions (delaunay.c:254-257). */
  const RotCw: int := -1
  const RotCcw: int := 1

  /** C's `!o` on a hull slot: the other one of CW and CCW. */
  function Other(o: nat): (r: nat)
    ensures r < 2
    ensures o < 2 ==> r != o
  {
    if o == 0 then 1 else 0
  }

  /** The flat index of side `o` of record `t`. */
  function Slot(t: nat, o: nat): nat
    requires o < 3
  {
    3 * t + o
  }

  /** An adjacency record `(next, next_side)` as the source spells it. */
  datatype Edge = Edge(next: nat, side: nat)

  /** The pool's records: vertex slots, partner slots and circumcircles. */
  datatype Mesh = Mesh(verts: seq<Option<nat>>, adj: seq<nat>, circles: seq<Circle>)

  /** Number of records. */
  function Count(m: Mesh): nat
  {
    |m.circles|
  }

  predicate Shaped(m: Mesh)
  {
    |m.verts| == 3 * |m.circles| && |m.adj| == 3 * |m.circles|
  }

  /** Every adjacency record names a side of a record of the pool. */
  predicate Linked(m: Mesh)
  {
    Shaped(m) && forall s | 0 <= s < |m.adj| :: m.adj[s] < |m.adj|
  }

  /** Every filled vertex slot names one of the `n` nodes. */
  predicate VerticesIn(m: Mesh, n: nat)
  {
    forall s | 0 <= s < |m.verts| :: m.verts[s].Some? ==> m.verts[s].value < n
  }

  /** The records in [lo, hi) form a closed structure: every side of every
      one of them is joined to a different side of a record in the range,
      and that side is joined back. */
  predicate Mutual(m: Mesh, lo: nat, hi: nat)
  {
    Shaped(m) && lo <= hi <= Count(m) &&
    forall s | 3 * lo <= s < 3 * hi :: 3 * lo <= m.adj[s] < 3 * hi && m.adj[s] != s && m.adj[m.adj[s]] == s
  }

  /** `TRI_VERTEX(t, o)`. */
  function Vertex(m: Mesh, t: nat, o: nat): Option<nat>
    requires Shaped(m) && t < Count(m) && o < 3
  {
    m.verts[Slot(t, o)]
  }

  /** `delaunay_is_manifold_tri` (delaunay.c:1043-1046): a ghost is a
      record whose third vertex slot is empty. */
  predicate IsManifold(m: Mesh, t: nat)
    requires Shaped(m) && t < Count(m)
  {
    Vertex(m, t, ManifoldIn).None?
  }

  /** A slot index names its record and side. */
  lemma SlotParts(t: nat, o: nat)
    requires o < 3
    ensures Slot(t, o) / 3 == t && Slot(t, o) % 3 == o
  {
  }

  /** `next_triangle` (delaunay.c:484-489): the record and side joined to
      side `rot` of `t`. */
  function Next(m: Mesh, t: nat, rot: nat): (e: Edge)
    requires Linked(m) && t < Count(m) && rot < 3
    ensures e.next < Count(m) && e.side < 3 && Slot(e.next, e.side) == m.adj[Slot(t, rot)]
  {
    var s := m.adj[Slot(t, rot)];
    Edge(s / 3, s % 3)
  }

  /** `next_rotate` (delaunay.c:492-496): cross side `rot`, then turn by
      `direction` inside the neighbour. */
  function NextRotate(m: Mesh, t: nat, rot: nat, direction: int): (e: Edge)
    requires Linked(m) && t < Count(m) && rot < 3 && (direction == RotCw || direction == RotCcw)
    ensures e.next < Count(m) && e.side < 3
  {
    var n := Next(m, t, rot);
    Edge(n.next, Rot(n.side, direction))
  }

  function SetVertex(m: Mesh, t: nat, o: nat, v: Option<nat>): (r: Mesh)
    requires Shaped(m) && t < Count(m) && o < 3
    ensures Shaped(r) && r.adj == m.adj && r.circles == m.circles
  {
    m.(verts := m.verts[Slot(t, o) := v])
  }

  /** Writes all three vertex slots of record t. */
  function SetVertices(m: Mesh, t: nat, a: Option<nat>, b: Option<nat>, c: Option<nat>): (r: Mesh)
    requires Shaped(m) && t < Count(m)
    ensures Shaped(r) && r.adj == m.adj && r.circles == m.circles
  {
    m.(verts := m.verts[Slot(t, 0) := a][Slot(t, 1) := b][Slot(t, 2) := c])
  }

  /** Joins slots s1 and s2 to each other. */
  function Join(m: Mesh, s1: nat, s2: nat): (r: Mesh)
    requires Shaped(m) && s1 < |m.adj| && s2 < |m.adj|
    ensures Shaped(r) && r.verts == m.verts && r.circles == m.circles
  {
    m.(adj := m.adj[s1 := s2][s2 := s1])
  }

  /** `retarget_tri(t1, o1, t2, o2)` (delaunay.c:344-351). */
  function Retarget(m: Mesh, t1: nat, o1: nat, t2: nat, o2: nat): (r: Mesh)
    requires Shaped(m) && t1 < Count(m) && t2 < Count(m) && o1 < 3 && o2 < 3
    ensures Shaped(r) && r.verts == m.verts && r.circles == m.circles
  {
    Join(m, Slot(t1, o1), Slot(t2, o2))
  }

  /** `retarget_tri` joins side o1 of t1 and side o2 of t2 to each other
      and changes no other slot; stepping across the joined side twice
      with `next_triangle` comes back. */
  lemma RetargetRoundTrip(m: Mesh, t1: nat, o1: nat, t2: nat, o2: nat)
    requires Linked(m) && t1 < Count(m) && t2 < Count(m) && o1 < 3 && o2 < 3
    ensures var r := Retarget(m, t1, o1, t2, o2);
            Next(r, t2, o2) == Edge(t1, o1) &&
            (Slot(t1, o1) != Slot(t2, o2) ==> Next(r, t1, o1) == Edge(t2, o2)) &&
            (var e := Next(r, t1, o1); Next(r, e.next, e.side) == Edge(t1, o1)) &&
            (forall s | 0 <= s < |m.adj| && s != Slot(t1, o1) && s != Slot(t2, o2) :: r.adj[s] == m.adj[s])
  {
    var r := Retarget(m, t1, o1, t2, o2);
    assert r.adj[Slot(t2, o2)] == Slot(t1, o1);
  }

  /** Records in [lo, hi) stay closed when only the slots of `S` are
      re-joined: `S` lies in [lo, hi2), is closed under the old pairing,
      covers the new records [hi, hi2), and is re-paired among itself
      without self-joins. */
  lemma {:induction false} RepairMutual(m: Mesh, r: Mesh, lo: nat, hi: nat, hi2: nat, S: set<nat>)
    requires Mutual(m, lo, hi) && Shaped(r) && Count(r) == Count(m) && hi <= hi2 <= Count(r)
    requires forall s | s in S :: 3 * lo <= s < 3 * hi2
    requires forall s | s in S && s < 3 * hi :: m.adj[s] in S
    requires forall s | 3 * hi <= s < 3 * hi2 :: s in S
    requires forall s | 3 * lo <= s < 3 * hi && s !in S :: r.adj[s] == m.adj[s]
    requires forall s | s in S :: r.adj[s] in S && r.adj[s] != s && r.adj[r.adj[s]] == s
    ensures Mutual(r, lo, hi2)
  {
    forall s | 3 * lo <= s < 3 * hi2
      ensures 3 * lo <= r.adj[s] < 3 * hi2 && r.adj[s] != s && r.adj[r.adj[s]] == s
    {
      if s !in S {
        if s >= 3 * hi {
          assert false;
        }
        var p := m.adj[s];
        assert p < 3 * hi && m.adj[p] == s;
        if p in S {
          assert false;
        }
      }
    }
  }

  /** `p` pairs the slots of a block of `|p| / 3` records: a
      fixed-point-free involution on its own indices. */
  predicate Pairing(p: seq<nat>)
  {
    |p| % 3 == 0 && forall i | 0 <= i < |p| :: p[i] < |p| && p[i] != i && p[p[i]] == i
  }

  /** The block of records starting at `ts` is joined as `p` says. */
  predicate JoinedAs(m: Mesh, ts: nat, p: seq<nat>)
  {
    Shaped(m) && 3 * ts + |p| <= |m.adj| && forall i | 0 <= i < |p| :: m.adj[3 * ts + i] == 3 * ts + p[i]
  }

  /** A block of four records joined as `p`, shown slot by slot. */
  lemma JoinedAsFour(m: Mesh, ts: nat, p: seq<nat>)
    requires Shaped(m) && 3 * ts + 12 <= |m.adj| && |p| == 12
    requires var s := 3 * ts;
             m.adj[s] == s + p[0] && m.adj[s + 1] == s + p[1] && m.adj[s + 2] == s + p[2] &&
             m.adj[s + 3] == s + p[3] && m.adj[s + 4] == s + p[4] && m.adj[s + 5] == s + p[5] &&
             m.adj[s + 6] == s + p[6] && m.adj[s + 7] == s + p[7] && m.adj[s + 8] == s + p[8] &&
             m.adj[s + 9] == s + p[9] && m.adj[s + 10] == s + p[10] && m.adj[s + 11] == s + p[11]
    ensures JoinedAs(m, ts, p)
  {
    forall i | 0 <= i < 12
      ensures m.adj[3 * ts + i] == 3 * ts + p[i]
    {
      if i < 6 {
        if i == 0 {} else if i == 1 {} else if i == 2 {} else if i == 3 {} else if i == 4 {} else {}
      } else {
        if i == 6 {} else if i == 7 {} else if i == 8 {} else if i == 9 {} else if i == 10 {} else {}
      }
    }
  }

  /** A block joined by a pairing is closed. */
  lemma {:induction false} MutualFromBlock(m: Mesh, ts: nat, p: seq<nat>)
    requires Pairing(p) && JoinedAs(m, ts, p)
    ensures Mutual(m, ts, ts + |p| / 3)
  {
    var hi := ts + |p| / 3;
    forall s | 3 * ts <= s < 3 * hi
      ensures 3 * ts <= m.adj[s] < 3 * hi && m.adj[s] != s && m.adj[m.adj[s]] == s
    {
      var i := s - 3 * ts;
      assert m.adj[3 * ts + i] == 3 * ts + p[i];
      assert m.adj[3 * ts + p[i]] == 3 * ts + p[p[i]];
    }
  }

  // ---------------------------------------------------------------------
  // Leaves: a segment, a real triangle, two collinear segments
  // ---------------------------------------------------------------------

  /** Slots outside [3 * ts, 3 * (ts + k)) and all circles but those of the
      new records keep their contents. */
  predicate Untouched(m: Mesh, r: Mesh, ts: nat, k: nat)
    requires Shaped(m) && Shaped(r) && Count(r) == Count(m)
  {
    (forall s | 0 <= s < |m.verts| && !(3 * ts <= s < 3 * (ts + k)) :: r.verts[s] == m.verts[s] && r.adj[s] == m.adj[s]) &&
    (forall t | 0 <= t < Count(m) && !(ts <= t < ts + k) :: r.circles[t] == m.circles[t])
  }

  /** `make_segment` on reserved records ts, ts+1 (delaunay.c:358-376). */
  function MakeSegmentMesh(m: Mesh, ts: nat, a: nat, b: nat): (r: Mesh)
    requires Shaped(m) && ts + 2 <= Count(m)
    ensures Shaped(r) && Count(r) == Count(m)
  {
    var m1 := SetVertices(SetVertices(m, ts, Some(a), Some(b), None), ts + 1, Some(b), Some(a), None);
    var m2 := Retarget(m1, ts, ManifoldIn, ts + 1, ManifoldIn);
    var m3 := Retarget(m2, ts, ManifoldCw, ts + 1, ManifoldCcw);
    Retarget(m3, ts + 1, ManifoldCw, ts, ManifoldCcw)
  }

  /** Constant joins of the segment leaf. */
  const SegmentJoins: seq<nat> := [4, 3, 5, 1, 0, 2]

  /** The segment joins pair the six slots of the leaf. */
  lemma SegmentPairing()
    ensures Pairing(SegmentJoins)
  {
    forall i | 0 <= i < 6
      ensures SegmentJoins[i] < 6 && SegmentJoins[i] != i && SegmentJoins[SegmentJoins[i]] == i
    {
      assert i == 0 || i == 1 || i == 2 || i == 3 || i == 4 || i == 5;
    }
  }

  /** The two records of a segment are ghosts with swapped endpoints, joined
      IN to IN and CW to CCW both ways; nothing else changes. */
  lemma MakeSegmentShape(m: Mesh, ts: nat, a: nat, b: nat)
    requires Shaped(m) && ts + 2 <= Count(m)
    ensures var r := MakeSegmentMesh(m, ts, a, b);
            var s := 3 * ts;
            r.verts[s..s + 6] == [Some(a), Some(b), None, Some(b), Some(a), None] &&
            JoinedAs(r, ts, SegmentJoins) && Untouched(m, r, ts, 2) && Mutual(r, ts, ts + 2)
  {
    var r := MakeSegmentMesh(m, ts, a, b);
    var s := 3 * ts;
    assert r.adj[s] == s + 4 && r.adj[s + 1] == s + 3 && r.adj[s + 2] == s + 5;
    assert r.adj[s + 3] == s + 1 && r.adj[s + 4] == s && r.adj[s + 5] == s + 2;
    SegmentPairing();
    MutualFromBlock(r, ts, SegmentJoins);
  }


  /** `sort_ccw(v0, &v1, &v2)` (delaunay.c:383-393): the pair `(v1, v2)`,
      swapped when the three are clockwise, and whether they are collinear. */
  function SortCcw(nodes: seq<Point>, v0: nat, v1: nat, v2: nat): (r: (nat, nat, bool))
    requires v0 < |nodes| && v1 < |nodes| && v2 < |nodes|
    ensures r.2 <==> TriangleOrientation(nodes[v0], nodes[v1], nodes[v2]) == 0
    ensures (r.0 == v1 && r.1 == v2) || (r.0 == v2 && r.1 == v1)
    ensures r.2 ==> r.0 == v1 && r.1 == v2
    ensures !r.2 ==> TriangleOrientation(nodes[v0], nodes[r.0], nodes[r.1]) == 1
  {
    var o := TriangleOrientation(nodes[v0], nodes[v1], nodes[v2]);
    if o == -1 then
      OrientationSwap(nodes[v0], nodes[v1], nodes[v2]);
      (v2, v1, false)
    else (v1, v2, o == 0)
  }

  /** The non-collinear branch of `make_triangle` on reserved records
      ts..ts+3 (delaunay.c:450-474): a real triangle `(a, b, c)` in ts,
      one ghost per side, and the real triangle's circumcircle. */
  function RealTriangleMesh(m: Mesh, ts: nat, a: nat, b: nat, c: nat, cc: Circle): (r: Mesh)
    requires Shaped(m) && ts + 4 <= Count(m)
    ensures Shaped(r) && Count(r) == Count(m)
  {
    var m1 := SetVertices(SetVertices(m, ts, Some(a), Some(b), Some(c)), ts + 1, Some(c), Some(b), None);
    var m2 := SetVertices(SetVertices(m1, ts + 2, Some(a), Some(c), None), ts + 3, Some(b), Some(a), None);
    var m3 := Retarget(Retarget(Retarget(m2, ts, 0, ts + 1, ManifoldIn), ts, 1, ts + 2, ManifoldIn), ts, 2, ts + 3, ManifoldIn);
    var m4 := Retarget(Retarget(Retarget(m3, ts + 1, ManifoldCcw, ts + 2, ManifoldCw),
                                ts + 2, ManifoldCcw, ts + 3, ManifoldCw), ts + 3, ManifoldCcw, ts + 1, ManifoldCw);
    m4.(circles := m4.circles[ts := cc])
  }

  /** Joins of the real-triangle leaf: side o of the triangle to IN of
      ghost ts+1+o, CCW of each ghost to CW of the next. */
  const RealTriangleJoins: seq<nat> := [5, 8, 11, 10, 6, 0, 4, 9, 1, 7, 3, 2]

  /** The real-triangle joins pair the twelve slots of the leaf. */
  lemma RealTrianglePairing()
    ensures Pairing(RealTriangleJoins)
  {
    forall i | 0 <= i < 12
      ensures RealTriangleJoins[i] < 12 && RealTriangleJoins[i] != i && RealTriangleJoins[RealTriangleJoins[i]] == i
    {
      assert i == 0 || i == 1 || i == 2 || i == 3 || i == 4 || i == 5 || i == 6 || i == 7 || i == 8 || i == 9 || i == 10 || i == 11;
    }
  }

  lemma RealTriangleJoined(m: Mesh, ts: nat, a: nat, b: nat, c: nat, cc: Circle)
    requires Shaped(m) && ts + 4 <= Count(m)
    ensures JoinedAs(RealTriangleMesh(m, ts, a, b, c, cc), ts, RealTriangleJoins)
  {
    var r := RealTriangleMesh(m, ts, a, b, c, cc);
    var s := 3 * ts;
    assert r.adj[s] == s + 5 && r.adj[s + 1] == s + 8 && r.adj[s + 2] == s + 11;
    assert r.adj[s + 3] == s + 10 && r.adj[s + 4] == s + 6 && r.adj[s + 5] == s;
    assert r.adj[s + 6] == s + 4 && r.adj[s + 7] == s + 9 && r.adj[s + 8] == s + 1;
    assert r.adj[s + 9] == s + 7 && r.adj[s + 10] == s + 3 && r.adj[s + 11] == s + 2;
    JoinedAsFour(r, ts, RealTriangleJoins);
  }

  lemma RealTriangleVertices(m: Mesh, ts: nat, a: nat, b: nat, c: nat, cc: Circle)
    requires Shaped(m) && ts + 4 <= Count(m)
    ensures var r := RealTriangleMesh(m, ts, a, b, c, cc);
            var s := 3 * ts;
            r.verts[s..s + 12] == [Some(a), Some(b), Some(c), Some(c), Some(b), None,
                                   Some(a), Some(c), None, Some(b), Some(a), None] &&
            r.circles[ts] == cc && Untouched(m, r, ts, 4)
  {
  }

  /** The real-triangle leaf closes its four records. */
  lemma RealTriangleMutual(m: Mesh, ts: nat, a: nat, b: nat, c: nat, cc: Circle)
    requires Shaped(m) && ts + 4 <= Count(m)
    ensures Mutual(RealTriangleMesh(m, ts, a, b, c, cc), ts, ts + 4)
  {
    RealTriangleJoined(m, ts, a, b, c, cc);
    RealTrianglePairing();
    MutualFromBlock(RealTriangleMesh(m, ts, a, b, c, cc), ts, RealTriangleJoins);
  }

  /** Read through `next_triangle`, the real-triangle block joins side o of
      the triangle through MANIFOLD_IN to a ghost holding that side's two
      endpoints, and the three ghosts follow each other CCW to CW around
      the hull. */
  lemma RealTriangleGhosts(r: Mesh, ts: nat, a: nat, b: nat, c: nat)
    requires Linked(r) && ts + 4 <= Count(r) && JoinedAs(r, ts, RealTriangleJoins)
    requires r.verts[3 * ts..3 * ts + 12] == [Some(a), Some(b), Some(c), Some(c), Some(b), None,
                                              Some(a), Some(c), None, Some(b), Some(a), None]
    ensures forall o | 0 <= o < 3 ::
              Next(r, ts, o) == Edge(ts + 1 + o, ManifoldIn) &&
              IsManifold(r, ts + 1 + o) &&
              Vertex(r, ts + 1 + o, ManifoldCw) == Vertex(r, ts, Rot(o, RotCw)) &&
              Vertex(r, ts + 1 + o, ManifoldCcw) == Vertex(r, ts, Rot(o, RotCcw)) &&
              Next(r, ts + 1 + o, ManifoldCcw) == Edge(ts + 1 + Rot(o, RotCcw), ManifoldCw)
  {
    forall o | 0 <= o < 3
      ensures Next(r, ts, o) == Edge(ts + 1 + o, ManifoldIn) && IsManifold(r, ts + 1 + o)
      ensures Vertex(r, ts + 1 + o, ManifoldCw) == Vertex(r, ts, Rot(o, RotCw))
      ensures Vertex(r, ts + 1 + o, ManifoldCcw) == Vertex(r, ts, Rot(o, RotCcw))
      ensures Next(r, ts + 1 + o, ManifoldCcw) == Edge(ts + 1 + Rot(o, RotCcw), ManifoldCw)
    {
      RealTriangleGhost(r, ts, a, b, c, o);
    }
  }

  /** RealTriangleGhosts for one side o. */
  lemma RealTriangleGhost(r: Mesh, ts: nat, a: nat, b: nat, c: nat, o: nat)
    requires Linked(r) && ts + 4 <= Count(r) && JoinedAs(r, ts, RealTriangleJoins) && o < 3
    requires r.verts[3 * ts..3 * ts + 12] == [Some(a), Some(b), Some(c), Some(c), Some(b), None,
                                              Some(a), Some(c), None, Some(b), Some(a), None]
    ensures Next(r, ts, o) == Edge(ts + 1 + o, ManifoldIn) && IsManifold(r, ts + 1 + o)
    ensures Vertex(r, ts + 1 + o, ManifoldCw) == Vertex(r, ts, Rot(o, RotCw))
    ensures Vertex(r, ts + 1 + o, ManifoldCcw) == Vertex(r, ts, Rot(o, RotCcw))
    ensures Next(r, ts + 1 + o, ManifoldCcw) == Edge(ts + 1 + Rot(o, RotCcw), ManifoldCw)
  {
    var s := 3 * ts;
    var w := r.verts[s..s + 12];
    if o == 0 {
      assert Rot(o, RotCw) == 2 && Rot(o, RotCcw) == 1;
      assert r.adj[s + 0] == s + RealTriangleJoins[0];
      assert r.adj[s + 4] == s + RealTriangleJoins[4];
      assert r.verts[s + 3] == w[3] && r.verts[s + 4] == w[4] && r.verts[s + 5] == w[5];
      assert r.verts[s + 2] == w[2] && r.verts[s + 1] == w[1];
      SlotParts(ts + 1, ManifoldIn);
      SlotParts(ts + 2, ManifoldCw);
    } else if o == 1 {
      assert Rot(o, RotCw) == 0 && Rot(o, RotCcw) == 2;
      assert r.adj[s + 1] == s + RealTriangleJoins[1];
      assert r.adj[s + 7] == s + RealTriangleJoins[7];
      assert r.verts[s + 6] == w[6] && r.verts[s + 7] == w[7] && r.verts[s + 8] == w[8];
      assert r.verts[s + 0] == w[0] && r.verts[s + 2] == w[2];
      SlotParts(ts + 2, ManifoldIn);
      SlotParts(ts + 3, ManifoldCw);
    } else {
      assert Rot(o, RotCw) == 1 && Rot(o, RotCcw) == 0;
      assert r.adj[s + 2] == s + RealTriangleJoins[2];
      assert r.adj[s + 10] == s + RealTriangleJoins[10];
      assert r.verts[s + 9] == w[9] && r.verts[s + 10] == w[10] && r.verts[s + 11] == w[11];
      assert r.verts[s + 1] == w[1] && r.verts[s + 0] == w[0];
      SlotParts(ts + 3, ManifoldIn);
      SlotParts(ts + 1, ManifoldCw);
    }
  }

  /** The order double_segments evidently means to use: the middle node of
      the collinear triple moved to position 1 (delaunay.c:404-409). */
  function CollinearOrder(nodes: seq<Point>, vs: (nat, nat, nat)): (r: (nat, nat, nat))
    requires vs.0 < |nodes| && vs.1 < |nodes| && vs.2 < |nodes|
    ensures multiset{r.0, r.1, r.2} == multiset{vs.0, vs.1, vs.2}
  {
    var center := CollinearCenter(nodes[vs.0], nodes[vs.1], nodes[vs.2]);
    if center == 0 then (vs.1, vs.0, vs.2)
    else if center == 2 then (vs.0, vs.2, vs.1)
    else vs
  }

  /** The order double_segments uses as written: `vs[center]` is stored
      twice, so the triple is never reordered. */
  function CollinearOrderAsWritten(nodes: seq<Point>, vs: (nat, nat, nat)): (nat, nat, nat)
    requires vs.0 < |nodes| && vs.1 < |nodes| && vs.2 < |nodes|
  {
    vs
  }

  /** With the intended swap, the node shared by the two segments lies
      strictly between the other two, so the segments meet only there. */
  lemma CollinearOrderSharesMiddle(nodes: seq<Point>, vs: (nat, nat, nat))
    requires vs.0 < |nodes| && vs.1 < |nodes| && vs.2 < |nodes|
    requires TriangleOrientation(nodes[vs.0], nodes[vs.1], nodes[vs.2]) == 0
    requires nodes[vs.0] != nodes[vs.1] && nodes[vs.1] != nodes[vs.2] && nodes[vs.0] != nodes[vs.2]
    ensures var r := CollinearOrder(nodes, vs);
            Between(nodes[r.1], nodes[r.0], nodes[r.2])
  {
    var p0, p1, p2 := nodes[vs.0], nodes[vs.1], nodes[vs.2];
    CollinearCenterIsBetween(p0, p1, p2);
    var center := CollinearCenter(p0, p1, p2);
    if center == 0 {
      assert Between(p0, p1, p2);
      assert Dot(Relative(p0, p2), Relative(p0, p1)) == Dot(Relative(p0, p1), Relative(p0, p2));
    } else if center == 2 {
      assert Between(p2, p0, p1);
    }
  }

  /** As written, the collinear triple (0,0), (2,0), (1,0) keeps (2,0) as the
      shared node although (1,0) lies between the others: the two segments
      (0,0)-(2,0) and (2,0)-(1,0) overlap. */
  lemma CollinearOrderAsWrittenOverlaps(nodes: seq<Point>)
    requires nodes == [Point(0.0, 0.0), Point(2.0, 0.0), Point(1.0, 0.0)]
    ensures CollinearOrderAsWritten(nodes, (0, 1, 2)) == (0, 1, 2)
    ensures TriangleOrientation(nodes[0], nodes[1], nodes[2]) == 0
    ensures !Between(nodes[1], nodes[0], nodes[2])
    ensures Between(nodes[2], nodes[0], nodes[1])
  {
    assert nodes[0] == Point(0.0, 0.0) && nodes[1] == Point(2.0, 0.0) && nodes[2] == Point(1.0, 0.0);
    CollinearOnAxis(nodes[0], nodes[1], nodes[2]);
    AxisNotBetween(nodes[1], nodes[0], nodes[2]);
    AxisBetween(nodes[2], nodes[0], nodes[1]);
  }

  lemma AxisNotBetween(p: Point, q: Point, r: Point)
    requires p == Point(2.0, 0.0) && q == Point(0.0, 0.0) && r == Point(1.0, 0.0)
    ensures !Between(p, q, r)
  {
    DotOnAxis(p, q, r);
  }

  lemma AxisBetween(p: Point, q: Point, r: Point)
    requires p == Point(1.0, 0.0) && q == Point(0.0, 0.0) && r == Point(2.0, 0.0)
    ensures Between(p, q, r)
  {
    DotOnAxis(p, q, r);
  }

  /** `double_segments` on reserved records ts..ts+3 after the triple has
      been put in order `(a, b, c)` (delaunay.c:411-435). */
  function DoubleSegmentsMesh(m: Mesh, ts: nat, a: nat, b: nat, c: nat): (r: Mesh)
    requires Shaped(m) && ts + 4 <= Count(m)
    ensures Shaped(r) && Count(r) == Count(m)
  {
    var m1 := SetVertices(SetVertices(m, ts, Some(a), Some(b), None), ts + 1, Some(b), Some(a), None);
    var m2 := SetVertices(SetVertices(m1, ts + 2, Some(c), Some(b), None), ts + 3, Some(b), Some(c), None);
    var m3 := Retarget(Retarget(m2, ts, ManifoldIn, ts + 1, ManifoldIn), ts + 2, ManifoldIn, ts + 3, ManifoldIn);
    var m4 := Retarget(Retarget(m3, ts, ManifoldCcw, ts + 1, ManifoldCw), ts + 1, ManifoldCcw, ts + 2, ManifoldCw);
    Retarget(Retarget(m4, ts + 2, ManifoldCcw, ts + 3, ManifoldCw), ts + 3, ManifoldCcw, ts, ManifoldCw)
  }

  /** Joins of the collinear leaf: IN pairs (ts, ts+1) and (ts+2, ts+3),
      CCW to CW around the cycle ts, ts+1, ts+2, ts+3. */
  const DoubleSegmentsJoins: seq<nat> := [10, 3, 5, 1, 6, 2, 4, 9, 11, 7, 0, 8]

  /** The collinear-leaf joins pair the twelve slots of the leaf. */
  lemma DoubleSegmentsPairing()
    ensures Pairing(DoubleSegmentsJoins)
  {
    forall i | 0 <= i < 12
      ensures DoubleSegmentsJoins[i] < 12 && DoubleSegmentsJoins[i] != i && DoubleSegmentsJoins[DoubleSegmentsJoins[i]] == i
    {
      assert i == 0 || i == 1 || i == 2 || i == 3 || i == 4 || i == 5 || i == 6 || i == 7 || i == 8 || i == 9 || i == 10 || i == 11;
    }
  }

  lemma DoubleSegmentsJoined(m: Mesh, ts: nat, a: nat, b: nat, c: nat)
    requires Shaped(m) && ts + 4 <= Count(m)
    ensures JoinedAs(DoubleSegmentsMesh(m, ts, a, b, c), ts, DoubleSegmentsJoins)
  {
    var m1 := SetVertices(SetVertices(m, ts, Some(a), Some(b), None), ts + 1, Some(b), Some(a), None);
    var m2 := SetVertices(SetVertices(m1, ts + 2, Some(c), Some(b), None), ts + 3, Some(b), Some(c), None);
    var m3 := Retarget(Retarget(m2, ts, ManifoldIn, ts + 1, ManifoldIn), ts + 2, ManifoldIn, ts + 3, ManifoldIn);
    var m4 := Retarget(Retarget(m3, ts, ManifoldCcw, ts + 1, ManifoldCw), ts + 1, ManifoldCcw, ts + 2, ManifoldCw);
    var r := DoubleSegmentsMesh(m, ts, a, b, c);
    assert r == Retarget(Retarget(m4, ts + 2, ManifoldCcw, ts + 3, ManifoldCw), ts + 3, ManifoldCcw, ts, ManifoldCw);
    var s := 3 * ts;
    assert m3.adj[s + 2] == s + 5 && m3.adj[s + 5] == s + 2 && m3.adj[s + 8] == s + 11 && m3.adj[s + 11] == s + 8;
    assert m4.adj[s + 1] == s + 3 && m4.adj[s + 3] == s + 1 && m4.adj[s + 4] == s + 6 && m4.adj[s + 6] == s + 4;
    assert m4.adj[s + 2] == s + 5 && m4.adj[s + 5] == s + 2 && m4.adj[s + 8] == s + 11 && m4.adj[s + 11] == s + 8;
    assert r.adj[s] == s + 10 && r.adj[s + 1] == s + 3 && r.adj[s + 2] == s + 5;
    assert r.adj[s + 3] == s + 1 && r.adj[s + 4] == s + 6 && r.adj[s + 5] == s + 2;
    assert r.adj[s + 6] == s + 4 && r.adj[s + 7] == s + 9 && r.adj[s + 8] == s + 11;
    assert r.adj[s + 9] == s + 7 && r.adj[s + 10] == s && r.adj[s + 11] == s + 8;
    JoinedAsFour(r, ts, DoubleSegmentsJoins);
  }

  /** Four ghosts holding the segments (a, b) and (b, c) both ways round,
      closed among themselves. */
  lemma DoubleSegmentsMutual(m: Mesh, ts: nat, a: nat, b: nat, c: nat)
    requires Shaped(m) && ts + 4 <= Count(m)
    ensures Mutual(DoubleSegmentsMesh(m, ts, a, b, c), ts, ts + 4)
  {
    var r := DoubleSegmentsMesh(m, ts, a, b, c);
    DoubleSegmentsJoined(m, ts, a, b, c);
    DoubleSegmentsPairing();
    MutualFromBlock(r, ts, DoubleSegmentsJoins);
  }

  lemma DoubleSegmentsVertices(m: Mesh, ts: nat, a: nat, b: nat, c: nat)
    requires Shaped(m) && ts + 4 <= Count(m)
    ensures var r := DoubleSegmentsMesh(m, ts, a, b, c);
            var s := 3 * ts;
            r.verts[s..s + 12] == [Some(a), Some(b), None, Some(b), Some(a), None,
                                   Some(c), Some(b), None, Some(b), Some(c), None] &&
            Untouched(m, r, ts, 4)
  {
  }

  /** `make_triangle(p, v0, v1, v2)` on reserved records ts..ts+3
      (delaunay.c:439-477): the leaf built and the record returned. The
      collinear branch uses the reordering `double_segments` evidently
      intends (see CollinearOrder). */
  function MakeTriangleMesh(m: Mesh, nodes: seq<Point>, ts: nat, v0: nat, v1: nat, v2: nat): (r: (Mesh, nat))
    requires Shaped(m) && ts + 4 <= Count(m) && v0 < |nodes| && v1 < |nodes| && v2 < |nodes|
    ensures Shaped(r.0) && Count(r.0) == Count(m)
  {
    var sorted := SortCcw(nodes, v0, v1, v2);
    if sorted.2 then
      var o := CollinearOrder(nodes, (v0, sorted.0, sorted.1));
      (DoubleSegmentsMesh(m, ts, o.0, o.1, o.2), ts)
    else
      var cc := TriangleCircumcircle(nodes[v0], nodes[sorted.0], nodes[sorted.1]);
      (RealTriangleMesh(m, ts, v0, sorted.0, sorted.1, cc), ts + 1)
  }

  /** For three points that are not collinear, `make_triangle` stores a
      counterclockwise real triangle on v0 and the other two in ts, with
      its circumcircle, returns the ghost ts + 1, and closes its four
      records. */
  lemma MakeTriangleCcw(m: Mesh, nodes: seq<Point>, ts: nat, v0: nat, v1: nat, v2: nat)
    requires Shaped(m) && ts + 4 <= Count(m) && v0 < |nodes| && v1 < |nodes| && v2 < |nodes|
    requires TriangleOrientation(nodes[v0], nodes[v1], nodes[v2]) != 0
    ensures var (r, t) := MakeTriangleMesh(m, nodes, ts, v0, v1, v2);
            var a, b := r.verts[3 * ts + 1], r.verts[3 * ts + 2];
            t == ts + 1 && IsManifold(r, t) && r.verts[3 * ts] == Some(v0) &&
            a.Some? && b.Some? && multiset{a.value, b.value} == multiset{v1, v2} &&
            TriangleOrientation(nodes[v0], nodes[a.value], nodes[b.value]) == 1 &&
            r.circles[ts] == TriangleCircumcircle(nodes[v0], nodes[a.value], nodes[b.value]) &&
            Mutual(r, ts, ts + 4)
  {
    var sorted := SortCcw(nodes, v0, v1, v2);
    var cc := TriangleCircumcircle(nodes[v0], nodes[sorted.0], nodes[sorted.1]);
    MakeTriangleIsReal(m, nodes, ts, v0, v1, v2);
    RealTriangleVertices(m, ts, v0, sorted.0, sorted.1, cc);
    RealTriangleMutual(m, ts, v0, sorted.0, sorted.1, cc);
    var r := RealTriangleMesh(m, ts, v0, sorted.0, sorted.1, cc);
    assert r.verts[3 * ts + 5] == r.verts[3 * ts..3 * ts + 12][5];
  }

  /** For three collinear points, `make_triangle` returns ts, whose four
      ghosts hold the segments (o.0, o.1) and (o.1, o.2) of the reordered
      triple o, closed among themselves. */
  lemma MakeTriangleCollinear(m: Mesh, nodes: seq<Point>, ts: nat, v0: nat, v1: nat, v2: nat)
    requires Shaped(m) && ts + 4 <= Count(m) && v0 < |nodes| && v1 < |nodes| && v2 < |nodes|
    requires TriangleOrientation(nodes[v0], nodes[v1], nodes[v2]) == 0
    ensures var (r, t) := MakeTriangleMesh(m, nodes, ts, v0, v1, v2);
            var o, s := CollinearOrder(nodes, (v0, v1, v2)), 3 * ts;
            t == ts &&
            r.verts[s] == Some(o.0) && r.verts[s + 1] == Some(o.1) && r.verts[s + 6] == Some(o.2) &&
            IsManifold(r, ts) && IsManifold(r, ts + 1) && IsManifold(r, ts + 2) && IsManifold(r, ts + 3) &&
            Mutual(r, ts, ts + 4)
  {
    var o := CollinearOrder(nodes, (v0, v1, v2));
    MakeTriangleIsDouble(m, nodes, ts, v0, v1, v2);
    DoubleSegmentsVertices(m, ts, o.0, o.1, o.2);
    DoubleSegmentsMutual(m, ts, o.0, o.1, o.2);
    var r := DoubleSegmentsMesh(m, ts, o.0, o.1, o.2);
    var s := 3 * ts;
    assert r.verts[s] == r.verts[s..s + 12][0] && r.verts[s + 1] == r.verts[s..s + 12][1];
    assert r.verts[s + 6] == r.verts[s..s + 12][6];
    assert r.verts[s + 2] == r.verts[s..s + 12][2] && r.verts[s + 5] == r.verts[s..s + 12][5];
    assert r.verts[s + 8] == r.verts[s..s + 12][8] && r.verts[s + 11] == r.verts[s..s + 12][11];
  }

  /** Every triple leaf is closed on its four records, and for a triple
      not on one line its first record is a counterclockwise real
      triangle. */
  lemma MakeTriangleShape(m: Mesh, nodes: seq<Point>, ts: nat, v0: nat, v1: nat, v2: nat)
    requires Shaped(m) && ts + 4 <= Count(m) && v0 < |nodes| && v1 < |nodes| && v2 < |nodes|
    ensures Mutual(MakeTriangleMesh(m, nodes, ts, v0, v1, v2).0, ts, ts + 4)
    ensures TriangleOrientation(nodes[v0], nodes[v1], nodes[v2]) != 0 ==>
              var (r, t) := MakeTriangleMesh(m, nodes, ts, v0, v1, v2);
              var s := 3 * ts;
              t == ts + 1 && r.verts[s].Some? && r.verts[s + 1].Some? && r.verts[s + 2].Some? &&
              TriangleOrientation(nodes[r.verts[s].value], nodes[r.verts[s + 1].value], nodes[r.verts[s + 2].value]) == 1
  {
    if TriangleOrientation(nodes[v0], nodes[v1], nodes[v2]) != 0 {
      MakeTriangleCcw(m, nodes, ts, v0, v1, v2);
    } else {
      MakeTriangleCollinear(m, nodes, ts, v0, v1, v2);
    }
  }

  /** The collinear branch of MakeTriangleMesh, in one step. */
  lemma MakeTriangleIsDouble(m: Mesh, nodes: seq<Point>, ts: nat, v0: nat, v1: nat, v2: nat)
    requires Shaped(m) && ts + 4 <= Count(m) && v0 < |nodes| && v1 < |nodes| && v2 < |nodes|
    requires TriangleOrientation(nodes[v0], nodes[v1], nodes[v2]) == 0
    ensures var o := CollinearOrder(nodes, (v0, v1, v2));
            MakeTriangleMesh(m, nodes, ts, v0, v1, v2) == (DoubleSegmentsMesh(m, ts, o.0, o.1, o.2), ts)
  {
    var sorted := SortCcw(nodes, v0, v1, v2);
    assert sorted == (v1, v2, true);
  }

  /** The non-collinear branch of MakeTriangleMesh, in one step. */
  lemma MakeTriangleIsReal(m: Mesh, nodes: seq<Point>, ts: nat, v0: nat, v1: nat, v2: nat)
    requires Shaped(m) && ts + 4 <= Count(m) && v0 < |nodes| && v1 < |nodes| && v2 < |nodes|
    requires TriangleOrientation(nodes[v0], nodes[v1], nodes[v2]) != 0
    ensures var sorted := SortCcw(nodes, v0, v1, v2);
            var cc := TriangleCircumcircle(nodes[v0], nodes[sorted.0], nodes[sorted.1]);
            !sorted.2 && MakeTriangleMesh(m, nodes, ts, v0, v1, v2) == (RealTriangleMesh(m, ts, v0, sorted.0, sorted.1, cc), ts + 1)
  {
  }

  // ---------------------------------------------------------------------
  // Splicing: make_edge, flip_edge, swap_sides, validate_manifold
  // ---------------------------------------------------------------------

  /** `make_edge(p, t1, o1, t2, o2)` on reserved records ts, ts+1
      (delaunay.c:602-626): a new segment from vertex o1 of t1 to vertex o2
      of t2 spliced into both hulls. Each adjacency record is read when the
      source reads it, after the splices before it. */
  function MakeEdgeMesh(m: Mesh, ts: nat, t1: nat, o1: nat, t2: nat, o2: nat): (r: Mesh)
    requires Linked(m) && ts + 2 <= Count(m) && t1 < Count(m) && t2 < Count(m) && o1 < 2 && o2 < 2
    ensures Linked(r) && Count(r) == Count(m)
  {
    var m2 := NewSegment(m, ts, Vertex(m, t1, o1), Vertex(m, t2, o2));
    Splice(m2, ts, Slot(t1, Other(o1)), Slot(t2, Other(o2)))
  }

  /** The first writes of `make_edge` (delaunay.c:607-612): the two new
      ghosts hold the segment from v1 to v2 both ways round and are joined
      IN to IN. */
  function NewSegment(m: Mesh, ts: nat, v1: Option<nat>, v2: Option<nat>): (r: Mesh)
    requires Linked(m) && ts + 2 <= Count(m)
    ensures Linked(r) && Count(r) == Count(m)
    ensures forall k | 0 <= k < |m.adj| && k != 3 * ts + 2 && k != 3 * ts + 5 :: r.adj[k] == m.adj[k]
    ensures r.adj[3 * ts + 2] == 3 * ts + 5 && r.adj[3 * ts + 5] == 3 * ts + 2
  {
    var m1 := SetVertices(SetVertices(m, ts, v2, v1, None), ts + 1, v1, v2, None);
    Retarget(m1, ts, ManifoldIn, ts + 1, ManifoldIn)
  }

  /** The splices of `make_edge` (delaunay.c:614-624): CW and CCW of ghost
      ts take the old partners of the cut sides a and b, and b and a are
      joined to CW and CCW of ghost ts + 1. */
  function Splice(m: Mesh, ts: nat, a: nat, b: nat): (r: Mesh)
    requires Linked(m) && ts + 2 <= Count(m) && a < |m.adj| && b < |m.adj|
    ensures Linked(r) && Count(r) == Count(m)
  {
    var m3 := Join(m, Slot(ts, ManifoldCw), m.adj[a]);
    var m4 := Join(m3, Slot(ts, ManifoldCcw), m3.adj[b]);
    var m5 := Join(m4, Slot(ts + 1, ManifoldCw), b);
    Join(m5, Slot(ts + 1, ManifoldCcw), a)
  }

  /** The joins of Splice when a, b and their partners x, y are four
      distinct slots below the new records. */
  lemma SpliceJoins(m: Mesh, ts: nat, a: nat, b: nat)
    requires Linked(m) && ts + 2 <= Count(m) && a < 3 * ts && b < 3 * ts
    requires m.adj[a] < 3 * ts && m.adj[b] < 3 * ts
    requires a != b && m.adj[a] != b && m.adj[a] != a && m.adj[b] != b && m.adj[b] != a && m.adj[a] != m.adj[b]
    ensures var r, x, s := Splice(m, ts, a, b), m.adj[a], 3 * ts;
            r.adj[s] == x && r.adj[x] == s && r.adj[s + 4] == a && r.adj[a] == s + 4
    ensures var r, y, s := Splice(m, ts, a, b), m.adj[b], 3 * ts;
            r.adj[s + 1] == y && r.adj[y] == s + 1 && r.adj[s + 3] == b && r.adj[b] == s + 3
  {
    var s, x, y := 3 * ts, m.adj[a], m.adj[b];
    var m3 := Join(m, Slot(ts, ManifoldCw), m.adj[a]);
    var m4 := Join(m3, Slot(ts, ManifoldCcw), m3.adj[b]);
    var m5 := Join(m4, Slot(ts + 1, ManifoldCw), b);
    var r := Join(m5, Slot(ts + 1, ManifoldCcw), a);
    assert m3.adj[b] == y && m3.adj[s] == x && m3.adj[x] == s;
    assert m4.adj[s + 1] == y && m4.adj[y] == s + 1 && m4.adj[s] == x && m4.adj[x] == s;
    assert m5.adj[s] == x && m5.adj[x] == s && m5.adj[s + 1] == y && m5.adj[y] == s + 1;
    assert r.adj[s] == x && r.adj[x] == s && r.adj[s + 1] == y && r.adj[y] == s + 1;
  }

  /** Splice changes no slot but the four it joins and the partners of a and b. */
  lemma SpliceFrame(m: Mesh, ts: nat, a: nat, b: nat)
    requires Linked(m) && ts + 2 <= Count(m) && a < |m.adj| && b < |m.adj|
    ensures var r, s := Splice(m, ts, a, b), 3 * ts;
            forall k | 0 <= k < |m.adj| && k != a && k != b && k != m.adj[a] && k != m.adj[b] && k != s && k != s + 1 && k != s + 3 && k != s + 4 ::
              r.adj[k] == m.adj[k]
  {
  }

  /** The joins `make_edge` leaves when the two hull sides it cuts are
      distinct and not joined to each other: with a the side !o1 of t1, b
      the side !o2 of t2 and x, y their old partners, the new ghost ts takes
      x and y, ts+1 takes b and a, and their IN sides meet. */
  lemma MakeEdgeJoins(m: Mesh, ts: nat, t1: nat, o1: nat, t2: nat, o2: nat)
    requires Linked(m) && ts + 2 <= Count(m) && t1 < ts && t2 < ts && o1 < 2 && o2 < 2
    requires Slot(t1, Other(o1)) != Slot(t2, Other(o2))
    requires m.adj[Slot(t1, Other(o1))] != Slot(t2, Other(o2))
    requires m.adj[Slot(t1, Other(o1))] < 3 * ts && m.adj[Slot(t2, Other(o2))] < 3 * ts
    requires m.adj[Slot(t1, Other(o1))] != Slot(t1, Other(o1)) && m.adj[Slot(t2, Other(o2))] != Slot(t2, Other(o2))
    requires m.adj[Slot(t2, Other(o2))] != Slot(t1, Other(o1))
    requires m.adj[Slot(t1, Other(o1))] != m.adj[Slot(t2, Other(o2))]
    ensures var r, a := MakeEdgeMesh(m, ts, t1, o1, t2, o2), Slot(t1, Other(o1));
            r.adj[3 * ts] == m.adj[a] && r.adj[m.adj[a]] == 3 * ts && r.adj[3 * ts + 4] == a && r.adj[a] == 3 * ts + 4
    ensures var r, b := MakeEdgeMesh(m, ts, t1, o1, t2, o2), Slot(t2, Other(o2));
            r.adj[3 * ts + 1] == m.adj[b] && r.adj[m.adj[b]] == 3 * ts + 1 && r.adj[3 * ts + 3] == b && r.adj[b] == 3 * ts + 3
    ensures var r := MakeEdgeMesh(m, ts, t1, o1, t2, o2);
            r.adj[3 * ts + 2] == 3 * ts + 5 && r.adj[3 * ts + 5] == 3 * ts + 2
    ensures var r, a, b := MakeEdgeMesh(m, ts, t1, o1, t2, o2), Slot(t1, Other(o1)), Slot(t2, Other(o2));
            forall k | 0 <= k < 3 * ts && k != a && k != b && k != m.adj[a] && k != m.adj[b] :: r.adj[k] == m.adj[k]
  {
    var a, b := Slot(t1, Other(o1)), Slot(t2, Other(o2));
    var m2 := NewSegment(m, ts, Vertex(m, t1, o1), Vertex(m, t2, o2));
    assert m2.adj[a] == m.adj[a] && m2.adj[b] == m.adj[b];
    SpliceJoins(m2, ts, a, b);
    SpliceFrame(m2, ts, a, b);
  }

  /** Re-pairing the sides a, b of a closed range [lo, ts) and their partners
      x, y with the six sides of two new records ts, ts+1 as `make_edge`
      does keeps the grown range closed. */
  lemma {:induction false} SpliceMutual(m: Mesh, r: Mesh, lo: nat, ts: nat, a: nat, b: nat)
    requires Mutual(m, lo, ts) && Shaped(r) && Count(r) == Count(m) && ts + 2 <= Count(m)
    requires 3 * lo <= a < 3 * ts && 3 * lo <= b < 3 * ts && a != b && m.adj[a] != b
    requires var x, y, s := m.adj[a], m.adj[b], 3 * ts;
             r.adj[s] == x && r.adj[x] == s && r.adj[s + 1] == y && r.adj[y] == s + 1 &&
             r.adj[s + 2] == s + 5 && r.adj[s + 5] == s + 2 &&
             r.adj[s + 3] == b && r.adj[b] == s + 3 && r.adj[s + 4] == a && r.adj[a] == s + 4
    requires forall k | 0 <= k < 3 * ts && k != a && k != b && k != m.adj[a] && k != m.adj[b] :: r.adj[k] == m.adj[k]
    ensures Mutual(r, lo, ts + 2)
  {
    var x, y, s := m.adj[a], m.adj[b], 3 * ts;
    assert m.adj[x] == a && m.adj[y] == b;
    forall k | 3 * lo <= k < 3 * (ts + 2)
      ensures 3 * lo <= r.adj[k] < 3 * (ts + 2) && r.adj[k] != k && r.adj[r.adj[k]] == k
    {
      if k >= s || k == a || k == b || k == x || k == y {
      } else {
        var j := m.adj[k];
        assert m.adj[j] == k;
        assert j != a && j != b && j != x && j != y;
      }
    }
  }

  /** `make_edge` keeps the pool closed: if records [lo, ts) were closed,
      [lo, ts + 2) are. */
  lemma {:induction false} MakeEdgeKeepsMutual(m: Mesh, lo: nat, ts: nat, t1: nat, o1: nat, t2: nat, o2: nat)
    requires Mutual(m, lo, ts) && Linked(m) && ts + 2 <= Count(m) && lo <= t1 < ts && lo <= t2 < ts && o1 < 2 && o2 < 2
    requires Slot(t1, Other(o1)) != Slot(t2, Other(o2))
    requires m.adj[Slot(t1, Other(o1))] != Slot(t2, Other(o2))
    ensures Mutual(MakeEdgeMesh(m, ts, t1, o1, t2, o2), lo, ts + 2)
  {
    var a, b := Slot(t1, Other(o1)), Slot(t2, Other(o2));
    assert m.adj[a] < 3 * ts && m.adj[b] < 3 * ts && m.adj[a] != a && m.adj[b] != b;
    assert m.adj[m.adj[a]] == a && m.adj[m.adj[b]] == b;
    assert m.adj[a] != m.adj[b] && m.adj[b] != a;
    MakeEdgeJoins(m, ts, t1, o1, t2, o2);
    SpliceMutual(m, MakeEdgeMesh(m, ts, t1, o1, t2, o2), lo, ts, a, b);
  }

  /** `flip_edge(t, rot, direction)` (delaunay.c:503-514): with t2 the
      record across side rot, t keeps its vertex on the side opposite to
      `direction`, and the edge shared by t and t2 is replaced by the other
      diagonal of the quadrilateral they form. */
  function FlipEdgeMesh(m: Mesh, t: nat, rot: nat, direction: int): (r: Mesh)
    requires Linked(m) && t < Count(m) && rot < 3 && (direction == RotCw || direction == RotCcw)
    ensures Linked(r) && Count(r) == Count(m)
  {
    var n := Next(m, t, rot);
    FlipAt(m, t, rot, n.next, n.side, direction)
  }

  /** The writes of `flip_edge` once the record t2 and side rot2 across side
      rot of t are known. */
  function FlipAt(m: Mesh, t: nat, rot: nat, t2: nat, rot2: nat, direction: int): (r: Mesh)
    requires Linked(m) && t < Count(m) && t2 < Count(m) && rot < 3 && rot2 < 3
    requires direction == RotCw || direction == RotCcw
    ensures Linked(r) && Count(r) == Count(m)
  {
    var m1 := SetVertex(m, t, Rot(rot, direction), Vertex(m, t2, rot2));
    var m2 := SetVertex(m1, t2, Rot(rot2, direction), Vertex(m1, t, rot));
    var back := -direction;
    var m3 := Join(m2, Slot(t, rot), m2.adj[Slot(t2, Rot(rot2, back))]);
    var m4 := Join(m3, Slot(t2, rot2), m3.adj[Slot(t, Rot(rot, back))]);
    Retarget(m4, t, Rot(rot, back), t2, Rot(rot2, back))
  }

  /** The joins of `flip_edge` on six distinct slots: A = (t, rot) and B =
      (t2, rot2) the old edge, Q = (t, rot - direction) and P = (t2, rot2 -
      direction) the sides that now face each other, p and q the old
      partners of P and Q, which move to A and B. */
  lemma FlipAtJoins(m: Mesh, t: nat, rot: nat, t2: nat, rot2: nat, direction: int)
    requires Linked(m) && t < Count(m) && t2 < Count(m) && rot < 3 && rot2 < 3
    requires direction == RotCw || direction == RotCcw
    requires var A, B := Slot(t, rot), Slot(t2, rot2);
             var Q, P := Slot(t, Rot(rot, -direction)), Slot(t2, Rot(rot2, -direction));
             var p, q := m.adj[P], m.adj[Q];
             A != B && P != Q && P != B && Q != A && A != P && B != Q &&
             p != P && q != Q && p != A && q != A && p != B && q != B && p != q && p != Q && q != P
    ensures var r, A := FlipAt(m, t, rot, t2, rot2, direction), Slot(t, rot);
            var P := Slot(t2, Rot(rot2, -direction));
            r.adj[A] == m.adj[P] && r.adj[m.adj[P]] == A
    ensures var r, B := FlipAt(m, t, rot, t2, rot2, direction), Slot(t2, rot2);
            var Q := Slot(t, Rot(rot, -direction));
            r.adj[B] == m.adj[Q] && r.adj[m.adj[Q]] == B
    ensures var r := FlipAt(m, t, rot, t2, rot2, direction);
            var Q, P := Slot(t, Rot(rot, -direction)), Slot(t2, Rot(rot2, -direction));
            r.adj[P] == Q && r.adj[Q] == P
  {
    var A, B := Slot(t, rot), Slot(t2, rot2);
    var Q, P := Slot(t, Rot(rot, -direction)), Slot(t2, Rot(rot2, -direction));
    var p, q := m.adj[P], m.adj[Q];
    var m1 := SetVertex(m, t, Rot(rot, direction), Vertex(m, t2, rot2));
    var m2 := SetVertex(m1, t2, Rot(rot2, direction), Vertex(m1, t, rot));
    var back := -direction;
    var m3 := Join(m2, Slot(t, rot), m2.adj[Slot(t2, Rot(rot2, back))]);
    var m4 := Join(m3, Slot(t2, rot2), m3.adj[Slot(t, Rot(rot, back))]);
    var r := Retarget(m4, t, Rot(rot, back), t2, Rot(rot2, back));
    assert m2.adj == m.adj;
    assert m3.adj[A] == p && m3.adj[p] == A && m3.adj[Q] == q;
    assert m4.adj[A] == p && m4.adj[p] == A && m4.adj[B] == q && m4.adj[q] == B;
    assert r.adj[A] == p && r.adj[p] == A && r.adj[B] == q && r.adj[q] == B;
  }

  /** `flip_edge` changes no adjacency record but those of the old edge
      A, B, of the sides Q, P that come to face each other, and of the old
      partners of P and Q. */
  lemma FlipAtFrame(m: Mesh, t: nat, rot: nat, t2: nat, rot2: nat, direction: int)
    requires Linked(m) && t < Count(m) && t2 < Count(m) && rot < 3 && rot2 < 3
    requires direction == RotCw || direction == RotCcw
    ensures var r := FlipAt(m, t, rot, t2, rot2, direction);
            var A, B := Slot(t, rot), Slot(t2, rot2);
            var Q, P := Slot(t, Rot(rot, -direction)), Slot(t2, Rot(rot2, -direction));
            forall k | 0 <= k < |m.adj| && k != A && k != B && k != P && k != Q && k != m.adj[P] && k != m.adj[Q] ::
              r.adj[k] == m.adj[k]
  {
  }

  /** The joins `flip_edge` leaves in a closed range, read through
      `next_triangle`, when the two records differ and the sides that come
      to face each other were not already joined. */
  lemma FlipEdgeJoins(m: Mesh, lo: nat, hi: nat, t: nat, rot: nat, direction: int)
    requires Mutual(m, lo, hi) && Linked(m) && lo <= t < hi && rot < 3 && (direction == RotCw || direction == RotCcw)
    requires Next(m, t, rot).next != t
    requires var n := Next(m, t, rot);
             m.adj[Slot(n.next, Rot(n.side, -direction))] != Slot(t, Rot(rot, -direction))
    ensures var n, r := Next(m, t, rot), FlipEdgeMesh(m, t, rot, direction);
            var A, B := Slot(t, rot), Slot(n.next, n.side);
            var Q, P := Slot(t, Rot(rot, -direction)), Slot(n.next, Rot(n.side, -direction));
            lo <= n.next < hi && B == m.adj[A] &&
            P != Q && P != A && P != B && Q != A && Q != B && m.adj[P] != Q &&
            r.adj[A] == m.adj[P] && r.adj[m.adj[P]] == A && r.adj[B] == m.adj[Q] && r.adj[m.adj[Q]] == B &&
            r.adj[P] == Q && r.adj[Q] == P &&
            forall k | 0 <= k < |m.adj| && k != A && k != B && k != P && k != Q && k != m.adj[P] && k != m.adj[Q] ::
              r.adj[k] == m.adj[k]
  {
    var n := Next(m, t, rot);
    var t2, rot2 := n.next, n.side;
    var A, B := Slot(t, rot), Slot(t2, rot2);
    var Q, P := Slot(t, Rot(rot, -direction)), Slot(t2, Rot(rot2, -direction));
    var p, q := m.adj[P], m.adj[Q];
    RotInverse(rot, -direction);
    RotInverse(rot2, -direction);
    assert B == m.adj[A] && m.adj[B] == A;
    assert 3 * lo <= B < 3 * hi;
    assert lo <= t2 < hi;
    assert m.adj[p] == P && m.adj[q] == Q && p != P && q != Q;
    assert P != B && Q != A && p != A && q != B && p != q && p != B && q != A;
    FlipAtJoins(m, t, rot, t2, rot2, direction);
    FlipAtFrame(m, t, rot, t2, rot2, direction);
  }

  /** Re-pairing a closed range so that A takes P's old partner, B takes
      Q's, and P and Q meet, where A and B were partners, keeps it closed. */
  lemma {:induction false} CrossMutual(m: Mesh, r: Mesh, lo: nat, hi: nat, A: nat, B: nat, P: nat, Q: nat)
    requires Mutual(m, lo, hi) && Shaped(r) && Count(r) == Count(m)
    requires 3 * lo <= A < 3 * hi && 3 * lo <= P < 3 * hi && 3 * lo <= Q < 3 * hi
    requires B == m.adj[A] && P != Q && P != A && P != B && Q != A && Q != B && m.adj[P] != Q
    requires r.adj[A] == m.adj[P] && r.adj[m.adj[P]] == A && r.adj[B] == m.adj[Q] && r.adj[m.adj[Q]] == B
    requires r.adj[P] == Q && r.adj[Q] == P
    requires forall k | 0 <= k < |m.adj| && k != A && k != B && k != P && k != Q && k != m.adj[P] && k != m.adj[Q] ::
               r.adj[k] == m.adj[k]
    ensures Mutual(r, lo, hi)
  {
    var p, q := m.adj[P], m.adj[Q];
    assert m.adj[B] == A && m.adj[p] == P && m.adj[q] == Q;
    forall k | 3 * lo <= k < 3 * hi
      ensures 3 * lo <= r.adj[k] < 3 * hi && r.adj[k] != k && r.adj[r.adj[k]] == k
    {
      if k == A || k == B || k == P || k == Q || k == p || k == q {
      } else {
        var j := m.adj[k];
        assert m.adj[j] == k;
        assert j != A && j != B && j != P && j != Q && j != p && j != q;
      }
    }
  }

  /** `flip_edge` keeps a closed range closed. */
  lemma {:induction false} FlipEdgeKeepsMutual(m: Mesh, lo: nat, hi: nat, t: nat, rot: nat, direction: int)
    requires Mutual(m, lo, hi) && Linked(m) && lo <= t < hi && rot < 3 && (direction == RotCw || direction == RotCcw)
    requires Next(m, t, rot).next != t
    requires var n := Next(m, t, rot);
             m.adj[Slot(n.next, Rot(n.side, -direction))] != Slot(t, Rot(rot, -direction))
    ensures Mutual(FlipEdgeMesh(m, t, rot, direction), lo, hi)
  {
    var n := Next(m, t, rot);
    var A, B := Slot(t, rot), Slot(n.next, n.side);
    var Q, P := Slot(t, Rot(rot, -direction)), Slot(n.next, Rot(n.side, -direction));
    FlipEdgeJoins(m, lo, hi, t, rot, direction);
    CrossMutual(m, FlipEdgeMesh(m, t, rot, direction), lo, hi, A, B, P, Q);
  }

  /** `swap_sides(t, o1, o2)` (delaunay.c:650-659): sides o1 and o2 of t
      trade their vertices and their partners. */
  function SwapSidesMesh(m: Mesh, t: nat, o1: nat, o2: nat): (r: Mesh)
    requires Linked(m) && t < Count(m) && o1 < 3 && o2 < 3
    ensures Linked(r) && Count(r) == Count(m)
  {
    var v := Vertex(m, t, o1);
    var n := m.adj[Slot(t, o1)];
    var m1 := SetVertex(m, t, o1, Vertex(m, t, o2));
    var m2 := Join(m1, Slot(t, o1), m1.adj[Slot(t, o2)]);
    var m3 := SetVertex(m2, t, o2, v);
    Join(m3, Slot(t, o2), n)
  }

  /** When the two sides are distinct and joined outside t to distinct
      partners x (of o1) and y (of o2), `swap_sides` exchanges the two
      vertices and re-joins o1 to y and o2 to x; nothing else changes. */
  lemma SwapSidesEffect(m: Mesh, t: nat, o1: nat, o2: nat)
    requires Linked(m) && t < Count(m) && o1 < 3 && o2 < 3 && o1 != o2
    requires var x, y := m.adj[Slot(t, o1)], m.adj[Slot(t, o2)];
             x != Slot(t, o1) && x != Slot(t, o2) && y != Slot(t, o1) && y != Slot(t, o2) && x != y
    ensures var r, s1, s2 := SwapSidesMesh(m, t, o1, o2), Slot(t, o1), Slot(t, o2);
            r.verts[s1] == m.verts[s2] && r.verts[s2] == m.verts[s1] &&
            forall k | 0 <= k < |m.verts| && k != s1 && k != s2 :: r.verts[k] == m.verts[k]
    ensures var r, s1, s2 := SwapSidesMesh(m, t, o1, o2), Slot(t, o1), Slot(t, o2);
            var x, y := m.adj[s1], m.adj[s2];
            r.adj[s1] == y && r.adj[s2] == x && r.adj[x] == s2 && r.adj[y] == s1 &&
            forall k | 0 <= k < |m.adj| && k != s1 && k != s2 && k != x && k != y :: r.adj[k] == m.adj[k]
    ensures SwapSidesMesh(m, t, o1, o2).circles == m.circles
  {
  }

  /** Swapping the same two sides twice restores the pool, when the sides'
      partners point back at them. */
  lemma {:induction false} SwapSidesTwice(m: Mesh, t: nat, o1: nat, o2: nat)
    requires Linked(m) && t < Count(m) && o1 < 3 && o2 < 3 && o1 != o2
    requires var x, y := m.adj[Slot(t, o1)], m.adj[Slot(t, o2)];
             x != Slot(t, o1) && x != Slot(t, o2) && y != Slot(t, o1) && y != Slot(t, o2) && x != y &&
             m.adj[x] == Slot(t, o1) && m.adj[y] == Slot(t, o2)
    ensures SwapSidesMesh(SwapSidesMesh(m, t, o1, o2), t, o1, o2) == m
  {
    var r := SwapSidesMesh(m, t, o1, o2);
    SwapSidesEffect(m, t, o1, o2);
    SwapSidesEffect(r, t, o1, o2);
    var r2 := SwapSidesMesh(r, t, o1, o2);
    assert r2.verts == m.verts by {
      forall k | 0 <= k < |m.verts| ensures r2.verts[k] == m.verts[k] { }
    }
    assert r2.adj == m.adj by {
      forall k | 0 <= k < |m.adj| ensures r2.adj[k] == m.adj[k] { }
    }
  }

  /** `swap_sides` keeps a closed range closed. */
  lemma {:induction false} SwapSidesKeepsMutual(m: Mesh, lo: nat, hi: nat, t: nat, o1: nat, o2: nat)
    requires Mutual(m, lo, hi) && Linked(m) && lo <= t < hi && o1 < 3 && o2 < 3 && o1 != o2
    requires m.adj[Slot(t, o1)] != Slot(t, o2)
    ensures Mutual(SwapSidesMesh(m, t, o1, o2), lo, hi)
  {
    var s1, s2 := Slot(t, o1), Slot(t, o2);
    var x, y := m.adj[s1], m.adj[s2];
    assert m.adj[x] == s1 && m.adj[y] == s2 && x != s1 && y != s2;
    assert x != y && y != s1;
    SwapSidesEffect(m, t, o1, o2);
    var r := SwapSidesMesh(m, t, o1, o2);
    forall k | 3 * lo <= k < 3 * hi
      ensures 3 * lo <= r.adj[k] < 3 * hi && r.adj[k] != k && r.adj[r.adj[k]] == k
    {
      if k == s1 || k == s2 || k == x || k == y {
      } else {
        var j := m.adj[k];
        assert m.adj[j] == k;
        assert j != s1 && j != s2 && j != x && j != y;
      }
    }
  }

  /** The first empty vertex slot of t, or 3 when all three are filled. */
  function FirstEmpty(m: Mesh, t: nat): (i: nat)
    requires Shaped(m) && t < Count(m)
    ensures i <= 3
    ensures i < 3 ==> Vertex(m, t, i).None?
    ensures forall k | 0 <= k < i && k < 3 :: Vertex(m, t, k).Some?
  {
    if Vertex(m, t, 0).None? then 0
    else if Vertex(m, t, 1).None? then 1
    else if Vertex(m, t, 2).None? then 2
    else 3
  }

  /** `validate_manifold(t)` (delaunay.c:668-679): rotates a ghost whose
      empty slot is not MANIFOLD_IN until it is. The source's scan runs off
      the record when no slot is empty; the model leaves t as it is then. */
  function ValidateManifoldMesh(m: Mesh, t: nat): (r: Mesh)
    requires Linked(m) && t < Count(m)
    ensures Linked(r) && Count(r) == Count(m)
  {
    var i := FirstEmpty(m, t);
    if i >= ManifoldIn then m
    else SwapSidesMesh(SwapSidesMesh(m, t, i, ManifoldIn), t, i, Other(i))
  }

  /** No side of t is joined to a side of t itself. */
  predicate JoinedOutside(m: Mesh, t: nat)
    requires Linked(m) && t < Count(m)
  {
    forall k | 0 <= k < 3 :: !(3 * t <= m.adj[Slot(t, k)] < 3 * t + 3)
  }

  /** `validate_manifold` on a ghost whose empty slot is 0 and whose sides
      are joined outside it: the record turns one step (so the orientation
      of its vertices is kept), vertex and partner k taking those of side
      k + 1; the empty slot ends at MANIFOLD_IN and a closed range stays
      closed. */
  lemma {:induction false} ValidateFromCw(m: Mesh, lo: nat, hi: nat, t: nat)
    requires Mutual(m, lo, hi) && Linked(m) && lo <= t < hi && JoinedOutside(m, t)
    requires FirstEmpty(m, t) == 0
    ensures var r, s := ValidateManifoldMesh(m, t), 3 * t;
            Mutual(r, lo, hi) && IsManifold(r, t) &&
            r.verts[s] == m.verts[s + 1] && r.verts[s + 1] == m.verts[s + 2] && r.verts[s + 2] == m.verts[s + 0] &&
            r.adj[s] == m.adj[s + 1] && r.adj[s + 1] == m.adj[s + 2] && r.adj[s + 2] == m.adj[s + 0]
  {
    var s0, s1, s2 := 3 * t, 3 * t + 1, 3 * t + 2;
    var x0, x1, x2 := m.adj[s0], m.adj[s1], m.adj[s2];
    assert m.adj[x0] == s0 && m.adj[x1] == s1 && m.adj[x2] == s2;
    assert x0 != x1 && x1 != x2 && x0 != x2;
    var m1 := SwapSidesMesh(m, t, 0, ManifoldIn);
    SwapSidesEffect(m, t, 0, ManifoldIn);
    SwapSidesKeepsMutual(m, lo, hi, t, 0, ManifoldIn);
    assert m1.verts[s0] == m.verts[s2] && m1.verts[s1] == m.verts[s1] && m1.verts[s2] == m.verts[s0];
    assert m1.adj[s0] == x2 && m1.adj[s1] == x1 && m1.adj[s2] == x0;
    SwapSidesEffect(m1, t, 0, 1);
    SwapSidesKeepsMutual(m1, lo, hi, t, 0, 1);
  }

  /** The same when the empty slot is 1: the record turns one step back,
      vertex and partner k taking those of side k - 1. */
  lemma {:induction false} ValidateFromCcw(m: Mesh, lo: nat, hi: nat, t: nat)
    requires Mutual(m, lo, hi) && Linked(m) && lo <= t < hi && JoinedOutside(m, t)
    requires FirstEmpty(m, t) == 1
    ensures var r, s := ValidateManifoldMesh(m, t), 3 * t;
            Mutual(r, lo, hi) && IsManifold(r, t) &&
            r.verts[s] == m.verts[s + 2] && r.verts[s + 1] == m.verts[s + 0] && r.verts[s + 2] == m.verts[s + 1] &&
            r.adj[s] == m.adj[s + 2] && r.adj[s + 1] == m.adj[s + 0] && r.adj[s + 2] == m.adj[s + 1]
  {
    var s0, s1, s2 := 3 * t, 3 * t + 1, 3 * t + 2;
    var x0, x1, x2 := m.adj[s0], m.adj[s1], m.adj[s2];
    assert m.adj[x0] == s0 && m.adj[x1] == s1 && m.adj[x2] == s2;
    assert x0 != x1 && x1 != x2 && x0 != x2;
    var m1 := SwapSidesMesh(m, t, 1, ManifoldIn);
    SwapSidesEffect(m, t, 1, ManifoldIn);
    SwapSidesKeepsMutual(m, lo, hi, t, 1, ManifoldIn);
    assert m1.verts[s0] == m.verts[s0] && m1.verts[s1] == m.verts[s2] && m1.verts[s2] == m.verts[s1];
    assert m1.adj[s0] == x0 && m1.adj[s1] == x2 && m1.adj[s2] == x1;
    SwapSidesEffect(m1, t, 1, 0);
    SwapSidesKeepsMutual(m1, lo, hi, t, 1, 0);
  }
}
