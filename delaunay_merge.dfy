/** The merge step of src/proton/delaunay/delaunay.c stated on the pool as
    a value: what `submit_candidate`, one round of `merge_triangulations`,
    its two accept labels and the whole merge loop leave behind. The
    methods of DelaunayPool.TrianglePool are proved to leave exactly these
    pools. Like the walks of DelaunayWalk, every loop carries a fuel bound
    and answers None where the source would dereference NULL. */
module DelaunayMerge {
  import opened Wrappers
  import opened Geometry
  import opened DelaunayMesh
  import opened DelaunayWalk

  // ---------------------------------------------------------------------
  // What the record surgery keeps
  // ---------------------------------------------------------------------

  /** `flip_edge` only copies vertices between the two records, so every
      vertex still names a node, and it leaves the circumcircles alone. */
  lemma FlipEdgeKeeps(m: Mesh, n: nat, t: nat, rot: nat, direction: int)
    requires Linked(m) && VerticesIn(m, n) && t < Count(m) && rot < 3 && (direction == RotCw || direction == RotCcw)
    ensures VerticesIn(FlipEdgeMesh(m, t, rot, direction), n)
    ensures FlipEdgeMesh(m, t, rot, direction).circles == m.circles
  {
    var e := Next(m, t, rot);
    var m1 := SetVertex(m, t, Rot(rot, direction), Vertex(m, e.next, e.side));
    assert VerticesIn(m1, n);
    var m2 := SetVertex(m1, e.next, Rot(e.side, direction), Vertex(m1, t, rot));
    assert VerticesIn(m2, n);
  }

  /** `swap_sides` exchanges two vertices of one record: the same keeps. */
  lemma SwapSidesKeeps(m: Mesh, n: nat, t: nat, o1: nat, o2: nat)
    requires Linked(m) && VerticesIn(m, n) && t < Count(m) && o1 < 3 && o2 < 3
    ensures VerticesIn(SwapSidesMesh(m, t, o1, o2), n)
    ensures SwapSidesMesh(m, t, o1, o2).circles == m.circles
  {
    var m1 := SetVertex(m, t, o1, Vertex(m, t, o2));
    assert VerticesIn(m1, n);
  }

  /** `validate_manifold` is at most two side swaps: the same keeps. */
  lemma ValidateKeeps(m: Mesh, n: nat, t: nat)
    requires Linked(m) && VerticesIn(m, n) && t < Count(m)
    ensures VerticesIn(ValidateManifoldMesh(m, t), n)
    ensures ValidateManifoldMesh(m, t).circles == m.circles
  {
    var i := FirstEmpty(m, t);
    if i < ManifoldIn {
      SwapSidesKeeps(m, n, t, i, ManifoldIn);
      SwapSidesKeeps(SwapSidesMesh(m, t, i, ManifoldIn), n, t, i, Other(i));
    }
  }

  // ---------------------------------------------------------------------
  // submit_candidate
  // ---------------------------------------------------------------------

  /** The body of the loop of `submit_candidate` (delaunay.c:704-706) once
      the candidate collides: flip the IN edge of tedge and validate the
      ghost that was across it. */
  function SubmitFlip(m: Mesh, tedge: nat, direction: int): (r: Mesh)
    requires Linked(m) && tedge < Count(m) && (direction == RotCw || direction == RotCcw)
    ensures Linked(r) && Count(r) == Count(m)
  {
    var other := NextManifold(m, tedge, ManifoldIn);
    ValidateManifoldMesh(FlipEdgeMesh(m, tedge, ManifoldIn, direction), other)
  }

  /** What one pass of the loop of `submit_candidate` (delaunay.c:697-710)
      finds at the candidate slot. */
  datatype Verdict = Missing | Refused | Accepted | Collides

  /** The tests of one pass: no candidate (where the source would
      dereference NULL), a candidate strictly to the right of L -> R, one
      whose circle through L and R holds no next candidate, or one that
      collides. */
  function SubmitVerdict(m: Mesh, nodes: seq<Point>, tedge: nat, rot: nat, direction: int, l: Point, r: Point): (v: Verdict)
    requires Linked(m) && VerticesIn(m, |nodes|) && tedge < Count(m) && rot < 3
    requires direction == RotCw || direction == RotCcw
  {
    match VertexPoint(m, nodes, tedge, rot)
    case None => Missing
    case Some(c) =>
      if TriangleOrientation(l, r, c) < 0 then Refused
      else if !CandidateCollision(m, nodes, tedge, TriangleCircumcircle(l, r, c), direction) then Accepted
      else Collides
  }

  /** A verdict other than Missing means the candidate is present; Refused
      means it lies strictly to the right of L -> R, Accepted that it lies
      to the left of or on it and does not collide. */
  lemma SubmitVerdictMeaning(m: Mesh, nodes: seq<Point>, tedge: nat, rot: nat, direction: int, l: Point, r: Point)
    requires Linked(m) && VerticesIn(m, |nodes|) && tedge < Count(m) && rot < 3
    requires direction == RotCw || direction == RotCcw
    ensures var v, c := SubmitVerdict(m, nodes, tedge, rot, direction, l, r), VertexPoint(m, nodes, tedge, rot);
            (v == Missing <==> c.None?) &&
            (v == Refused ==> SignedArea(l, r, c.value) < 0.0) &&
            (v == Accepted ==>
               SignedArea(l, r, c.value) >= 0.0 &&
               !CandidateCollision(m, nodes, tedge, TriangleCircumcircle(l, r, c.value), direction))
  {
    var c := VertexPoint(m, nodes, tedge, rot);
    if c.Some? {
      OrientationIsSignedArea(l, r, c.value);
    }
  }

  /** `submit_candidate(tedge, rot, direction, vl, vr)` (delaunay.c:692-712)
      with at most `fuel` flips: the pool left and the answer, None where
      the candidate slot is empty or the fuel runs out. */
  function SubmitLoop(m: Mesh, nodes: seq<Point>, tedge: nat, rot: nat, direction: int, l: Point, r: Point, fuel: nat): (res: (Mesh, Option<bool>))
    requires Linked(m) && VerticesIn(m, |nodes|) && tedge < Count(m) && rot < 3
    requires direction == RotCw || direction == RotCcw
    ensures Linked(res.0) && VerticesIn(res.0, |nodes|) && Count(res.0) == Count(m)
    ensures res.0.circles == m.circles
    ensures res.1 == Some(true) ==> SubmitVerdict(res.0, nodes, tedge, rot, direction, l, r) == Accepted
    ensures res.1 == Some(false) ==> SubmitVerdict(res.0, nodes, tedge, rot, direction, l, r) == Refused
    decreases fuel
  {
    match SubmitVerdict(m, nodes, tedge, rot, direction, l, r)
    case Missing => (m, None)
    case Refused => (m, Some(false))
    case Accepted => (m, Some(true))
    case Collides =>
      if fuel == 0 then (m, None)
      else
        FlipEdgeKeeps(m, |nodes|, tedge, ManifoldIn, direction);
        ValidateKeeps(FlipEdgeMesh(m, tedge, ManifoldIn, direction), |nodes|, NextManifold(m, tedge, ManifoldIn));
        SubmitLoop(SubmitFlip(m, tedge, direction), nodes, tedge, rot, direction, l, r, fuel - 1)
  }

  /** Without a collision to flip, or without fuel, the submission leaves
      the pool alone and answers the verdict. */
  lemma SubmitStops(m: Mesh, nodes: seq<Point>, tedge: nat, rot: nat, direction: int, l: Point, r: Point, fuel: nat)
    requires Linked(m) && VerticesIn(m, |nodes|) && tedge < Count(m) && rot < 3
    requires direction == RotCw || direction == RotCcw
    requires SubmitVerdict(m, nodes, tedge, rot, direction, l, r) != Collides || fuel == 0
    ensures var v := SubmitVerdict(m, nodes, tedge, rot, direction, l, r);
            SubmitLoop(m, nodes, tedge, rot, direction, l, r, fuel) ==
              (m, if v == Accepted then Some(true) else if v == Refused then Some(false) else None)
  {
  }

  /** A collision with fuel left flips once and carries on with one flip
      less from the pool the flip leaves. */
  lemma SubmitFlips(m: Mesh, nodes: seq<Point>, tedge: nat, rot: nat, direction: int, l: Point, r: Point, rest: nat)
    requires Linked(m) && VerticesIn(m, |nodes|) && tedge < Count(m) && rot < 3
    requires direction == RotCw || direction == RotCcw
    requires SubmitVerdict(m, nodes, tedge, rot, direction, l, r) == Collides
    ensures VerticesIn(SubmitFlip(m, tedge, direction), |nodes|)
    ensures SubmitLoop(m, nodes, tedge, rot, direction, l, r, rest + 1) ==
            SubmitLoop(SubmitFlip(m, tedge, direction), nodes, tedge, rot, direction, l, r, rest)
  {
    FlipEdgeKeeps(m, |nodes|, tedge, ManifoldIn, direction);
    ValidateKeeps(FlipEdgeMesh(m, tedge, ManifoldIn, direction), |nodes|, NextManifold(m, tedge, ManifoldIn));
  }

  /** The same step seen from the pool m2 the flip left and the fuel
      `fuel` it started with. */
  lemma SubmitFlipsTo(m: Mesh, m2: Mesh, nodes: seq<Point>, tedge: nat, rot: nat, direction: int, l: Point, r: Point, fuel: nat, rest: nat)
    requires Linked(m) && VerticesIn(m, |nodes|) && tedge < Count(m) && rot < 3
    requires direction == RotCw || direction == RotCcw
    requires SubmitVerdict(m, nodes, tedge, rot, direction, l, r) == Collides && rest + 1 == fuel
    requires m2 == SubmitFlip(m, tedge, direction)
    ensures VerticesIn(m2, |nodes|)
    ensures SubmitLoop(m, nodes, tedge, rot, direction, l, r, fuel) == SubmitLoop(m2, nodes, tedge, rot, direction, l, r, rest)
  {
    SubmitFlips(m, nodes, tedge, rot, direction, l, r, rest);
  }

  /** What the answer of `submit_candidate` means on the pool it leaves: an
      accepted candidate is present, lies to the left of or on L -> R and
      has no collision; a refused one is present and lies strictly to the
      right. The flips change no circumcircle. */
  lemma SubmitLoopAnswer(m: Mesh, nodes: seq<Point>, tedge: nat, rot: nat, direction: int, l: Point, r: Point, fuel: nat)
    requires Linked(m) && VerticesIn(m, |nodes|) && tedge < Count(m) && rot < 3
    requires direction == RotCw || direction == RotCcw
    ensures var (m2, ok) := SubmitLoop(m, nodes, tedge, rot, direction, l, r, fuel);
            var c := VertexPoint(m2, nodes, tedge, rot);
            m2.circles == m.circles &&
            (ok == Some(true) ==>
               c.Some? && SignedArea(l, r, c.value) >= 0.0 &&
               !CandidateCollision(m2, nodes, tedge, TriangleCircumcircle(l, r, c.value), direction)) &&
            (ok == Some(false) ==> c.Some? && SignedArea(l, r, c.value) < 0.0)
  {
    var (m2, ok) := SubmitLoop(m, nodes, tedge, rot, direction, l, r, fuel);
    SubmitVerdictMeaning(m2, nodes, tedge, rot, direction, l, r);
  }

  // ---------------------------------------------------------------------
  // One round of merge_triangulations
  // ---------------------------------------------------------------------

  /** One round of the merge loop (delaunay.c:727-750): with L at the CCW
      slot of tl and R at the CW slot of tr, submit the left candidate (the
      CW vertex of tl, rotating CCW), then the right one (the CCW vertex of
      tr, rotating CW), and choose with MergeChoice; the circle test reads
      both candidates on the pool the two submissions leave.

      What the choice means, with L and R read before the round, the left
      candidate read on the pool the left submission leaves and the other
      candidates on the pool the round leaves: the merge finishes only when
      both candidates lie strictly to the right of L -> R; it accepts the
      right candidate only when that one lies to the left of or on L -> R
      and has no collision; and it accepts the left candidate only when
      that one lies to the left of or on L -> R with no collision, and the
      right one lies strictly to the right of L -> R or strictly outside
      the circle through L, R and the left candidate. The round changes no
      circle. */
  function MergeRoundSpec(m: Mesh, nodes: seq<Point>, tl: nat, tr: nat, fuel: nat): (res: (Mesh, Option<Accept>))
    requires Linked(m) && VerticesIn(m, |nodes|) && tl < Count(m) && tr < Count(m)
    ensures Linked(res.0) && VerticesIn(res.0, |nodes|) && Count(res.0) == Count(m)
    ensures res.0.circles == m.circles
    ensures var vl, vr := VertexPoint(m, nodes, tl, ManifoldCcw), VertexPoint(m, nodes, tr, ManifoldCw);
            var c, d := VertexPoint(res.0, nodes, tl, ManifoldCw), VertexPoint(res.0, nodes, tr, ManifoldCcw);
            (res.1.Some? ==> vl.Some? && vr.Some? && d.Some?) &&
            (res.1 == Some(Finished) ==> SignedArea(vl.value, vr.value, d.value) < 0.0) &&
            (res.1 == Some(AcceptRight) ==>
               SignedArea(vl.value, vr.value, d.value) >= 0.0 &&
               !CandidateCollision(res.0, nodes, tr, TriangleCircumcircle(vl.value, vr.value, d.value), RotCw)) &&
            (res.1 == Some(AcceptLeft) ==>
               SignedArea(vl.value, vr.value, d.value) < 0.0 ||
               (c.Some? && !InsideOrOnCircle(d.value, TriangleCircumcircle(vl.value, vr.value, c.value))))
    ensures res.1.Some? ==>
              var vl, vr := VertexPoint(m, nodes, tl, ManifoldCcw).value, VertexPoint(m, nodes, tr, ManifoldCw).value;
              var m1 := SubmitLoop(m, nodes, tl, ManifoldCw, RotCcw, vl, vr, fuel).0;
              var c1 := VertexPoint(m1, nodes, tl, ManifoldCw);
              (res.1.value == Finished ==> c1.Some? && SignedArea(vl, vr, c1.value) < 0.0) &&
              (res.1.value == AcceptLeft ==>
                 c1.Some? && SignedArea(vl, vr, c1.value) >= 0.0 &&
                 !CandidateCollision(m1, nodes, tl, TriangleCircumcircle(vl, vr, c1.value), RotCcw))
  {
    match (VertexPoint(m, nodes, tl, ManifoldCcw), VertexPoint(m, nodes, tr, ManifoldCw))
    case (Some(vl), Some(vr)) =>
      SubmitLoopAnswer(m, nodes, tl, ManifoldCw, RotCcw, vl, vr, fuel);
      var (m1, left) := SubmitLoop(m, nodes, tl, ManifoldCw, RotCcw, vl, vr, fuel);
      SubmitLoopAnswer(m1, nodes, tr, ManifoldCcw, RotCw, vl, vr, fuel);
      var (m2, right) := SubmitLoop(m1, nodes, tr, ManifoldCcw, RotCw, vl, vr, fuel);
      if left.None? || right.None? then (m2, None)
      else if left.value && right.value then
        match (VertexPoint(m2, nodes, tl, ManifoldCw), VertexPoint(m2, nodes, tr, ManifoldCcw))
        case (Some(c), Some(d)) =>
          var inside := InsideOrOnCircle(d, TriangleCircumcircle(vl, vr, c));
          MergeChoiceMeaning(true, true, inside);
          (m2, Some(MergeChoice(true, true, inside)))
        case _ => (m2, None)
      else
        MergeChoiceMeaning(left.value, right.value, false);
        (m2, Some(MergeChoice(left.value, right.value, false)))
    case _ => (m, None)
  }

  // ---------------------------------------------------------------------
  // The accept labels
  // ---------------------------------------------------------------------

  /** The circumcircle update of an accept label (delaunay.c:753, 758):
      record u gets the circle through its three nodes; with a vertex
      missing, where the source would dereference NULL, nothing changes
      and the answer is false. */
  function Recircle(m: Mesh, nodes: seq<Point>, u: nat): (res: (Mesh, bool))
    requires Linked(m) && VerticesIn(m, |nodes|) && u < Count(m)
    ensures Linked(res.0) && VerticesIn(res.0, |nodes|) && Count(res.0) == Count(m)
    ensures res.0.verts == m.verts && res.0.adj == m.adj
  {
    match (VertexPoint(m, nodes, u, 0), VertexPoint(m, nodes, u, 1), VertexPoint(m, nodes, u, 2))
    case (Some(a), Some(b), Some(c)) => (m.(circles := m.circles[u := TriangleCircumcircle(a, b, c)]), true)
    case _ => (m, false)
  }

  /** `merge_accept_right` and `merge_accept_left` (delaunay.c:751-760):
      flip side CW (right) or CCW (left) of the base ghost ts, recompute
      the circle of that side's old hull record, and move that side's hull
      record to the one across the flipped side of ts. Answers the pool,
      whether the circle could be computed, and the new tl and tr. */
  function AdvanceMesh(m: Mesh, nodes: seq<Point>, ts: nat, tl: nat, tr: nat, right: bool): (res: (Mesh, bool, nat, nat))
    requires Linked(m) && VerticesIn(m, |nodes|) && ts < Count(m) && tl < Count(m) && tr < Count(m)
    ensures Linked(res.0) && VerticesIn(res.0, |nodes|) && Count(res.0) == Count(m)
    ensures res.2 < Count(m) && res.3 < Count(m)
  {
    var side, direction, u := if right then ManifoldCw else ManifoldCcw, if right then RotCcw else RotCw, if right then tr else tl;
    FlipEdgeKeeps(m, |nodes|, ts, side, direction);
    var (m2, ok) := Recircle(FlipEdgeMesh(m, ts, side, direction), nodes, u);
    var next := NextManifold(m2, ts, side);
    (m2, ok, if right then tl else next, if right then next else tr)
  }

  /** An accept label keeps a closed range closed when its flip does (the
      flip's side conditions of DelaunayMesh.FlipEdgeKeepsMutual), keeps
      the other side's hull record, and moves the accepted side's hull
      record to a record of the range. */
  lemma AdvanceKeepsMutual(m: Mesh, nodes: seq<Point>, lo: nat, hi: nat, ts: nat, tl: nat, tr: nat, right: bool)
    requires Linked(m) && VerticesIn(m, |nodes|) && Mutual(m, lo, hi) && lo <= ts < hi && tl < Count(m) && tr < Count(m)
    requires var side, direction := if right then ManifoldCw else ManifoldCcw, if right then RotCcw else RotCw;
             var n := Next(m, ts, side);
             n.next != ts && m.adj[Slot(n.next, Rot(n.side, -direction))] != Slot(ts, Rot(side, -direction))
    ensures var (m2, ok, tl2, tr2) := AdvanceMesh(m, nodes, ts, tl, tr, right);
            Mutual(m2, lo, hi) &&
            (right ==> tl2 == tl && lo <= tr2 < hi) && (!right ==> tr2 == tr && lo <= tl2 < hi)
  {
    var side, direction, u := if right then ManifoldCw else ManifoldCcw, if right then RotCcw else RotCw, if right then tr else tl;
    FlipEdgeKeepsMutual(m, lo, hi, ts, side, direction);
    var f := FlipEdgeMesh(m, ts, side, direction);
    FlipEdgeKeeps(m, |nodes|, ts, side, direction);
    var m2 := Recircle(f, nodes, u).0;
    assert Mutual(m2, lo, hi);
    NextManifoldStays(m2, lo, hi, ts, side);
  }

  // ---------------------------------------------------------------------
  // The merge loop
  // ---------------------------------------------------------------------

  /** The loop of `merge_triangulations` (delaunay.c:727-760) from the base
      ghost ts and the hull records tl and tr, with at most `f` advances
      and `fuel` flips per submission: the pool left and the ghost
      returned, None where a round fails or the budget runs out.

      A merge that completes returns its base ghost, and it ends on a round
      that found no candidate on either side: for some hull records tl',
      tr' and the pool mm that round started from, the pool left is what
      that round leaves, so (MergeRoundSpec) its right candidate lies
      strictly to the right of the base edge it read. */
  function MergeLoop(m: Mesh, nodes: seq<Point>, ts: nat, tl: nat, tr: nat, fuel: nat, f: nat): (res: (Mesh, Option<nat>))
    requires Linked(m) && VerticesIn(m, |nodes|) && ts < Count(m) && tl < Count(m) && tr < Count(m)
    ensures Linked(res.0) && VerticesIn(res.0, |nodes|) && Count(res.0) == Count(m)
    ensures res.1.Some? ==>
              res.1.value == ts &&
              exists mm: Mesh, tl': nat, tr': nat
                | Linked(mm) && VerticesIn(mm, |nodes|) && tl' < Count(mm) && tr' < Count(mm) ::
                MergeRoundSpec(mm, nodes, tl', tr', fuel) == (res.0, Some(Finished))
    decreases f
  {
    var (m1, choice) := MergeRoundSpec(m, nodes, tl, tr, fuel);
    if choice.None? then (m1, None)
    else if choice.value == Finished then
      assert MergeRoundSpec(m, nodes, tl, tr, fuel) == (m1, Some(Finished));
      (m1, Some(ts))
    else if f == 0 then (m1, None)
    else
      var (m2, ok, tl2, tr2) := AdvanceMesh(m1, nodes, ts, tl, tr, choice.value == AcceptRight);
      if !ok then (m2, None)
      else MergeLoop(m2, nodes, ts, tl2, tr2, fuel, f - 1)
  }

  /** A round that chose a side, with advances left, advances on that
      side; the merge goes on from the pool the accept label leaves with
      one advance less, unless the label fails. */
  lemma MergeLoopAdvances(m: Mesh, nodes: seq<Point>, ts: nat, tl: nat, tr: nat, fuel: nat, rest: nat)
    requires Linked(m) && VerticesIn(m, |nodes|) && ts < Count(m) && tl < Count(m) && tr < Count(m)
    requires MergeRoundSpec(m, nodes, tl, tr, fuel).1.Some? && MergeRoundSpec(m, nodes, tl, tr, fuel).1.value != Finished
    ensures var round := MergeRoundSpec(m, nodes, tl, tr, fuel);
            var a := AdvanceMesh(round.0, nodes, ts, tl, tr, round.1.value == AcceptRight);
            MergeLoop(m, nodes, ts, tl, tr, fuel, rest + 1) == if a.1 then MergeLoop(a.0, nodes, ts, a.2, a.3, fuel, rest) else (a.0, None)
  {
  }

  /** The same step with the advances left written as `f`. */
  lemma MergeLoopAdvancesFrom(m: Mesh, nodes: seq<Point>, ts: nat, tl: nat, tr: nat, fuel: nat, f: nat, rest: nat)
    requires Linked(m) && VerticesIn(m, |nodes|) && ts < Count(m) && tl < Count(m) && tr < Count(m)
    requires rest + 1 == f
    requires MergeRoundSpec(m, nodes, tl, tr, fuel).1.Some? && MergeRoundSpec(m, nodes, tl, tr, fuel).1.value != Finished
    ensures var round := MergeRoundSpec(m, nodes, tl, tr, fuel);
            var a := AdvanceMesh(round.0, nodes, ts, tl, tr, round.1.value == AcceptRight);
            MergeLoop(m, nodes, ts, tl, tr, fuel, f) == if a.1 then MergeLoop(a.0, nodes, ts, a.2, a.3, fuel, rest) else (a.0, None)
  {
    MergeLoopAdvances(m, nodes, ts, tl, tr, fuel, rest);
  }

  // ---------------------------------------------------------------------
  // The base edge
  // ---------------------------------------------------------------------

  /** After `make_edge(p, tl, CCW, tr, CW)` the upper ghost ts + 1 holds
      the base edge: L (the CCW vertex of tl) in its CW slot, R (the CW
      vertex of tr) in its CCW slot, and no vertex inside; the lower ghost
      ts holds the same edge the other way round. */
  lemma MakeEdgeBase(m: Mesh, ts: nat, tl: nat, tr: nat)
    requires Linked(m) && ts + 2 <= Count(m) && tl < Count(m) && tr < Count(m)
    ensures var r := MakeEdgeMesh(m, ts, tl, ManifoldCcw, tr, ManifoldCw);
            Vertex(r, ts + 1, ManifoldCw) == Vertex(m, tl, ManifoldCcw) &&
            Vertex(r, ts + 1, ManifoldCcw) == Vertex(m, tr, ManifoldCw) && IsManifold(r, ts + 1) &&
            Vertex(r, ts, ManifoldCw) == Vertex(m, tr, ManifoldCw) &&
            Vertex(r, ts, ManifoldCcw) == Vertex(m, tl, ManifoldCcw) && IsManifold(r, ts)
  {
    var m2 := NewSegment(m, ts, Vertex(m, tl, ManifoldCcw), Vertex(m, tr, ManifoldCw));
    assert Splice(m2, ts, Slot(tl, Other(ManifoldCcw)), Slot(tr, Other(ManifoldCw))).verts == m2.verts;
  }

  /** Two closed ranges side by side form one closed range. */
  lemma MutualUnion(m: Mesh, lo: nat, mid: nat, hi: nat)
    requires Mutual(m, lo, mid) && Mutual(m, mid, hi)
    ensures Mutual(m, lo, hi)
  {
    forall s | 3 * lo <= s < 3 * hi
      ensures 3 * lo <= m.adj[s] < 3 * hi && m.adj[s] != s && m.adj[m.adj[s]] == s
    {
      if s < 3 * mid {
        assert 3 * lo <= s < 3 * mid;
      } else {
        assert 3 * mid <= s < 3 * hi;
      }
    }
  }

  /** Joining two closed triangulations [lo, mid) and [mid, hi) at a hull
      record of each with `make_edge` gives one closed range [lo, hi + 2). */
  lemma JoinHalvesMutual(m: Mesh, lo: nat, mid: nat, hi: nat, tl: nat, tr: nat)
    requires Mutual(m, lo, mid) && Mutual(m, mid, hi) && Linked(m) && hi + 2 <= Count(m)
    requires lo <= tl < mid <= tr < hi
    ensures Mutual(MakeEdgeMesh(m, hi, tl, ManifoldCcw, tr, ManifoldCw), lo, hi + 2)
  {
    MutualUnion(m, lo, mid, hi);
    assert 3 * lo <= Slot(tl, ManifoldCw) < 3 * mid;
    assert m.adj[Slot(tl, ManifoldCw)] < 3 * mid;
    MakeEdgeKeepsMutual(m, lo, hi, tl, ManifoldCcw, tr, ManifoldCw);
  }

  /** The join of `merge_triangulations` at the records tl and tr that the
      hull walks reached from tleft and tright: whenever the halves are
      closed ranges [lo, mid) and [mid, hi) holding tleft and tright, the
      walks stayed inside them and the joined pool is closed on
      [lo, hi + 2). */
  lemma JoinWalkedMutual(m: Mesh, hi: nat, tleft: nat, tright: nat, tl: nat, tr: nat)
    requires Linked(m) && hi + 2 <= Count(m) && tl < Count(m) && tr < Count(m)
    requires forall lo: nat, hi': nat :: Within(m, lo, hi', tleft, tl)
    requires forall lo: nat, hi': nat :: Within(m, lo, hi', tright, tr)
    ensures forall lo: nat, mid: nat | Mutual(m, lo, mid) && Mutual(m, mid, hi) && lo <= tleft < mid <= tright < hi ::
              Mutual(MakeEdgeMesh(m, hi, tl, ManifoldCcw, tr, ManifoldCw), lo, hi + 2)
  {
    forall lo: nat, mid: nat | Mutual(m, lo, mid) && Mutual(m, mid, hi) && lo <= tleft < mid <= tright < hi
      ensures Mutual(MakeEdgeMesh(m, hi, tl, ManifoldCcw, tr, ManifoldCw), lo, hi + 2)
    {
      assert Within(m, lo, mid, tleft, tl) && Within(m, mid, hi, tright, tr);
      JoinHalvesMutual(m, lo, mid, hi, tl, tr);
    }
  }

  /** What the start of `merge_triangulations` (delaunay.c:724-725) knows
      of the hull records tl and tr at which it joins the halves: the base
      vertices L (CCW slot of tl) and R (CW slot of tr) are present and pass
      both `lower_tangent` tests, and whenever the halves are closed ranges
      [lo, mid) and [mid, hi) holding tleft and tright, the join at tl and
      tr is one closed range [lo, hi + 2). */
  ghost predicate JoinedAt(m: Mesh, nodes: seq<Point>, hi: nat, tleft: nat, tright: nat, tl: nat, tr: nat)
    requires Linked(m) && VerticesIn(m, |nodes|) && hi + 2 <= Count(m) && tl < Count(m) && tr < Count(m)
  {
    var a, b := VertexPoint(m, nodes, tl, ManifoldCcw), VertexPoint(m, nodes, tr, ManifoldCw);
    a.Some? && b.Some? &&
    LowerTangent(m, nodes, a.value, b.value, tr, ManifoldCw) == Some(true) &&
    LowerTangent(m, nodes, a.value, b.value, tl, ManifoldCcw) == Some(true) &&
    forall lo: nat, mid: nat | Mutual(m, lo, mid) && Mutual(m, mid, hi) && lo <= tleft < mid <= tright < hi ::
      Mutual(MakeEdgeMesh(m, hi, tl, ManifoldCcw, tr, ManifoldCw), lo, hi + 2)
  }
}
