# Proton dose tools: a verified model of the mesh builder, the MCC parsers and the dose lookups

This project models the computational core of a proton-therapy dose viewer in
Dafny and proves properties of that model. The core has four parts.

- **Delaunay mesh builder (`src/proton/delaunay/delaunay.c`).** Triangles live
  in a bump-allocated pool. Each record has three vertex slots and three
  adjacency records; an empty third vertex marks a ghost (manifold) triangle on
  the convex hull. Leaves are segments (two ghosts), real triangles (one real
  triangle and three ghosts) or collinear triples (four ghosts). References to
  the nodes are split at the median by a quickselect, alternating x and y, and
  the two halves are joined by `merge_triangulations`.
  - `Geometry` holds the predicates over `real`: `signum`, `triangle_orientation`,
    `triangle_circumcircle`, `collinear_center` and `ROT`.
  - `DelaunayMesh` describes every pool operation as a function on a value of
    the pool (vertex slots as `Option<node>`, adjacency as slot indices), and
    proves what each one joins and keeps.
  - `DelaunayPool.TrianglePool` is the pool as a class over arrays. Its methods
    write the records in place and are proved to leave the pool the functions
    describe.
  - `DelaunayPartition` is `qswap`/`qpivot`/`qpart`/`kpart` in place on an
    array of references.
  - `DelaunayWalk` holds the hull walks and the tests of the merge.
  - `DelaunayMerge` states `submit_candidate`, one round of the merge, the
    accept labels and the whole merge loop as functions on the pool value,
    together with what the join at the base edge keeps.
- **The single-pass MCC loader (`src/proton/mcc-data.c`).**
  - `MccDataLex` is the line classification and the string helpers.
  - `MccDataLoad` is the four-scope state machine, the growing arrays, trimming,
    sorting and integration (classes `ParseContext` and `MccData`).
  - `MccDataScan` is the comparators, the binary searches and the point-dose
    interpolation.
- **The second-generation MCC reader (`src/proton/mcc/`).**
  - `CText` is the `strtol`/`strtod` recognisers on decimal input.
  - `MccStmt` is the stateless statement classifier of `mcc-stmt.c`.
  - `MccTree` is the key/value tree of `mcc-tree.c`.
  - `MccBuffer` is the growable line buffer and position vector.
  - `MccLine` is `fgetline_b`.
  - `MccValidate` is the depth and last-scan validator as functions.
  - `MccRead` is the parse context, the scan reader and the file, as classes.
- **Dose-grid index logic (`src/proton/proton-dose.c`, `src/proton/proton-image.c`)
  and the depth and dose axis ticks of the line-dose plot (`src/plots/line-dose.cpp`).**
  - `ProtonDose` is the ceiling division, the sub-lattice clamp, the bounds test
    of a square, the plane lookups with their guards, plane constriction,
    `array_maxf` and the line dose. `DoseGrid` is the class holding the arrays.
  - `ProtonImage` is the grow-only image buffer.
  - `LineDose` is `write_xaxis` and `write_yaxis` on a class holding the tick
    vectors.

Files are text: the readers take the contents of the file as a `seq<char>` and
file positions as offsets into it. Whether an allocation succeeds is a boolean
parameter. Floating-point numbers are modelled as `real`.

Where the code is evidently wrong (see "## Findings"), the main model takes the
behaviour the code evidently intends, and a separate as-written member shows
the difference on a concrete input. Everywhere else the model follows the code.
For example, the grammar comment at `src/proton/mcc-data.c:24-42` puts the data
block inside a scan, but `mcc_data_load_nodes` hands every data line to the
last scan pushed, whatever the scope (`src/proton/mcc-data.c:423-425`). The
model does the same. Only a data line before any scan, a finding, is rejected.

## Model

| member | source | states |
|---|---|---|
| Geometry.Signum | src/proton/delaunay/delaunay.c:138-145 | the result is -1, 0 or 1 and has the sign of the input |
| Geometry.SegmentDSqrdZero | src/proton/delaunay/delaunay.c:119-135 | a squared distance is never negative and is zero only between equal points |
| Geometry.OrientationIsSignedArea | src/proton/delaunay/delaunay.c:148-165 | the orientation taken from (B-A)x(C-B) is the sign of the usual signed area of ABC |
| Geometry.OrientationSwap | src/proton/delaunay/delaunay.c:148-165 | exchanging the last two vertices negates the orientation, which `sort_ccw` relies on |
| Geometry.OrientationRotate | src/proton/delaunay/delaunay.c:148-165 | a cyclic shift of the vertices keeps the orientation |
| Geometry.CircumcircleExists | src/proton/delaunay/delaunay.c:168-218 | the circumcircle is defined exactly for non-collinear triples |
| Geometry.CircumcircleEquidistant | src/proton/delaunay/delaunay.c:168-218 | for non-collinear A, B, C the centre is equally far from all three, and the stored radius is that squared distance |
| Geometry.FormulaOnBisectors | src/proton/delaunay/delaunay.c:168-218 | the centre formula lies on the perpendicular bisectors of AB and BC |
| Geometry.CenterOnBisectors | src/proton/delaunay/delaunay.c:168-218 | the same for the formula on plain coordinates |
| Geometry.EquidistantFromBisectors | src/proton/delaunay/delaunay.c:168-218 | a point on both bisectors is equally far from A, B and C |
| Geometry.CollinearCenter | src/proton/delaunay/delaunay.c:221-233 | the index chosen is 0, 1 or 2 |
| Geometry.CollinearCenterIsBetween | src/proton/delaunay/delaunay.c:221-233 | of three distinct collinear nodes, the one chosen lies between the other two |
| Geometry.CollinearMiddle | src/proton/delaunay/delaunay.c:221-233 | when neither of the other nodes lies between, the offsets from v0 to them point opposite ways, so v0 lies between |
| Geometry.Rot | src/proton/delaunay/delaunay.c:249 | a rotation by one step either way from a side stays in {0, 1, 2} |
| Geometry.RotInverse | src/proton/delaunay/delaunay.c:249 | rotating one way and back returns to the starting side |
| DelaunayMerge.FlipEdgeKeeps | src/proton/delaunay/delaunay.c:503-514 | `flip_edge` keeps every vertex naming a node and changes no circumcircle |
| DelaunayMerge.SwapSidesKeeps | src/proton/delaunay/delaunay.c:650-659 | `swap_sides` keeps every vertex naming a node and changes no circumcircle |
| DelaunayMerge.ValidateKeeps | src/proton/delaunay/delaunay.c:668-679 | `validate_manifold` keeps every vertex naming a node and changes no circumcircle |
| DelaunayMerge.SubmitFlip | src/proton/delaunay/delaunay.c:704-706 | flipping the IN edge of the candidate record and validating the record across it keeps the pool well formed and its size |
| DelaunayMerge.SubmitVerdictMeaning | src/proton/delaunay/delaunay.c:697-709 | one pass finds no candidate exactly when its slot is empty; a refused candidate lies strictly right of L -> R; an accepted one lies left of or on L -> R and the next candidate does not collide with its circle |
| DelaunayMerge.SubmitLoop | src/proton/delaunay/delaunay.c:692-712 | the flips keep every vertex naming a node and change no circle; answer 1 means the pool left accepts the candidate, answer 0 that it refuses it |
| DelaunayMerge.SubmitStops | src/proton/delaunay/delaunay.c:697-709 | without a collision, or without fuel, the pool is unchanged and the answer is the verdict of that pass |
| DelaunayMerge.SubmitFlips | src/proton/delaunay/delaunay.c:702-706 | a collision flips once, and the loop goes on from the flipped pool with one flip less |
| DelaunayMerge.SubmitFlipsTo | src/proton/delaunay/delaunay.c:702-706 | the same step from the pool the flip left: the loop from the old pool equals the loop from the new one with one flip less |
| DelaunayMerge.SubmitLoopAnswer | src/proton/delaunay/delaunay.c:692-712 | on the pool left, an accepted candidate is present, lies left of or on L -> R and has no collision, and a refused one lies strictly right; no circle changes |
| DelaunayMerge.MergeRoundSpec | src/proton/delaunay/delaunay.c:727-750 | the round changes no circle; any choice means L, R and the right candidate are present; the merge finishes only when both the right candidate and the left candidate (read on the pool the left submission leaves) lie strictly right of L -> R; it takes the left one only when that one lies left of or on L -> R and collides with no triangle on its CCW side; it takes the right one only when that one lies left of or on L -> R with no collision; it takes the left one only when the right one lies strictly right of L -> R or strictly outside the circle through L, R and the left candidate |
| DelaunayMerge.Recircle | src/proton/delaunay/delaunay.c:753 | only the circle of the record changes; vertices and adjacency are kept |
| DelaunayMerge.AdvanceMesh | src/proton/delaunay/delaunay.c:751-760 | an accept label keeps the pool well formed and its size, and both hull records stay in the pool |
| DelaunayMerge.AdvanceKeepsMutual | src/proton/delaunay/delaunay.c:751-760 | when the flip's side conditions hold, an accept label keeps a closed range closed, keeps the other side's hull record and moves the accepted side's one to a record of the range |
| DelaunayMerge.MergeLoop | src/proton/delaunay/delaunay.c:727-760 | a merge that completes returns its base ghost, and the pool it leaves is one that a round leaves when it finds no candidate on either side |
| DelaunayMerge.MergeLoopAdvances | src/proton/delaunay/delaunay.c:751-760 | a round that chose a side advances on that side; the loop goes on with one advance less, or stops without an answer when the circle cannot be computed |
| DelaunayMerge.MergeLoopAdvancesFrom | src/proton/delaunay/delaunay.c:751-760 | the same step, with the advances left before it written as f = rest + 1 |
| DelaunayMerge.MakeEdgeBase | src/proton/delaunay/delaunay.c:725-726 | after the join the upper ghost holds L in its CW slot and R in its CCW slot and has no inner vertex; the lower ghost holds the same edge the other way round |
| DelaunayMerge.MutualUnion | src/proton/delaunay/delaunay.c:724-725 | two closed ranges side by side form one closed range |
| DelaunayMerge.JoinHalvesMutual | src/proton/delaunay/delaunay.c:724-725 | joining two closed halves [lo, mid) and [mid, hi) at a hull record of each gives one closed range [lo, hi + 2) |
| DelaunayMerge.JoinWalkedMutual | src/proton/delaunay/delaunay.c:724-725 | when the hull walks stayed inside the closed halves, the join at the records they reached gives one closed range |
| DelaunayMesh.Other | src/proton/delaunay/delaunay.c:262-271 | `!o` on a hull side is 0 or 1 and differs from o |
| DelaunayMesh.SlotParts | src/proton/delaunay/delaunay.c:262-271 | a slot index names exactly one record and side |
| DelaunayMesh.Next | src/proton/delaunay/delaunay.c:484-489 | `next_triangle` answers a record and side of the pool, namely the slot the adjacency record names |
| DelaunayMesh.Retarget | src/proton/delaunay/delaunay.c:344-351 | `retarget_tri` sets side o1 of t1 to (t2, o2) and side o2 of t2 to (t1, o1) |
| DelaunayMesh.RetargetRoundTrip | src/proton/delaunay/delaunay.c:344-351 | no other slot changes, and `next_triangle` applied twice from the joined side comes back to it |
| DelaunayMesh.RepairMutual | src/proton/delaunay/delaunay.c:344-351 | re-pairing a closed set of slots among themselves keeps every record of a range joined both ways |
| DelaunayMesh.MutualFromBlock | src/proton/delaunay/delaunay.c:358-376 | a block of records joined by a pairing is closed under the adjacency |
| DelaunayMesh.MakeSegmentMesh | src/proton/delaunay/delaunay.c:358-376 | `make_segment` on two reserved records keeps the pool well formed and its size |
| DelaunayMesh.SegmentPairing | src/proton/delaunay/delaunay.c:371-373 | the segment joins pair the six slots of the leaf with one another |
| DelaunayMesh.MakeSegmentShape | src/proton/delaunay/delaunay.c:358-376 | both records are ghosts with swapped endpoints, joined IN to IN and CW to CCW both ways, and nothing else changes |
| DelaunayMesh.SortCcw | src/proton/delaunay/delaunay.c:383-393 | collinear exactly when the orientation is 0; otherwise the pair returned makes the triangle counterclockwise |
| DelaunayMesh.RealTriangleMesh | src/proton/delaunay/delaunay.c:450-474 | the real-triangle leaf keeps the pool well formed and its size |
| DelaunayMesh.RealTrianglePairing | src/proton/delaunay/delaunay.c:466-472 | the real-triangle joins pair the twelve slots of the leaf |
| DelaunayMesh.RealTriangleMutual | src/proton/delaunay/delaunay.c:450-474 | the four records of the leaf are closed |
| DelaunayMesh.RealTriangleGhosts | src/proton/delaunay/delaunay.c:450-474 | each side of the triangle meets through MANIFOLD_IN a ghost holding that side's endpoints, and the ghosts follow one another CCW to CW around the hull |
| DelaunayMesh.RealTriangleGhost | src/proton/delaunay/delaunay.c:450-474 | the same for one side |
| DelaunayMesh.CollinearOrder | src/proton/delaunay/delaunay.c:404-409 | the intended reordering keeps the same three nodes |
| DelaunayMesh.CollinearOrderSharesMiddle | src/proton/delaunay/delaunay.c:404-409 | after that reordering the node shared by the two segments lies strictly between the other two |
| DelaunayMesh.CollinearOrderAsWrittenOverlaps | src/proton/delaunay/delaunay.c:406-408 | as written the triple (0,0), (2,0), (1,0) keeps the shared node (2,0), which is not between the others, so the two segments overlap |
| DelaunayMesh.DoubleSegmentsMesh | src/proton/delaunay/delaunay.c:411-435 | `double_segments` on four reserved records keeps the pool well formed and its size |
| DelaunayMesh.DoubleSegmentsPairing | src/proton/delaunay/delaunay.c:411-435 | the collinear-leaf joins pair the twelve slots of the leaf |
| DelaunayMesh.DoubleSegmentsMutual | src/proton/delaunay/delaunay.c:411-435 | four ghosts hold the segments (a, b) and (b, c) both ways round, IN-paired (0,1) and (2,3), closed among themselves |
| DelaunayMesh.MakeTriangleMesh | src/proton/delaunay/delaunay.c:439-477 | `make_triangle` keeps the pool well formed and its size |
| DelaunayMesh.MakeTriangleCcw | src/proton/delaunay/delaunay.c:439-477 | for a non-collinear triple, the real triangle is counterclockwise with its circumcircle, the answer is the ghost ts + 1 and the leaf is closed |
| DelaunayMesh.MakeTriangleCollinear | src/proton/delaunay/delaunay.c:439-477 | for a collinear triple, the answer is ts and the four ghosts hold the two segments of the reordered triple |
| DelaunayMesh.MakeTriangleShape | src/proton/delaunay/delaunay.c:439-477 | the four records of a triple leaf form a closed range; for a non-collinear triple the answer is ts + 1 and the real triangle ts has all three slots filled and is counterclockwise |
| DelaunayMesh.MakeTriangleIsDouble | src/proton/delaunay/delaunay.c:445-448 | the collinear branch is `double_segments` |
| DelaunayMesh.MakeTriangleIsReal | src/proton/delaunay/delaunay.c:450-474 | the non-collinear branch is the real-triangle leaf |
| DelaunayMesh.MakeEdgeMesh | src/proton/delaunay/delaunay.c:603-626 | `make_edge` keeps every adjacency record naming a slot of the pool |
| DelaunayMesh.NewSegment | src/proton/delaunay/delaunay.c:607-617 | the two new ghosts are joined IN to IN and no other adjacency record changes |
| DelaunayMesh.Splice | src/proton/delaunay/delaunay.c:619-623 | the splice keeps every adjacency record naming a slot of the pool |
| DelaunayMesh.SpliceJoins | src/proton/delaunay/delaunay.c:619-623 | the joins the splice leaves on four distinct slots |
| DelaunayMesh.SpliceFrame | src/proton/delaunay/delaunay.c:619-623 | the splice changes no slot but the four it joins and their old partners |
| DelaunayMesh.MakeEdgeJoins | src/proton/delaunay/delaunay.c:603-626 | the joins `make_edge` leaves when the two cut hull sides are distinct and not joined to each other |
| DelaunayMesh.SpliceMutual | src/proton/delaunay/delaunay.c:603-626 | re-pairing the cut sides and their partners with the two new records keeps the grown range closed |
| DelaunayMesh.MakeEdgeKeepsMutual | src/proton/delaunay/delaunay.c:603-626 | if records [lo, ts) were closed, [lo, ts + 2) are closed after `make_edge` |
| DelaunayMesh.FlipEdgeMesh | src/proton/delaunay/delaunay.c:503-514 | `flip_edge` keeps every adjacency record naming a slot of the pool |
| DelaunayMesh.FlipAtJoins | src/proton/delaunay/delaunay.c:503-514 | the old edge sides take the old partners of the sides that now face each other, and those two are joined |
| DelaunayMesh.FlipAtFrame | src/proton/delaunay/delaunay.c:503-514 | no adjacency record changes except those of the old edge, the two sides that now face each other and their old partners |
| DelaunayMesh.FlipEdgeJoins | src/proton/delaunay/delaunay.c:503-514 | the joins `flip_edge` leaves in a closed range, read through `next_triangle` |
| DelaunayMesh.CrossMutual | src/proton/delaunay/delaunay.c:503-514 | the re-pairing that `flip_edge` does keeps a range closed |
| DelaunayMesh.FlipEdgeKeepsMutual | src/proton/delaunay/delaunay.c:503-514 | `flip_edge` keeps a closed range closed |
| DelaunayMesh.SwapSidesMesh | src/proton/delaunay/delaunay.c:650-659 | `swap_sides` keeps every adjacency record naming a slot of the pool |
| DelaunayMesh.SwapSidesEffect | src/proton/delaunay/delaunay.c:650-659 | the two vertices are exchanged, each side is joined to the other's old partner, and nothing else changes |
| DelaunayMesh.SwapSidesTwice | src/proton/delaunay/delaunay.c:650-659 | swapping the same two sides twice restores the pool |
| DelaunayMesh.SwapSidesKeepsMutual | src/proton/delaunay/delaunay.c:650-659 | `swap_sides` keeps a closed range closed |
| DelaunayMesh.FirstEmpty | src/proton/delaunay/delaunay.c:670-673 | the first empty vertex slot of a record is empty and every slot before it is filled, or the answer is 3 when none is empty |
| DelaunayMesh.ValidateManifoldMesh | src/proton/delaunay/delaunay.c:668-679 | `validate_manifold` keeps every adjacency record naming a slot of the pool |
| DelaunayMesh.ValidateFromCw | src/proton/delaunay/delaunay.c:668-679 | with the empty slot at 0, the record turns one step, keeps its orientation and ends with the empty slot at MANIFOLD_IN |
| DelaunayMesh.ValidateFromCcw | src/proton/delaunay/delaunay.c:668-679 | the same with the empty slot at 1, turning one step back |
| DelaunayPartition.QSwap | src/proton/delaunay/delaunay.c:789-794 | exchanges two entries and changes nothing else |
| DelaunayPartition.Exchange | src/proton/delaunay/delaunay.c:789-794 | a swap of two entries of a range is a permutation within that range |
| DelaunayPartition.PermutedHalves | src/proton/delaunay/delaunay.c:833-845 | permutations of a range and then of its two halves compose to a permutation of the range |
| DelaunayPartition.PermutedRange | src/proton/delaunay/delaunay.c:833-845 | a permutation within a range permutes that range's entries among themselves |
| DelaunayPartition.PermutedRefs | src/proton/delaunay/delaunay.c:833-845 | permuting references keeps each of them naming a node |
| DelaunayPartition.OrderPair | src/proton/delaunay/delaunay.c:797-811 | after one compare-and-swap of `qpivot` the first of the two entries has the smaller key |
| DelaunayPartition.QPivot | src/proton/delaunay/delaunay.c:797-811 | the first, middle and last entries are ordered, the key returned is the middle one and lies between the two ends, and the range is a permutation of itself |
| DelaunayPartition.ScanUp | src/proton/delaunay/delaunay.c:819-821 | the upward scan stops at the first key not below the pivot |
| DelaunayPartition.ScanDown | src/proton/delaunay/delaunay.c:822-824 | the downward scan stops at the first key not above the pivot |
| DelaunayPartition.Crossed | src/proton/delaunay/delaunay.c:825-827 | when the scans cross, the range splits where the upward scan stopped |
| DelaunayPartition.SwapStopped | src/proton/delaunay/delaunay.c:828 | the exchange at two stopped scans extends both bounded stretches |
| DelaunayPartition.QPart | src/proton/delaunay/delaunay.c:814-830 | Hoare's partition: the range is a permutation of itself, no key of the lower part exceeds one of the upper part, and the lower part is neither empty nor the whole range |
| DelaunayPartition.KPart | src/proton/delaunay/delaunay.c:833-845 | the range is a permutation of itself, and no key among its first k entries exceeds a key among the others |
| DelaunayPartition.SplitLeft | src/proton/delaunay/delaunay.c:833-845 | splitting the lower part of a partition at k splits the whole range at k |
| DelaunayPartition.SplitRight | src/proton/delaunay/delaunay.c:833-845 | splitting the upper part of a partition at k splits the whole range at k |
| DelaunayPool.TrianglePool.constructor | src/proton/delaunay/delaunay.c:280-288 | a pool with room for the requested records, none handed out |
| DelaunayPool.TrianglePool.Reserve | src/proton/delaunay/delaunay.c:311-339 | returns the old cursor and advances it by exactly n, so no record is handed out twice |
| DelaunayPool.TrianglePool.RetargetTri | src/proton/delaunay/delaunay.c:344-351 | the pool becomes `DelaunayMesh.Retarget` of the old pool |
| DelaunayPool.TrianglePool.SetRecordVertices | src/proton/delaunay/delaunay.c:449-470 | the pool becomes `DelaunayMesh.SetVertices` of the old pool |
| DelaunayPool.TrianglePool.MakeSegment | src/proton/delaunay/delaunay.c:358-376 | reserves two records, leaves the pool `DelaunayMesh.MakeSegmentMesh` describes, and the two records form a closed range |
| DelaunayPool.TrianglePool.DoubleSegments | src/proton/delaunay/delaunay.c:399-436 | leaves the pool `DelaunayMesh.DoubleSegmentsMesh` describes for the reordered triple |
| DelaunayPool.TrianglePool.MakeTriangle | src/proton/delaunay/delaunay.c:439-477 | reserves four records and leaves the pool and answer `DelaunayMesh.MakeTriangleMesh` describes |
| DelaunayPool.TrianglePool.RealTriangle | src/proton/delaunay/delaunay.c:450-474 | leaves the pool `DelaunayMesh.RealTriangleMesh` describes |
| DelaunayPool.TrianglePool.NextTriangle | src/proton/delaunay/delaunay.c:484-489 | answers a record and side of the pool |
| DelaunayPool.TrianglePool.MakeEdge | src/proton/delaunay/delaunay.c:603-626 | reserves two records, leaves the pool `DelaunayMesh.MakeEdgeMesh` describes and returns ts + 1 |
| DelaunayPool.TrianglePool.BeginSegment | src/proton/delaunay/delaunay.c:607-617 | leaves the pool `DelaunayMesh.NewSegment` describes |
| DelaunayPool.TrianglePool.SpliceSegment | src/proton/delaunay/delaunay.c:619-623 | leaves the pool `DelaunayMesh.Splice` describes |
| DelaunayPool.TrianglePool.FlipEdge | src/proton/delaunay/delaunay.c:503-514 | leaves the pool `DelaunayMesh.FlipEdgeMesh` describes |
| DelaunayPool.TrianglePool.SwapSides | src/proton/delaunay/delaunay.c:650-659 | leaves the pool `DelaunayMesh.SwapSidesMesh` describes |
| DelaunayPool.TrianglePool.ValidateManifold | src/proton/delaunay/delaunay.c:668-679 | leaves the pool `DelaunayMesh.ValidateManifoldMesh` describes |
| DelaunayPool.TrianglePool.MinimumNode | src/proton/delaunay/delaunay.c:523-535 | the answer is reached from the start by walking the hull through side direction, its vertex is not above its other hull vertex, and it lies in every closed range that holds the start |
| DelaunayPool.TrianglePool.FindBaseLREdge | src/proton/delaunay/delaunay.c:571-595 | when it stops, L -> R passes the tangent test on both hulls, and each answer was reached by walking its own hull and lies in every closed range that holds its start |
| DelaunayPool.TrianglePool.SubmitCandidate | src/proton/delaunay/delaunay.c:692-712 | leaves the pool and answer `DelaunayMerge.SubmitLoop` gives; a candidate accepted lies on or left of L -> R and the next candidate does not collide with its circle; one refused lies strictly right of L -> R |
| DelaunayPool.TrianglePool.SubmitPass | src/proton/delaunay/delaunay.c:697-710 | a pass that stops leaves the pool and answer `DelaunayMerge.SubmitLoop` gives; one that flips leaves a pool from which the loop with one flip less gives the same |
| DelaunayPool.TrianglePool.FlipCandidate | src/proton/delaunay/delaunay.c:704-706 | leaves the pool `DelaunayMerge.SubmitFlip` describes |
| DelaunayPool.TrianglePool.RecomputeCircle | src/proton/delaunay/delaunay.c:753 | succeeds exactly when all three vertex slots are filled, and then only that record's circle changes, to the circumcircle of its nodes; pool and answer are `DelaunayMerge.Recircle` |
| DelaunayPool.TrianglePool.JoinBase | src/proton/delaunay/delaunay.c:724-725 | on success takes exactly two records, answers the upper base ghost and leaves `make_edge` at two hull records whose base vertices pass both tangent tests; when the halves are closed ranges holding tleft and tright, the joined pool is one closed range; both facts are stated of the answered records as `DelaunayMerge.JoinedAt`; on failure nothing changes |
| DelaunayPool.TrianglePool.MergeRound | src/proton/delaunay/delaunay.c:727-750 | leaves the pool and choice `DelaunayMerge.MergeRoundSpec` gives |
| DelaunayPool.TrianglePool.Advance | src/proton/delaunay/delaunay.c:751-760 | leaves the pool, answer and hull records `DelaunayMerge.AdvanceMesh` gives; only the chosen side's hull record moves |
| DelaunayPool.TrianglePool.Merge | src/proton/delaunay/delaunay.c:716-761 | without a base edge nothing changes; otherwise takes exactly two records and leaves the pool and answer `DelaunayMerge.MergeLoop` gives from the pool joined at hull records where both lower tangent tests pass and the closed halves close into one range (`DelaunayMerge.JoinedAt`), and a completed merge answers the upper base ghost |
| DelaunayPool.TrianglePool.MergeStep | src/proton/delaunay/delaunay.c:727-760 | a pass that stops leaves the pool and answer `DelaunayMerge.MergeLoop` gives; one that advances leaves a pool from which the loop with one advance less gives the same |
| DelaunayPool.TrianglePool.BuildLeaf | src/proton/delaunay/delaunay.c:855-861 | two references give `DelaunayMesh.MakeSegmentMesh` and three `DelaunayMesh.MakeTriangleMesh`; n references take exactly 2n - 2 records, which form a closed range |
| DelaunayPool.TrianglePool.Build2dTree | src/proton/delaunay/delaunay.c:852-877 | a complete build over n references takes exactly 2n - 2 records and permutes only its own range of references; an incomplete one takes no more; a leaf range is always built and closed |
| DelaunayPool.Triangulate | src/proton/delaunay/delaunay.c:1004-1041 | the pool holds 2(N - 1) records, and a complete build has used every one of them |
| DelaunayWalk.NextManifold | src/proton/delaunay/delaunay.c:273 | the record across a hull side is a record of the pool |
| DelaunayWalk.HullWalkStep | src/proton/delaunay/delaunay.c:523-535 | k steps along the hull and then one more is k + 1 steps |
| DelaunayWalk.NextManifoldStays | src/proton/delaunay/delaunay.c:273 | one step across a hull side from a record of a closed range stays in the range |
| DelaunayWalk.WithinStep | src/proton/delaunay/delaunay.c:523-535 | a walk that stayed in every closed range holding its start still does after one more step |
| DelaunayWalk.HullWalkStays | src/proton/delaunay/delaunay.c:523-535 | a hull walk never leaves a closed range it starts in |
| DelaunayWalk.VertexPoint | src/proton/delaunay/delaunay.c:543-552 | the point of a filled vertex slot, and none for an empty one |
| DelaunayWalk.LowerTangentMeaning | src/proton/delaunay/delaunay.c:543-552 | the tangent test is true exactly when both neighbours exist and neither lies strictly right of L -> R, and false exactly when one does |
| DelaunayWalk.NextAfterCandidate | src/proton/delaunay/delaunay.c:637-647 | the side two `next_rotate` steps against direction from the IN side of the candidate |
| DelaunayWalk.CollisionMeansInside | src/proton/delaunay/delaunay.c:637-647 | a collision means the next candidate lies strictly inside the circle through L, R and the candidate |
| DelaunayWalk.MergeChoiceMeaning | src/proton/delaunay/delaunay.c:727-750 | the merge stops exactly when neither side has a candidate, and takes the left one only when the right is invalid or lies outside the left circle |
| DelaunayWalk.HalvesCover | src/proton/delaunay/delaunay.c:865-874 | the halves n/2 and (n+1)/2 add up to n, so they cover the range |
| DelaunayWalk.TreeBudgetExact | src/proton/delaunay/delaunay.c:1007 | the records a build needs are exactly 2n - 2 for n >= 2: the recursion never reaches a single node |
| ProtonDose.CDiv | src/proton/proton-dose.c:19 | for a non-negative numerator and positive denominator, C division is the exact floor quotient |
| ProtonDose.IDivCeilIsCeiling | src/proton/proton-dose.c:19 | for n >= 0 and d > 0, `IDIVCEIL(n, d)` is the ceiling of n / d |
| ProtonDose.ClampCoordinate | src/proton/proton-dose.c:449-456 | one clamped coordinate lands on the target lattice at the smallest lattice point not before the source point |
| ProtonDose.SublatticeClampInRange | src/proton/proton-dose.c:449-456 | the clamp maps the source lattice into the target lattice on both axes |
| ProtonDose.SquareOutOfBounds | src/proton/proton-dose.c:175-181 | a square is out of bounds exactly when a[0] is outside [0, dimx - 1) or a[1] is outside [0, dimz - 1) |
| ProtonDose.CellOf | src/proton/proton-dose.c:162-173 | the cell index plus the fraction is the coordinate in pixel units, and the fraction lies in [0, 1) |
| ProtonDose.FindSquare | src/proton/proton-dose.c:162-173 | on each axis the square index plus the fraction is the point in pixel units, and both fractions lie in [0, 1) |
| ProtonDose.StencilInGrid | src/proton/proton-dose.c:191-217 | for a square in bounds every read of the stencil, on every plane, stays inside the dose array |
| ProtonDose.Locate | src/proton/proton-dose.c:135-142 | plane index plus fraction is the depth in plane units, measured from the centre of plane 0, with the fraction in [0, 1) |
| ProtonDose.GetDose | src/proton/proton-dose.c:144-160 | 0 unless the plane index lies in [0, nplanes); a read past the array happens exactly when the index is a plane and i + 1 is past the array |
| ProtonDose.GetDoseBetween | src/proton/proton-dose.c:144-160 | with one entry past the last plane the lookup never reads past the array, and inside the planes it lies between the two neighbouring samples |
| ProtonDose.GetDoseAtCentre | src/proton/proton-dose.c:135-160 | at the centre of plane k the lookup gives that plane's sample |
| ProtonDose.LastAbove | src/proton/proton-dose.c:92-94 | every plane after the index found is at most the threshold, and the plane found is above it unless the answer is 0 |
| ProtonDose.LastAboveFound | src/proton/proton-dose.c:92-94 | the index found is above the threshold unless no plane is |
| ProtonDose.Constrict | src/proton/proton-dose.c:88-106 | nplanes becomes the last index above the threshold plus one, those planes are kept and a zero follows them |
| ProtonDose.GetLine | src/proton/proton-dose.c:201-217 | out of bounds the first nplanes entries become 0; otherwise entry j is the stencil on plane j; entry nplanes and beyond are not written |
| ProtonDose.ArrayMaxF | src/proton/proton-dose.c:219-226 | the result is at least 0 and every entry, and equals 0 or one of the entries |
| ProtonDose.DoseGrid.constructor | src/proton/proton-dose.c:81-115 | nplanes is the last plane above the threshold plus one; the planes are kept up to it followed by a zero, and the stopping powers up to it followed by the integrated row at nplanes, or by a zero when the planes reach the last row |
| ProtonDose.DoseGrid.LineGetDose | src/proton/proton-dose.c:144-148 | inside the planes the dose lies between the two neighbouring line-dose samples |
| ProtonDose.DoseGrid.PlanesGetDose | src/proton/proton-dose.c:150-154 | inside the planes the dose lies between the two neighbouring plane samples |
| ProtonDose.DoseGrid.StppwrGetDose | src/proton/proton-dose.c:156-160 | inside the planes the dose lies between the two neighbouring stopping powers, the second of which may be the row after the last plane |
| ProtonDose.DoseGrid.GetLineAt | src/proton/proton-dose.c:201-217 | out of bounds the first nplanes entries of the line dose are 0; otherwise entry j is the stencil on plane j |
| ProtonDose.DoseGrid.PlanesMax | src/proton/proton-dose.c:228-231 | at least 0 and every plane, and equal to 0 or one of the planes |
| ProtonDose.DoseGrid.StppwrMax | src/proton/proton-dose.c:233-236 | at least 0 and every stopping power, and equal to 0 or one of them |
| ProtonDose.StppwrAgreesAsWritten | src/proton/proton-dose.c:81-115 | wherever the source's lookup over its dimy stopping-power rows stays in bounds, the model's padded array gives the same dose, and the padded array is never read past its end |
| ProtonDose.StppwrGetDoseAsWrittenOverruns | src/proton/proton-dose.c:156-160 | with two rows, both above the threshold, a depth in the second plane reads index 2 of the two-entry stopping-power array |
| ProtonImage.GrownWidth | src/proton/proton-image.c:33 | the new width (3N)/2 is at least N for N > 0, and never negative |
| ProtonImage.ReallocAsWritten | src/proton/proton-image.c:27-40 | as written, the write through NULL happens exactly when there is no image and the picture needs no bytes |
| ProtonImage.ReallocAsWrittenZeroHeight | src/proton/proton-image.c:27-40 | with no image, width 640 and height 0, the source writes through NULL |
| ProtonImage.ReallocOutcome | src/proton/proton-image.c:27-40 | fails only when it had to allocate and could not, leaving no image; success sets the dimensions with room for the picture; a picture that fits keeps the buffer; the buffer never shrinks |
| ProtonImage.ReallocAgrees | src/proton/proton-dose.c:395-409 | wherever the source does not write through NULL, the intended behaviour is the source's, in both copies of the function |
| ProtonImage.ReallocSequenceGrows | src/proton/proton-image.c:27-40 | over successful calls the buffer never shrinks and the last picture always fits |
| ProtonImage.Image.constructor | src/proton/proton-image.c:11-19 | a fresh image whose buffer width is N |
| ProtonImage.Image.Empty | src/proton/proton-image.c:57-60 | true exactly when either dimension is 0 |
| ProtonImage.ImageSlot.Realloc | src/proton/proton-image.c:27-40 | the slot changes exactly as `ReallocOutcome` says, and reports failure exactly when the allocation fails |
| LineDose.LDiv | src/plots/line-dose.cpp:339 | quotient times divisor plus remainder is the dividend, with the remainder taking the dividend's sign, as C's `ldiv` does |
| LineDose.DivisorFromIsFirst | src/plots/line-dose.cpp:333-344 | the divisor is the first in the list that gives more than 9 ticks, and 0 exactly when none does |
| LineDose.DivisorExists | src/plots/line-dose.cpp:333-344 | a divisor qualifies exactly when the depth exceeds 9, and the last regular tick is then not past the depth |
| LineDose.ChooseDivisor | src/plots/line-dose.cpp:338-344 | the divisor found is `Divisor(maxdepth)`, with the quotient and remainder of that division |
| LineDose.DivisorChosen | src/plots/line-dose.cpp:338-344 | the divisor and its `ldiv` give more than 9 regular ticks that do not pass the depth |
| LineDose.TikIncIsFraction | src/plots/line-dose.cpp:346-347 | the step is the divisor as a fraction of the depth |
| LineDose.XTickAt | src/plots/line-dose.cpp:355-359 | tick i is at position i * step and depth i * div up to the quotient, and the end tick after that |
| LineDose.XTickFraction | src/plots/line-dose.cpp:355-359 | each tick sits at its depth as a fraction of the full depth, and that depth is within the axis |
| LineDose.XTickDepthsIncrease | src/plots/line-dose.cpp:355-359 | the depths of the ticks increase strictly |
| LineDose.XTicksPositions | src/plots/line-dose.cpp:346-362 | positions start at 0, increase strictly and stay within [0, 1], and the last tick is at 1 whether or not the end tick was added |
| LineDose.XTicksShape | src/plots/line-dose.cpp:353-362 | there are quot + 1 regular ticks; the end tick is added exactly when the remainder is not 0, and there is then one label fewer than ticks; label i names the depth of tick i |
| LineDose.DoseInc | src/plots/line-dose.cpp:369 | the dose step is an eighth of the maximum dose |
| LineDose.YTickAt | src/plots/line-dose.cpp:373-376 | there are 9 dose ticks and tick k is k * maxdose / 8 |
| LineDose.YTicksSpan | src/plots/line-dose.cpp:365-377 | 9 ticks from 0 to the maximum dose in equal steps of maxdose / 8, increasing strictly for a positive maximum |
| LineDose.YTicksIncrease | src/plots/line-dose.cpp:365-377 | for a positive maximum a later dose tick is strictly larger |
| LineDose.LineDosePlot.WriteXaxis | src/plots/line-dose.cpp:331-363 | without a divisor the ticks are cleared and the labels left; otherwise the ticks and labels of `XTicksShape`; the dose axis is untouched |
| LineDose.LineDosePlot.FillXTicks | src/plots/line-dose.cpp:346-362 | the ticks and labels become those of the chosen divisor, and the dose axis is untouched |
| LineDose.LineDosePlot.WriteYaxis | src/plots/line-dose.cpp:365-377 | the dose ticks and labels become the 9 ticks of `YTicksSpan`, and the depth axis is untouched |
| CText.Span | src/proton/mcc/mcc-stmt.c:32-37 | the first index at or after i whose character fails p, or the end |
| CText.SpanAll | src/proton/mcc/mcc-stmt.c:32-37 | every character passed over satisfies p |
| CText.SpanUnique | src/proton/mcc/mcc-stmt.c:32-37 | `Span` is the only index with those two properties |
| CText.SkipSpace | src/proton/mcc/mcc-stmt.c:32-37 | `ltrim_whitespace` stops at the first character that is not whitespace |
| CText.DigitsOfValue | src/proton/mcc/mcc-stmt.c:167 | printing digits and reading them back gives the number |
| CText.DigitsAt | src/proton/mcc/mcc-stmt.c:167 | the digits of m followed by a non-digit are scanned as one run with value m |
| CText.DecimalAt | src/proton/mcc/mcc-stmt.c:167 | a printed integer has no leading space, a sign exactly when negative, then the digits of its magnitude |
| CText.ParseLongDecimal | src/proton/mcc/mcc-stmt.c:167 | `strtol` reads back a printed integer and stops just after it |
| CText.ParseDoubleDecimal | src/proton/mcc/mcc-stmt.c:147-154 | `strtod` reads back a printed integer and stops just after it |
| MccStmt.StrMatch | src/proton/mcc/mcc-stmt.c:45-56 | true exactly when the token is the keyword |
| MccStmt.TokenType | src/proton/mcc/mcc-stmt.c:58-67 | the index of the delimiter word equal to the token, and "unrecognised" exactly when no word is |
| MccStmt.TokenEnd | src/proton/mcc/mcc-stmt.c:206-214 | the first token runs to the first whitespace, NUL or '=' after its first character |
| MccStmt.IndexedDelim | src/proton/mcc/mcc-stmt.c:88-109 | a scan delimiter is read exactly when an integer follows the word with only whitespace after it, and carries an index |
| MccStmt.NonIndexedDelim | src/proton/mcc/mcc-stmt.c:111-138 | a file or data delimiter is read exactly when only whitespace follows the word, and carries no index |
| MccStmt.NonAssignment | src/proton/mcc/mcc-stmt.c:183-196 | a delimiter or data statement, where only scan delimiters carry an index |
| MccStmt.ClassifyStatementShape | src/proton/mcc/mcc-stmt.c:198-221 | an assignment key is a nonempty run of non-space characters with no '=' after its first; only scan delimiters carry an index; an unclassifiable line is reported from its first non-space character |
| MccStmt.ClassifyEmpty | src/proton/mcc/mcc-stmt.c:200-204 | a line that is blank up to its terminator is `Empty`, and no other line is |
| MccStmt.ClassifyAssignRoundTrip | src/proton/mcc/mcc-stmt.c:206-214 | an assignment line reads back as its key and value |
| MccStmt.ClassifyAssignText | src/proton/mcc/mcc-stmt.c:206-214 | conversely, an assignment verdict means the trimmed line is exactly key '=' value |
| MccStmt.ClassifySpaceBeforeEquals | src/proton/mcc/mcc-stmt.c:206-214 | a space between the key and the '=' makes the line no assignment |
| MccStmt.DelimWord | src/proton/mcc/mcc-stmt.c:58-67 | the word of a delimiter is one of the delimiter words |
| MccStmt.NonAssignmentDelim | src/proton/mcc/mcc-stmt.c:183-196 | a delimiter comes out exactly for a delimiter word, and names that word |
| MccStmt.ClassifyDelimWord | src/proton/mcc/mcc-stmt.c:45-67 | a delimiter verdict names the first token, and a line starting with a delimiter word is never data |
| MccStmt.DelimWordChars | src/proton/mcc/mcc-stmt.c:58-67 | every delimiter word is made of capitals and underscores |
| MccStmt.ClassifyNonAssignment | src/proton/mcc/mcc-stmt.c:211-214 | a line whose first token is not followed by '=' is classified by `NonAssignment` |
| MccStmt.ClassifyBareDelim | src/proton/mcc/mcc-stmt.c:111-138 | a file or data delimiter followed only by whitespace is recognised as that delimiter |
| MccStmt.ClassifyScanDelim | src/proton/mcc/mcc-stmt.c:88-109 | `BEGIN_SCAN n` and `END_SCAN n` are recognised with their index n |
| MccStmt.DataStmtRoundTrip | src/proton/mcc/mcc-stmt.c:140-181 | the three numbers of a printed data line are read back |
| MccStmt.ClassifyDataRoundTrip | src/proton/mcc/mcc-stmt.c:140-181 | a data line reads back as its position, value and index |
| MccStmt.NonAssignmentData | src/proton/mcc/mcc-stmt.c:183-196 | a first token starting with a digit or '-' is read as data |
| MccStmt.TokenNotDelim | src/proton/mcc/mcc-stmt.c:58-67 | no delimiter word starts with a digit or '-' |
| MccStmt.DataLineChars | src/proton/mcc/mcc-stmt.c:140-181 | a printed data line starts with a digit or '-' and holds no '=' |
| MccTree.StrSegCmpMeaning | src/proton/mcc/mcc-tree.c:23-34 | 0 exactly when the segment is the whole string, 1 exactly when it is a proper prefix, -1 on any mismatch |
| MccTree.StrCmpFromZero | src/proton/mcc/mcc-tree.c:121 | `strcmp` is 0 exactly on equal C strings |
| MccTree.Descend | src/proton/mcc/mcc-tree.c:82-105 | the insertion walk ends at a node whose key compares equal, or at a vacant child of a node of the tree |
| MccTree.DescendAfterAttach | src/proton/mcc/mcc-tree.c:82-105 | attaching a leaf leaves every other walk as it was and extends the walk that ended there into the leaf |
| MccTree.AttachSearchable | src/proton/mcc/mcc-tree.c:82-115 | inserting a new key keeps the map searchable and finds the key at the new node |
| MccTree.WalkAsWrittenSound | src/proton/mcc/mcc-tree.c:117-133 | whatever the lookup returns is the value of a node whose key is the query |
| MccTree.LookupMissesInsertedKey | src/proton/mcc/mcc-tree.c:85 | after inserting "b" and then "a", the lookup by `strcmp` does not find "a" |
| MccTree.StrDup | src/proton/mcc/mcc-tree.c:6-21 | a fresh buffer holding the string and its terminator |
| MccTree.NewNode | src/proton/mcc/mcc-tree.c:63-80 | a node exactly when allocation succeeds, holding the key before the '=' and the value after it, neither holding a NUL |
| MccTree.NodeStrings | src/proton/mcc/mcc-tree.c:63-80 | the key read out of the copy is the text before the '=', and the value the C string after it |
| MccTree.MccMap.constructor | src/proton/mcc/mcc-tree.c:36-44 | a new map has no nodes and no root |
| MccTree.MccMap.Insert | src/proton/mcc/mcc-tree.c:107-115 | a key already present leaves the map alone with 0; otherwise one leaf is attached where the walk ended, or 1 with the map unchanged when allocation fails |
| MccTree.MccMap.InsertBelow | src/proton/mcc/mcc-tree.c:82-105 | the recursive step leaves the same map as `Insert`, keeping the root |
| MccTree.MccMap.LookupAsWritten | src/proton/mcc/mcc-tree.c:117-133 | answers the walk by `strcmp`, and a value found is the value of a node whose key equals the query |
| MccTree.MccMap.Lookup | src/proton/mcc/mcc-tree.c:117-133 | walking by insertion's comparison, the value of every key in the map is found, and nothing else |
| MccTree.MccMap.Clear | src/proton/mcc/mcc-tree.c:135-139 | the map has no nodes and no root |
| MccBuffer.GrowBuffer.constructor | src/proton/mcc/mcc-read.c:82-97 | an empty buffer with room for the requested number of elements |
| MccBuffer.GrowBuffer.Double | src/proton/mcc/mcc-read.c:104-115 | doubles the capacity, keeping every element; a failed allocation changes nothing and returns 1 |
| MccBuffer.GrowBuffer.Reset | src/proton/mcc/mcc-read.c:116-120 | the buffer is emptied and its allocation kept |
| MccBuffer.GrowBuffer.PushBack | src/proton/mcc/mcc-read.c:121-140 | a full buffer doubles first; if that fails nothing is appended and 1 is returned, otherwise the element is appended after the unchanged earlier ones |
| MccBuffer.GrowBuffer.Shrink | src/proton/mcc/mcc-read.c:186-194 | the allocation is cut to the elements held, which are kept |
| MccLine.ReadPlainLine | src/proton/mcc/mcc-read.c:212-233 | a line ended by '\n' or by the end of the file is stored without its ending |
| MccLine.ReadCrLfLine | src/proton/mcc/mcc-read.c:220-223 | a line ended by "\r\n" is stored without the '\r' |
| MccLine.FGetLine | src/proton/mcc/mcc-read.c:212-233 | the buffer holds the line read from p followed by '\0', or 1 is returned when the buffer cannot grow |
| MccLine.ReadChars | src/proton/mcc/mcc-read.c:216-231 | appends the characters of the line read from p to the buffer, or 1 when the buffer cannot grow |
| MccLine.ReadStep | src/proton/mcc/mcc-read.c:216-231 | one pass either ends the line or appends characters of it, so that what is appended plus the rest of the line is the whole line |
| MccLine.PushCrPair | src/proton/mcc/mcc-read.c:224-229 | pushes a lone '\r' and the character after it; if the first push fails, the second fails too |
| MccValidate.AssignmentError | src/proton/mcc/mcc-read.c:281-296 | an assignment is valid exactly outside the two scopes that refuse it: outside the file and inside data |
| MccValidate.ValidateOpen | src/proton/mcc/mcc-read.c:298-332 | an open is valid exactly from the scope just outside it, a scan carrying the index after the last one; it raises the depth by one and records the scan; a refusal changes nothing and is SCAN_SKIPPED when only the index is wrong |
| MccValidate.ValidateClose | src/proton/mcc/mcc-read.c:333-361 | a close is valid exactly from its own depth, a scan only with the index of the last one; it lowers the depth by one; a refusal changes nothing |
| MccValidate.DataError | src/proton/mcc/mcc-read.c:363-370 | data is valid exactly at data depth |
| MccValidate.ExitError | src/proton/mcc/mcc-read.c:392-399 | the end of the file is valid exactly at depth 0 |
| MccValidate.Validate | src/proton/mcc/mcc-read.c:372-390 | empty lines are always valid and unclassifiable ones never; only delimiters change the scope, by one level at most; data and assignments are valid exactly where their validators say |
| MccValidate.MapInsert | src/proton/mcc/mcc-tree.c:107-115 | after an insertion the key is found, and a key already present changes nothing |
| MccValidate.Step | src/proton/mcc/mcc-read.c:372-390 | a refused line changes nothing; an accepted scan open appends its position; only an accepted assignment at file depth changes the map |
| MccValidate.RawLinesStarts | src/proton/mcc/mcc-read.c:408-420 | the line starts increase from p |
| MccValidate.RawLinesRead | src/proton/mcc/mcc-read.c:408-420 | each line is the one read at its start, and the next starts where that read leaves the stream |
| MccValidate.ClassifiedLines | src/proton/mcc/mcc-read.c:408-420 | the classified lines are lines of the file, the first starting at p, and each statement is well formed |
| MccValidate.StepRecordsScan | src/proton/mcc/mcc-read.c:307-321 | one step keeps the depth in range and the count of recorded scans equal to the last index, adding a position only for `BEGIN_SCAN` with the next index |
| MccValidate.RunRecordsScans | src/proton/mcc/mcc-read.c:401-431 | a parse keeps the count of scans equal to the last index, each recorded position starts the `BEGIN_SCAN` line of its scan in increasing order, and a parse without error ends at depth 0 |
| MccValidate.ClassifiedLine | src/proton/mcc/mcc-read.c:408-420 | the j-th classified line is the statement of the line read at its start |
| MccValidate.EnumeratedScans | src/proton/mcc/mcc-read.c:401-431 | position k starts a line reading `BEGIN_SCAN k`, the scans are numbered from 1 without gaps, their positions increase, and a file that parses ends outside every scope |
| MccRead.AssignText | src/proton/mcc/mcc-read.c:281-296 | the buffer from an assignment's first character holds exactly its key, '=' and value, so the insertion inserts the statement's pair |
| MccRead.ReadStatement | src/proton/mcc/mcc-read.c:410-414 | the statement of the i-th classified line, and whether it is the last or where the next one starts; 1 only when allocation fails |
| MccRead.ParseContext.constructor | src/proton/mcc/mcc-read.c:252-268 | outside every scope, no scan seen, the file's map attached |
| MccRead.ParseContext.Run | src/proton/mcc/mcc-read.c:408-424 | the state and status become those of the parse of the lines, unless allocation fails |
| MccRead.ParseContext.ParseLine | src/proton/mcc/mcc-read.c:410-418 | one line changes the state as one step of the parse does; an allocation failure changes nothing |
| MccRead.ParseContext.ValidateAssignment | src/proton/mcc/mcc-read.c:281-296 | refused outside the file and inside data, inserted into the map at file depth, accepted without effect inside a scan |
| MccRead.ParseContext.ValidateOpenDelim | src/proton/mcc/mcc-read.c:298-332 | opens one level deeper only from the scope just outside; a scan needs the index after the last one and its position is recorded |
| MccRead.ParseContext.ValidateCloseDelim | src/proton/mcc/mcc-read.c:333-361 | closes only from its own depth, a scan only with the index of the last one opened |
| MccRead.ParseContext.ValidateStatement | src/proton/mcc/mcc-read.c:372-390 | the step of the parse, or an allocation failure that changes nothing |
| MccRead.Grown | src/proton/mcc/mcc-read.c:480-506 | the corrected capacity is always larger than the old one |
| MccRead.MccScan.constructor | src/proton/mcc/mcc-read.c:29-64 | an empty map and room for one sample |
| MccRead.MccScan.Grow | src/proton/mcc/mcc-read.c:480-506 | every sample is kept and there is room for one more; non-zero with nothing changed when the allocation fails |
| MccRead.MccScan.Shrink | src/proton/mcc/mcc-read.c:507-514 | the vectors are cut to exactly count entries, keeping the ones both sizes hold |
| MccRead.MccScan.Clear | src/proton/mcc/mcc-read.c:515-520 | the map is emptied and there is room for one sample |
| MccRead.MccScan.Store | src/proton/mcc/mcc-read.c:541-560 | an assignment goes into the map; a data line is stored at index count, the samples before it kept; non-zero only when allocation fails |
| MccRead.MccScan.ReadScan | src/proton/mcc/mcc-read.c:521-573 | the map and samples become those of the scan the lines hold, or the scan is reported unterminated; failure only when allocation fails |
| MccRead.MccScan.ReadStatements | src/proton/mcc/mcc-read.c:534-569 | reading stops at the first `END_SCAN`, with the map and the first `count` samples those of the scan the lines hold; or the lines run out (unterminated); or an allocation failed |
| MccRead.MccScan.Keep | src/proton/mcc/mcc-read.c:541-563 | an assignment goes into the map, a data statement becomes the next sample, and the scan from this line is the one from the next line with these kept, or ends here at `END_SCAN`; failure only when allocation fails |
| MccRead.MccScan.GetDouble | src/proton/mcc/mcc-read.c:575-589 | 1 when the key is absent, 2 when the value has no numeric prefix, 0 with the number otherwise; the key is looked up with the corrected `MccMap.Lookup`, where the source's `strcmp` walk can answer 1 for a stored key (Findings) |
| MccRead.MccScan.GetInteger | src/proton/mcc/mcc-read.c:591-605 | the same with a decimal integer, over the corrected lookup |
| MccRead.MccScan.GetString | src/proton/mcc/mcc-read.c:607-611 | the value, and 1 exactly when the key is absent from the map, over the corrected lookup |
| MccRead.MccFile.constructor | src/proton/mcc/mcc-read.c:433-458 | an empty map and no scans known |
| MccRead.MccFile.EnumerateScans | src/proton/mcc/mcc-read.c:401-431 | the status and map are those of the parse of the whole file, the error being reported; the scan table is replaced only on success |
| MccRead.MccFile.GetScan | src/proton/mcc/mcc-read.c:521-573 | the scan holds the map and samples of scan n + 1 read from its `BEGIN_SCAN`, or is reported unterminated; failure only when a buffer or allocation fails |
| MccRead.MccFile.EnumerateScansAsWritten | src/proton/mcc/mcc-read.c:428-430 | as written only a context allocation failure is reported, whatever the parse found |
| MccRead.ParseText | src/proton/mcc/mcc-read.c:405-427 | the parse of the whole text and, on success, the positions it collected, cut to size |
| MccRead.OpenMccFile | src/proton/mcc/mcc-read.c:433-464 | a file is returned only when the whole text parses, with the map and scan table of that parse, and always then when nothing fails to allocate |
| MccRead.UnclassifiableFileFails | src/proton/mcc/mcc-read.c:428-430 | a file holding only "?" does not parse, yet the function as written reports success |
| MccRead.EmptyScanLeavesNoRoom | src/proton/mcc/mcc-read.c:480-506 | as written a vector left with no entries doubles to 0 and has no room for the next sample |
| MccRead.RoomAsWrittenFromSome | src/proton/mcc/mcc-read.c:480-506 | as written a vector with at least one entry always has room after growing |
| MccRead.RoomAlways | src/proton/mcc/mcc-read.c:480-506 | the corrected growth always leaves room |
| MccRead.StepClosesScans | src/proton/mcc/mcc-read.c:333-361 | only an `END_SCAN` takes the parse out of a scan, and it closes the last scan opened |
| MccRead.RunClosesScans | src/proton/mcc/mcc-read.c:401-431 | a parse keeps the recorded scans closed |
| MccRead.LinesAgree | src/proton/mcc/mcc-read.c:521-573 | two readings of the same text that reach the same offset agree from there on |
| MccRead.SamplesOf | src/proton/mcc/mcc-read.c:613-622 | vectors that hold the samples entry by entry hold exactly them |
| MccRead.SameLine | src/proton/mcc/mcc-read.c:212-233 | two lines of the same text with the same start are the same line and are followed alike |
| MccRead.CollectEnds | src/proton/mcc/mcc-read.c:534-569 | reading until an `END_SCAN` stops at the first one |
| MccRead.SuffixEnds | src/proton/mcc/mcc-read.c:534-569 | lines that run on to a line closing a scan stop there |
| MccRead.EnumeratedScansEnd | src/proton/mcc/mcc-read.c:521-573 | for a file that parses, every recorded scan is closed by a later `END_SCAN`, so `get_scan` reads it to its end |
| MccDataLex.GetError | src/proton/mcc-data.c:45-60 | a non-empty message exactly for the codes from MCC_ERROR_NOMEM to MCC_ERROR_UNCLASSIFIABLE |
| MccDataLex.ErrorStringsDistinct | src/proton/mcc-data.c:45-60 | distinct codes have distinct messages |
| MccDataLex.StrtokWs | src/proton/mcc-data.c:178-195 | whitespace is skipped; at the terminator there is no token, otherwise the maximal run up to whitespace or the terminator |
| MccDataLex.StrCmpRng | src/proton/mcc-data.c:201-212 | true exactly when the range equals the C string |
| MccDataLex.FindDelim | src/proton/mcc-data.c:276-291 | the first entry of `delims` equal to the token, and none when none is |
| MccDataLex.DelimWordsDistinct | src/proton/mcc-data.c:160-167 | the six words are pairwise different, so the first match is the only one |
| MccDataLex.LineTerm | src/proton/mcc-data.c:227-233 | the longest prefix without a newline |
| MccDataLex.ClassifyAssignment | src/proton/mcc-data.c:236-250 | an assignment exactly when the C string holds '='; the key is everything before the first '=', the value what follows cut at the newline |
| MccDataLex.ClassifyDelim | src/proton/mcc-data.c:276-291 | a delimiter exactly when the first token is one of the six words, and that word |
| MccDataLex.LTrim | src/proton/mcc-data.c:217-223 | the first character that is not whitespace, everything before it being whitespace |
| MccDataLex.ClassificationOrder | src/proton/mcc-data.c:294-305 | assignment exactly when the line holds '=', then data, then delimiter, else invalid |
| MccDataLex.BlankLineInvalid | src/proton/mcc-data.c:294-305 | a line of whitespace only is invalid |
| MccDataLex.AssignmentRoundTrip | src/proton/mcc-data.c:236-250 | an assignment line reads back as its key and value |
| MccDataLex.WordNotNumber | src/proton/mcc-data.c:253-273 | a delimiter word is never read as data |
| MccDataLex.NoAssignment | src/proton/mcc-data.c:236-250 | a line without '=' is no assignment |
| MccDataLex.DelimLineToken | src/proton/mcc-data.c:178-195 | the token of a line holding only a delimiter word is that word |
| MccDataLex.FindDelimWord | src/proton/mcc-data.c:276-291 | a delimiter's word is found at its own entry |
| MccDataLex.DelimiterRoundTrip | src/proton/mcc-data.c:294-305 | a delimiter word on a line of its own reads back as that delimiter |
| MccDataLex.DataLineClassified | src/proton/mcc-data.c:253-273 | both numbers of a line of two integers read back |
| MccDataLex.DataRoundTrip | src/proton/mcc-data.c:294-305 | two integers separated by a space read back as a data pair |
| MccDataScan.Compare | src/proton/mcc-data.c:469-480 | -1, 0 or 1, negative exactly when a < b and positive exactly when a > b |
| MccDataScan.CompareIsOrder | src/proton/mcc-data.c:469-480 | the comparator is a total preorder, as `qsort` needs |
| MccDataScan.SortBy | src/proton/mcc-data.c:483-493 | the same elements as a multiset, ordered by key |
| MccDataScan.SortedScansCompare | src/proton/mcc-data.c:469-474 | a list ordered by key is ordered by the comparator |
| MccDataScan.SortEach | src/proton/mcc-data.c:487-491 | each scan keeps its ordinate and its samples as a multiset, which are now sorted by position |
| MccDataScan.DosesLength | src/proton/mcc-data.c:516-531 | there is one dose per sample of every scan |
| MccDataScan.PeakIsMaximum | src/proton/mcc-data.c:496-513 | the running maximum is at least 0 and every dose, and equal to 0 or one of them |
| MccDataScan.CountAboveAtMost | src/proton/mcc-data.c:516-531 | the support count never exceeds the number of doses |
| MccDataScan.CountAboveHas | src/proton/mcc-data.c:516-531 | a dose above the threshold is counted |
| MccDataScan.SupportNotEmpty | src/proton/mcc-data.c:502-531 | if some dose is positive, the largest lies above a tenth of the peak, so the support is not empty |
| MccDataScan.BSearch | src/proton/mcc-data.c:588-625 | the answer lies between one before the window and its last index |
| MccDataScan.BSearchWindow | src/proton/mcc-data.c:588-625 | on ascending keys, with smaller keys left and larger right of the window, the answer is -1 or an index whose key is not above the query, and either its key is the query or every later key is above it |
| MccDataScan.BSearchLargest | src/proton/mcc-data.c:588-625 | both searches answer the index of the largest key not above the query, or -1 when there is none |
| MccDataScan.BSearchIsLastAtMost | src/proton/mcc-data.c:588-625 | on strictly ascending keys the search equals the plain scan |
| MccDataScan.PointDoseOutsideScans | src/proton/mcc-data.c:669-681 | below the first scan or above the last one the point dose is 0 |
| MccDataScan.InterpScanOutside | src/proton/mcc-data.c:630-646 | before a scan's first sample or after its last one the interpolation is the -1 sentinel |
| MccDataScan.OffsetInUnit | src/proton/mcc-data.c:630-646 | the relative offset of a point in a bracket lies in [0, 1) |
| MccDataScan.BracketHolds | src/proton/mcc-data.c:630-646 | the left end of the bracket found is not after the query, and the right end is after it unless both share one position |
| MccDataScan.InterpScanBetween | src/proton/mcc-data.c:630-646 | inside a scan the interpolated dose lies between the doses of the two bracketing samples |
| MccDataScan.InterpolationBetween | src/proton/mcc-data.c:630-666 | the interpolation formula in a bracket lies between its end values |
| MccDataScan.InterpScanAtSample | src/proton/mcc-data.c:630-646 | at a sample position the interpolation gives that sample's dose |
| MccDataScan.SearchAtSample | src/proton/mcc-data.c:588-625 | on strictly ascending keys, searching for a key finds its index |
| MccDataLoad.SwitchIsTransition | src/proton/mcc-data.c:335-361 | the switch accepts exactly the six combinations of the table, each moving the scope by one |
| MccDataLoad.PushBackScan | src/proton/mcc-data.c:79-97 | a full scan doubles first and fails only when that fails; otherwise the sample is appended after the unchanged earlier ones |
| MccDataLoad.PushScanStore | src/proton/mcc-data.c:100-117 | a full vector doubles, then an empty scan at y is appended with room for 128 samples |
| MccDataLoad.ScopeStep | src/proton/mcc-data.c:314-362 | a successful scope step keeps the loader's invariant |
| MccDataLoad.ScopeStepTable | src/proton/mcc-data.c:316-361 | only the six transitions pass; opening data fails with the missing attribute, off-axis first; closing data forgets both; only opening data adds a scan |
| MccDataLoad.KeyvalStep | src/proton/mcc-data.c:379-394 | in scan scope the two keys are read as numbers and marked found; other assignments are ignored; a value without a number fails |
| MccDataLoad.DataStep | src/proton/mcc-data.c:397-403 | a successful data step keeps the loader's invariant |
| MccDataLoad.DataInsideBlockStored | src/proton/mcc-data.c:397-403 | inside a data block there is always a scan, so the guard only rejects what the C writes out of bounds |
| MccDataLoad.Step | src/proton/mcc-data.c:417-430 | a successful step keeps the loader's invariant |
| MccDataLoad.Run | src/proton/mcc-data.c:406-432 | a load that goes through keeps the loader's invariant |
| MccDataLoad.RunExtendsScans | src/proton/mcc-data.c:406-432 | a load never removes scans, and the scans there were keep their ordinates |
| MccDataLoad.Support | src/proton/mcc-data.c:516-531 | the support is at most the number of doses, and at least 1 exactly when some dose is positive |
| MccDataLoad.Trimmed | src/proton/mcc-data.c:435-466 | each scan keeps its ordinate and samples, and its allocation equals its sample count |
| MccDataLoad.SortOrders | src/proton/mcc-data.c:483-493 | after sorting, the scans ascend by ordinate and each scan's samples by position |
| MccDataLoad.PushScanAsWrittenOverflows | src/proton/mcc-data.c:100-117 | as written the recorded capacity exceeds the old one while the block holds no more than the old one |
| MccDataLoad.DataBeforeScanAsWritten | src/proton/mcc-data.c:424-425 | a first line "1 2" is a data statement that the C stores at index -1; this model rejects it |
| MccDataLoad.ParseContext.constructor | src/proton/mcc-data.c:408-412 | the initial context: outside every scope, no attribute found |
| MccDataLoad.ParseContext.ScopeCheck | src/proton/mcc-data.c:314-362 | the context and data change as `ScopeStep` says |
| MccDataLoad.ParseContext.KeyvalCheck | src/proton/mcc-data.c:379-394 | the context changes as `KeyvalStep` says |
| MccDataLoad.MccData.constructor | src/proton/mcc-data.c:534-544 | no scans, room for 64, zero sum and support |
| MccDataLoad.MccData.PushScan | src/proton/mcc-data.c:100-117 | the store changes as `PushScanStore` says, or MCC_ERROR_NOMEM |
| MccDataLoad.MccData.PushBack | src/proton/mcc-data.c:79-97 | the last scan changes as `PushBackScan` says and nothing else changes, or MCC_ERROR_NOMEM |
| MccDataLoad.MccData.Trim | src/proton/mcc-data.c:435-466 | succeeds exactly when allocation does, leaving every scan and the vector cut to what they hold; otherwise MCC_ERROR_NOMEM |
| MccDataLoad.MccData.Sort | src/proton/mcc-data.c:483-493 | the scans are sorted by ordinate and each scan's samples by position |
| MccDataLoad.MccData.Threshold | src/proton/mcc-data.c:502-513 | a tenth of the largest dose, or 0 when no dose is positive |
| MccDataLoad.MccData.Integrate | src/proton/mcc-data.c:516-531 | sum is the total of all doses, and nsupp counts the doses above a tenth of max(0, all doses) |
| MccDataLoad.MccData.ScanBSearch | src/proton/mcc-data.c:588-605 | on ascending ordinates, the index of the largest not above the query, or -1 |
| MccDataLoad.DataBSearch | src/proton/mcc-data.c:608-625 | on ascending positions, the index of the largest not above the query, or -1 |
| MccDataLoad.Sums | src/proton/mcc-data.c:516-531 | the total of all doses and the count above t |
| MccDataLoad.ScanPeak | src/proton/mcc-data.c:502-513 | the running maximum continued over one scan's doses |
| MccDataLoad.ScanSums | src/proton/mcc-data.c:516-531 | the running sum and count continued over one scan's doses |
| MccDataLoad.Dispatch | src/proton/mcc-data.c:417-430 | the context and data change as `Step` says for the statement |
| MccDataLoad.LoadNodes | src/proton/mcc-data.c:406-432 | the status and data are those `Run` gives for the statements of the lines |
| MccDataLoad.Alloc | src/proton/mcc-data.c:534-554 | a result exactly on success: the loaded scans trimmed, sorted by ordinate and by position, with the total dose and support; otherwise the load error or MCC_ERROR_NOMEM |
| MccDataLoad.Create | src/proton/mcc-data.c:557-570 | MCC_ERROR_FOPEN_FAILED when the file does not open; otherwise `Alloc`; the scans returned ascend by ordinate and their samples by position |

## Left out

- File and stream I/O (`fopen`, `fgets`, `fgetc`, `fgetpos`, `fsetpos`, `feof`) is left out. A file is its text; a position is an offset into it.
- Memory management is left out: `free_scan`, `free_linebuffer`, `free_fpos_vector`, `close_mcc_file`, `mcc_data_destroy`, `proton_image_destroy` and `cleanup_mcc_parse_context` only free memory. `strip_fpos_vector` and `swap_fpos_vectors` only hand the position block from the context to the file.
- Allocation failure is one boolean per call (`allocOk`, `fileOk`, `dataOk`, `bufferOk`). It stands for every allocation that call makes, not for each one separately.
- Floating point is modelled by exact `real` arithmetic: rounding, `fma` and the float/double casts are left out. So are the float kernels `proton_dose_interpolate_square`, `proton_dose_load_interpolant`, `proton_dose_interpolate_cell`, `proton_dose_get_plane`, `proton_planes_integrate` and `proton_gradient_compute`.
- `proton_dose_init` and `proton_dose_create` read a DICOM dose through DCMTK and are left out. `DoseGrid.constructor` starts from the integrated planes and stopping powers.
- `proton_dose_width`, `proton_dose_depth_range`, `proton_dose_coronal_aspect`, `proton_image_raw`, `get_n_mcc_scans` and `get_scan_data` are plain accessors. The last two are `MccFile`'s scan count and `MccScan.Data`; they carry no contract of their own.
- `CText.ParseDouble`: `strtod` is modelled for decimal input only. Hexadecimal, infinities, NaN, locale and overflow are left out, and values are exact.
- `CText.ParseLong`: `strtol` is modelled with an unbounded result and without `errno`. The clamp to `LONG_MAX` is left out.
- `MccRead.MccScan.GetDouble`: the output parameter keeps its old value (`prior`) when the key is absent, as in the source.
- `MccRead.MccScan.GetDouble`, `GetInteger` and `GetString` look the key up with the corrected `MccTree.MccMap.Lookup`. The source's `mcc_map_lookup` walks by `strcmp` and can miss a stored key: insert "b" then "a", and looking up "a" answers 1 in the C and 0 here (Findings). The as-written walk is `MccTree.MccMap.LookupAsWritten`.
- `MccRead.MccFile.GetScan`: the source does not check the scan number against the table. The model requires it to be in range.
- `MccRead.MccScan.Grow`: `double_mcc_scanvector` can fail after reallocating only some of its three vectors. The model makes the growth all or nothing.
- The 512-byte line buffer (`LINEBUFSZ`) that `mcc_data_alloc` passes to `fgets` is left out. A longer line would be split in two by the C; the model reads whole lines.
- `MccDataLoad.ParseContext.constructor`: the off-axis position and cross calibration start at 0.0. In the C they are uninitialised but never read before being set.
- `mcc_data_load_nodes` does not check the scope at the end of the file, and neither does the model. A file that stops inside a scan is loaded.
- `mcc_data_create` calls `fclose` on a NULL file when `fopen` fails. The model only returns `MCC_ERROR_FOPEN_FAILED`.
- `MccDataScan` offset: when two bracketing samples share one position the C divides by zero. The model takes the offset to be 0 there.
- `MccDataScan.SortBy`: `qsort` is specified by its result (a sorted permutation), computed by insertion sort. The source's sorting algorithm is not modelled.
- `enumerate_mcc_scans` leaves `n_scans` and `scan_pos` unset when the parse fails. In the model the file then simply has no scan table.
- `MccLine`: a line that never ends in the C (the stream stays at end without setting `feof`) cannot happen over text. The loop always ends at the end of the text.
- `DelaunayPool.TrianglePool.MinimumNode`, `FindBaseLREdge`, `SubmitCandidate` and `Merge` take a `fuel` bound and fail when it runs out. The source gives no termination argument for the tangent search and the merge loop, and the global empty-circumcircle property is not proved.
- `DelaunayPool.TrianglePool.ValidateManifold`: when a record has no empty slot the C scans past it. The model leaves the record unchanged.
- `DelaunayPool.TrianglePool.Valid`: the class invariant is the record layout, every partner naming a slot and every vertex naming a node. That the records form a closed range, that real triangles are counterclockwise and that the ghosts form one hull cycle is not part of it.
- `DelaunayPool.TrianglePool.Advance`: its pool is `DelaunayMerge.AdvanceMesh`. It stays closed only under the side conditions of `DelaunayMerge.AdvanceKeepsMutual`, which rest on the geometry of the hull and are not proved to hold inside the merge.
- `DelaunayPool.TrianglePool.Merge`: closure is proved for the join (`JoinBase`) but not carried through the flips of the merge loop, for the reason given for `Advance`. Nor is it proved that the merged triangles are counterclockwise, that the ghosts form one hull cycle, or that the result is a Delaunay triangulation.
- `DelaunayPool.TrianglePool.SubmitCandidate` and `MergeRound` state their pools through `DelaunayMerge.SubmitLoop` and `DelaunayMerge.MergeRoundSpec`. That their flips keep a closed range closed is not proved, for the reason given for `Advance`.
- `DelaunayPool.TrianglePool.Build2dTree`: closure is stated for leaves only. Counterclockwise orientation is proved for triple leaves only (`DelaunayMesh.MakeTriangleShape`). For more than three references both rest on `Merge`.
- `DelaunayPool.Triangulate` states the pool size and that a complete build uses every record. It does not state the shape of the mesh, for the reasons given for `Merge`.
- The collinear case of `triangle_circumcircle` is modelled as having no circle. The C divides by zero there.
- The threaded build in `delaunay.c` (`delaunay_entry`, the worker pool), the SIMD branches and the `USE_QSORT` branch are disabled in the source and left out.
- `DelaunayPool.TrianglePool.Reserve`: like the source, it does not check the capacity; its callers stay within the pool.
- Everything in `line-dose.cpp` besides `write_xaxis` and `write_yaxis` is drawing code and is left out. So is the text formatting of the tick labels: a label is the depth it names.
- `ProtonImage.Image.Dimension` models `proton_image_dimension` without a contract.

## Findings

| source | as written | input that shows it | evidently intended | confidence | as-written member | corrected member |
|---|---|---|---|---|---|---|
| src/proton/delaunay/delaunay.c:406-408 | the swap stores `vs[center]` twice, so the order of a collinear triple never changes | nodes (0,0), (2,0), (1,0) | move the middle node to position 1 so the two segments share it | not executed | DelaunayMesh.CollinearOrderAsWrittenOverlaps | DelaunayMesh.CollinearOrderSharesMiddle |
| src/proton/proton-image.c:27-40 | with no image yet and a picture of size 0, nothing is allocated and the dimensions are written through NULL | no image, width 640, height 0 | allocate whenever there is no image | not executed | ProtonImage.ReallocAsWrittenZeroHeight | ProtonImage.ImageSlot.Realloc |
| src/proton/proton-dose.c:156-160 | `proton_stppwr_get_dose` reads entry i + 1 of the stopping powers, which keep only the `dimy` rows; when the last row is above the threshold, nplanes is `dimy` and entry `dimy` is past the end | two rows, both above the threshold, a depth in the second plane | give the stopping powers an entry past the last plane, zero when no row follows it | not executed | ProtonDose.StppwrGetDoseAsWrittenOverruns | ProtonDose.StppwrAgreesAsWritten |
| src/proton/mcc/mcc-tree.c:85 | insertion orders keys by `strsegcmp` and lookup by `strcmp`, so a key stored to the left of a larger one is looked for on the right | insert "b" then "a", look up "a" | walk by the comparison insertion used | not executed | MccTree.LookupMissesInsertedKey | MccTree.MccMap.Lookup |
| src/proton/mcc-data.c:105-115 | on a full vector the recorded capacity doubles but `realloc` shrinks the block to room for one scan pointer, and the new scan is stored past it | a file with 65 scans | reallocate to the doubled capacity | not executed | MccDataLoad.PushScanAsWrittenOverflows | MccDataLoad.PushScanStore |
| src/proton/mcc/mcc-read.c:428-430 | the failure label returns `MCC_PARSE_NO_ERROR`, so `open_mcc_file` accepts a file that does not parse | a file holding only "?" | return the parse error | not executed | MccRead.UnclassifiableFileFails | MccRead.OpenMccFile |
| src/proton/mcc/mcc-read.c:480-506 | a vector shrunk to 0 by a scan without data doubles to 0, and the next sample is written at index 0 of an empty block | a scan without data lines, then a scan with one | grow an empty vector to 1 | not executed | MccRead.EmptyScanLeavesNoRoom | MccRead.RoomAlways |
| src/proton/mcc-data.c:424-425 | a data line before any `BEGIN_DATA` is stored into `scans[-1]` | a file whose first line is "1 2" | reject data when there is no scan | not executed | MccDataLoad.DataBeforeScanAsWritten | MccDataLoad.DataInsideBlockStored |
