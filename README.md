# umeshu half-edge triangulation core in Dafny

This project models the half-edge connectivity of umeshu's planar
triangulations (`src/umeshu/Triangulation_items.h`) and the contract of the
orientation predicate its edge flip is gated on
(`src/umeshu/Exact_adaptive_kernel.cpp`).

The model is an arena. Nodes, halfedges, edges and faces are indices. Every
reference field the core reads or writes is a sequence indexed by the entity:

- per halfedge: `next`, `prev`, `pair`, `origin` and `face` (`None` for a
  boundary halfedge);
- per edge: its halfedges `he1` and `he2`;
- per face: its anchor halfedge `faceHe`;
- per node: its anchor halfedge `nodeHe` (`None` for an isolated node) and
  its `position`.

The files:

- `kernel.dfy` (module `Kernel`): points with real coordinates, the
  orientation determinant, and `OrientedSide` as its exact three-way sign.
- `connectivity.dfy` (module `Connectivity`): the `Mesh` snapshot, the
  invariants of a triangulation (`Valid`), and the read-only queries:
  - halfedge and edge `is_boundary`;
  - edge `vertices` and the flip guard `is_diagonal_of_convex_quadrilateral`;
  - face `is_triangle` and `nodes`.
- `rotation.dfy` (module `Rotation`): the `pair().next()` rotation around a
  node. When `pair` is an involution and `prev` inverts `next`, the rotation
  step is injective (`RotInjective`), so every walk returns to its start
  (`RotationReturns`).
- `flip.dfy` (module `EdgeFlip`): the edge flip as a function `Flipped` on
  the mesh, and the proofs that it keeps every invariant, what it rewires,
  what it leaves alone, and what flipping twice gives.
- `arena.dfy` (module `Arena`): class `Triangulation`, whose fields are the
  same sequences.
  - `Degree`, `BoundaryHalfedge` and `NodeIsBoundary` are the source's
    do-while walks, as loops with invariants.
  - `Flip` performs the source's writes in the source's order and is proved
    equal to `Flipped`.
- `scenarios.dfy` (module `Scenarios`): two triangles sharing a diagonal,
  instantiated as the unit square and as a dart (a quadrilateral with one
  reflex corner).
- `wrappers.dfy`: the `Option` type.

The guard's name promises a convex quadrilateral, but the active check only
asks both triangles beside the edge to be counter-clockwise
(`GuardIffBothTrianglesCounterClockwise`). It therefore also admits a
quadrilateral with a reflex corner, whose flip folds a triangle over.
`FlipKeepsCounterClockwiseIffConvex` states exactly when a legal flip keeps
the winding: when the four-way check, which is commented out in the source,
holds. `ConvexIffFlippableBothWays` shows that the four-way check is the
guard holding for both diagonals. See "Findings".

## Model

| member | source | states |
|---|---|---|
| `Kernel.OrientedSide` | src/umeshu/Exact_adaptive_kernel.cpp:40-55 | positive, negative or boundary exactly when the orientation determinant is above, below or equal to zero |
| `Kernel.OrientedSideAntisymmetric` | src/umeshu/Exact_adaptive_kernel.cpp:40-55 | swapping the two points of the line swaps the side of every test point |
| `Kernel.OrientedSideCyclic` | src/umeshu/Exact_adaptive_kernel.cpp:40-55 | the side does not change when the three points are rotated |
| `Connectivity.HalfedgeIsBoundary` | src/umeshu/Triangulation_items.h:153-156 | a halfedge is on the boundary exactly when it has no face; one that is not names an existing face |
| `Connectivity.EdgeIsBoundary` | src/umeshu/Triangulation_items.h:195-198 | an edge is on the boundary when either of its halfedges is; an interior edge has an existing face on both sides |
| `Connectivity.FaceIsTriangle` | src/umeshu/Triangulation_items.h:327-330 | the halfedge before the anchor is two next steps after it; when next and prev are inverses, three next steps then lead back to the anchor |
| `Connectivity.IsDiagonalOfConvexQuadrilateral` | src/umeshu/Triangulation_items.h:213-239 | a boundary edge (one of whose halfedges has no face) is never flippable; otherwise p2 must be strictly right of p1 -> p3 and p4 strictly left |
| `Connectivity.GuardIffBothTrianglesCounterClockwise` | src/umeshu/Triangulation_items.h:213-229 | for an interior edge of a valid mesh, the guard holds exactly when both triangles beside the edge wind counter-clockwise |
| `Connectivity.EdgeVertices` | src/umeshu/Triangulation_items.h:200-204 | the edge's vertices are positions of nodes of the mesh |
| `Connectivity.EdgeVerticesAreEndpoints` | src/umeshu/Triangulation_items.h:200-204 | in a valid mesh the second vertex is the destination of he1 |
| `Connectivity.BoundaryLoopsAreClosed` | src/umeshu/Triangulation_items.h:153-156 | the halfedges before and after a boundary halfedge are boundary halfedges too |
| `Connectivity.PrevStaysOnFace` | src/umeshu/Triangulation_items.h:153-156 | helper for `BoundaryLoopsAreClosed`: the halfedge before a halfedge that bounds a face bounds the same face, so the one before a boundary halfedge cannot bound a face |
| `Connectivity.TriangleIffThreeCycle` | src/umeshu/Triangulation_items.h:327-330 | `is_triangle` holds exactly when three next steps lead from the anchor back to it |
| `Connectivity.ValidFacesAreTriangles` | src/umeshu/Triangulation_items.h:327-330 | in a valid mesh every face passes `is_triangle`, so the assertion in `nodes` holds |
| `Connectivity.FaceNodes` | src/umeshu/Triangulation_items.h:332-338 | the three nodes are existing nodes; they are the origins of the anchor, its pair and its predecessor |
| `Connectivity.FaceNodesWalkTheCycle` | src/umeshu/Triangulation_items.h:332-338 | in a valid mesh `nodes` returns the origins of the anchor and of its next two halfedges, all on the face |
| `Rotation.Rot` | src/umeshu/Triangulation_items.h:79 | the step `pair` then `next` of both walks around a node (also line 104) leads to an existing halfedge |
| `Rotation.RotationStaysAtNode` | src/umeshu/Triangulation_items.h:76-81 | every halfedge met by the pair-then-next walk leaves the node the walk started at |
| `Rotation.RotationReturns` | src/umeshu/Triangulation_items.h:76-81 | the walk is back at its start after at most as many steps as there are halfedges, so both do-while loops end |
| `Rotation.RotationPeriodDistinct` | src/umeshu/Triangulation_items.h:76-81 | the halfedges met within one turn are pairwise distinct |
| `Rotation.RotationPeriodUnique` | src/umeshu/Triangulation_items.h:67-85 | the length of the turn through a halfedge is unique, so the degree is determined |
| `Rotation.RotationPeriodAtMostOutgoing` | src/umeshu/Triangulation_items.h:67-85 | the degree never exceeds the number of halfedges leaving the node |
| `Arena.Triangulation.Degree` | src/umeshu/Triangulation_items.h:67-85 | 0 for an isolated node, otherwise the number of steps after which the walk from the anchor first returns to it |
| `Arena.Triangulation.BoundaryHalfedge` | src/umeshu/Triangulation_items.h:87-109 | none for an isolated node; otherwise the first halfedge without a face on the walk from the anchor, or none when every halfedge of the walk has a face |
| `Arena.Triangulation.NodeIsBoundary` | src/umeshu/Triangulation_items.h:111-114 | true exactly when the node has an anchor and some halfedge of its walk has no face |
| `EdgeFlip.QuadOf` | src/umeshu/Triangulation_items.h:244-255 | the handles the flip reads all refer to existing entities |
| `EdgeFlip.QuadShape` | src/umeshu/Triangulation_items.h:244-255 | in a valid mesh, for a guarded edge, the quadrilateral read is two 3-cycles h1 -> h3 -> h4 and h2 -> h5 -> h6 on f1 and f2, with n3, n4 at the far corners and all handles distinct |
| `EdgeFlip.Rewire` | src/umeshu/Triangulation_items.h:257-292 | the rewired mesh keeps every handle in range, the pairing, the edges' halfedges and the positions |
| `EdgeFlip.RewireFaces` | src/umeshu/Triangulation_items.h:257-265 | f1 is anchored at h1 and f2 at h2; h1, h4, h5 lie on f1 and h2, h6, h3 on f2; every other halfedge keeps its face |
| `EdgeFlip.RewireNodeAnchors` | src/umeshu/Triangulation_items.h:267-275 | n1's anchor moves from h1 to h5 and n2's from h2 to h3, only when it was there; every other anchor is unchanged |
| `EdgeFlip.RewireOrigins` | src/umeshu/Triangulation_items.h:277-278 | h1 now starts at n3 and h2 at n4; every other halfedge keeps its origin |
| `EdgeFlip.RewireNext` | src/umeshu/Triangulation_items.h:280-292 | next forms the cycles h1 -> h4 -> h5 -> h1 and h2 -> h6 -> h3 -> h2 and is unchanged elsewhere |
| `EdgeFlip.RewirePrev` | src/umeshu/Triangulation_items.h:280-292 | prev runs the same two cycles backwards and is unchanged elsewhere |
| `EdgeFlip.Flipped` | src/umeshu/Triangulation_items.h:241-293 | the flip keeps every handle in range, the counts of halfedges, edges, faces and nodes, the pairing, the edges' halfedges and the positions |
| `EdgeFlip.RewireTurns` | src/umeshu/Triangulation_items.h:241-293 | the rewiring turns the quadrilateral: the new mesh has the turned shape, and nothing outside the six halfedges, two faces and two nodes changes |
| `EdgeFlip.TurningKeepsNextPrevInverse` | src/umeshu/Triangulation_items.h:280-292 | after the turn prev is still the inverse of next everywhere |
| `EdgeFlip.TurningKeepsPairStartsAtDestination` | src/umeshu/Triangulation_items.h:277-292 | after the turn every halfedge's pair still starts where the halfedge ends |
| `EdgeFlip.TurningKeepsFacesAreThreeCycles` | src/umeshu/Triangulation_items.h:257-292 | after the turn every face is still a closed 3-cycle on that face |
| `EdgeFlip.TurningKeepsFaceAnchors` | src/umeshu/Triangulation_items.h:257-265 | after the turn every face's anchor still lies on it, and every halfedge of a face on the anchor's cycle |
| `EdgeFlip.TurningKeepsNodeAnchors` | src/umeshu/Triangulation_items.h:267-278 | after the turn every node's anchor still starts at that node |
| `EdgeFlip.TurningPreservesValid` | src/umeshu/Triangulation_items.h:241-293 | a turn keeps every connectivity invariant |
| `EdgeFlip.FlipRewiresQuadrilateral` | src/umeshu/Triangulation_items.h:241-293 | a guarded flip turns the quadrilateral; afterwards the edge is interior and reads the turned quadrilateral |
| `EdgeFlip.FlipPreservesValid` | src/umeshu/Triangulation_items.h:241-293 | a guarded flip of a valid mesh gives a valid mesh |
| `EdgeFlip.FlipKeepsEntities` | src/umeshu/Triangulation_items.h:241-293 | no entity is created or destroyed; pair, he1, he2 and positions are unchanged |
| `EdgeFlip.FlipTurnsDiagonal` | src/umeshu/Triangulation_items.h:241-293 | after the flip the edge joins n3 and n4, and the faces are the triangles (n3, n4, n1) and (n4, n3, n2) |
| `EdgeFlip.FlipTwice` | src/umeshu/Triangulation_items.h:250-292 | a legal second flip puts the diagonal back between n1 and n2, reversed; f1 and f2 have swapped the triangles they bound |
| `EdgeFlip.FlippedGuard` | src/umeshu/Triangulation_items.h:213-229 | after a flip, the guard of the same edge compares the same four points across the new diagonal p2 -> p4 |
| `EdgeFlip.IsConvexQuadrilateral` | src/umeshu/Triangulation_items.h:230-236 | the commented-out four-way check: the edge is interior and p1, p2, p3, p4 each turn left; it implies the guard that is in force |
| `EdgeFlip.ConvexIffFlippableBothWays` | src/umeshu/Triangulation_items.h:230-236 | the commented-out four-way check holds exactly when the guard holds before the flip and again after it |
| `EdgeFlip.TurningKeepsCounterClockwise` | src/umeshu/Triangulation_items.h:241-293 | a turn keeps every face counter-clockwise when the two new triangles are |
| `EdgeFlip.FlipKeepsCounterClockwise` | src/umeshu/Triangulation_items.h:230-236 | a flip that passes the four-way check keeps every face counter-clockwise |
| `EdgeFlip.FlipKeepsCounterClockwiseIffConvex` | src/umeshu/Triangulation_items.h:213-239 | for a counter-clockwise mesh, a flip the guard admits keeps that winding exactly when the four-way check holds |
| `Arena.Triangulation.SetFaces` | src/umeshu/Triangulation_items.h:257-265 | the face anchors of f1, f2 and the faces of the six halfedges are written, nothing else |
| `Arena.Triangulation.MoveNodeAnchors` | src/umeshu/Triangulation_items.h:267-275 | the two conditional anchor moves, nothing else |
| `Arena.Triangulation.SetOrigins` | src/umeshu/Triangulation_items.h:277-278 | the two origin writes, nothing else |
| `Arena.Triangulation.LinkTriangle` | src/umeshu/Triangulation_items.h:280-292 | three next writes and three prev writes closing one triangle, nothing else |
| `Arena.Triangulation.Flip` | src/umeshu/Triangulation_items.h:241-293 | the in-place flip leaves exactly the state `Flipped` describes, which is valid, and counter-clockwise when the old mesh was and the four-way check held |
| `Scenarios.OnlyTheDiagonalIsInterior` | src/umeshu/Triangulation_items.h:195-198 | in the two-triangle mesh only the shared edge is interior |
| `Scenarios.CornerRotation` | src/umeshu/Triangulation_items.h:97-106 | the walk around a corner of the two-triangle mesh meets 0, 4, 7 and returns after 3 steps; 7 is the first without a face |
| `Scenarios.TwoTrianglesChecks` | src/umeshu/Triangulation_items.h:213-239 | on two triangles A, C, D and C, A, B, the guard asks for B right of A -> C and D left of it; the four-way check asks all four corners to turn left |
| `Scenarios.SquareIsConvex` | src/umeshu/Triangulation_items.h:213-239 | the unit square split along (0,0)-(1,1) is valid, counter-clockwise and passes both checks |
| `Scenarios.SquareFlips` | src/umeshu/Triangulation_items.h:241-293 | flipping the square's diagonal gives the diagonal (1,0)-(0,1) and keeps every face counter-clockwise |
| `Scenarios.DartPassesGuard` | src/umeshu/Triangulation_items.h:213-239 | the dart is valid and counter-clockwise and passes the guard, but fails the four-way check |
| `Scenarios.DartFlipFolds` | src/umeshu/Triangulation_items.h:241-293 | flipping the dart's diagonal leaves a face wound clockwise |

## Left out

- The adaptive floating-point evaluation of `orient2d` is not modelled. `OrientedSide` is its contract, the exact sign of the determinant over reals.
- `oriented_circle`, `circumcenter`, `offcenter`, `signed_area` and the one-time `exactinit` setup with its log line (`src/umeshu/Exact_adaptive_kernel.cpp`) are floating-point formulas or process-start I/O that the connectivity does not use. `Predicates.h` is not part of this model.
- `Edge::length` (a floating-point distance) and `Face::vertices` (a copy of three positions) are not modelled.
- The `_with_id` entity variants and the `Triangulation_items` type selectors carry no behaviour.
- Node constructors and position setters, the entity container and the `HDS/` base headers are not part of this model. The fields the base classes provide are plain sequence reads and writes. `is_isolated` is an absent node anchor.
- The halfedge's back-reference to its edge (a field of the `HDS/` base classes) is not modelled: no core operation reads or writes it, and the flip keeps every halfedge in its edge.
- The `BOOST_ASSERT`s in `flip` and `nodes` are preconditions (`requires`), not error returns.
- `Arena.Triangulation.Degree`: the source counts in an `unsigned`, whose 32-bit wrap-around is not modelled. `Rotation.RotationPeriodAtMostOutgoing` bounds the count by the number of halfedges.
- `Rotation.RotationPeriodAtMostOutgoing`: the degree is proved at most the number of halfedges leaving the node, not equal to it. Equality needs every halfedge leaving a node to lie on the one fan reached from the node's anchor. Neither `Valid` nor the source's code enforces that: where two triangles share only a node (a bowtie), the mesh satisfies `Valid`, the walk from the anchor turns through one fan only, and `degree` returns that fan's length as the model does.
- `Arena.Triangulation.Degree`, `BoundaryHalfedge` and `NodeIsBoundary` require the pairing and next/prev invariants. On a malformed mesh the source's do-while loops need not end, and the model does not describe that case.
- `Arena.Triangulation.BoundaryHalfedge` does not restate that its result leaves node n. That follows from its result lying on the walk, by `Rotation.RotationStaysAtNode` and the node-anchor invariant.
- Degenerate quadrilaterals whose handles coincide cannot reach the flip in a valid mesh (`EdgeFlip.QuadShape` proves them distinct), so the write order of coinciding handles is not examined separately.

## Findings

| source | as written | input that shows it | evidently intended | confidence | as-written member | corrected member |
|---|---|---|---|---|---|---|
| src/umeshu/Triangulation_items.h:225-236 | the guard only checks that p2 is right of p1 -> p3 and p4 left of it; the four-way convexity check is commented out | the dart A = (0,0), B = (2,-1), C = (1,0), D = (2,1) with diagonal A-C: both triangles are counter-clockwise and the guard holds, but corner C is reflex and the flip leaves triangle (D, B, C) clockwise | the edge is flippable only when p1, p2, p3, p4 form a convex quadrilateral, as the function's name says | low, not executed | `Connectivity.IsDiagonalOfConvexQuadrilateral`, exhibited by `Scenarios.DartPassesGuard` and `Scenarios.DartFlipFolds` | `EdgeFlip.IsConvexQuadrilateral`, with `EdgeFlip.FlipKeepsCounterClockwise` and `EdgeFlip.FlipKeepsCounterClockwiseIffConvex` |

`Arena.Triangulation.Flip` keeps the source's guard as its precondition,
since that is the check the source enforces. Its winding guarantee is stated
under the corrected four-way check.
