# Planar reasoning in GEOS, modelled in Dafny

GEOS computes with planar geometries. This project models the parts of it whose work is exact
combinatorics of points, segments and rings, and proves what those parts are meant to guarantee:

- **Coverage simplification.** A polygonal coverage is split at its nodes into edges that neighbouring
  rings share. The edges are thinned by removing small corners, each checked against everything nearby,
  and the rings are put together again. Proved for whole runs, from rings to rings: planarity, shared
  boundaries, nodes, and the total area when only inner edges change; and that the rings and the tolerance
  alone decide the result. For the line simplifier alone: whatever the lines are, no intersections are
  added, and the least corner goes first.
- **The edge graph and the line dissolver.** Half-edges form a rotation system on the heap. The dissolver
  draws maximal lines through vertices of degree two, and passes every segment of the input exactly once.
- **The convex hull.** Reduction by an octagon, radial sorting, the Graham scan and the cleaning of the
  ring. The project proves exactly for which inputs the hull is right.
- **Point location and interior points.** Ray crossings with the half-open vertex rule, and the scan line
  that looks for an interior point.
- **Exact predicates.** The sign of a 2 x 2 determinant, the angular order of directions, the topology of
  two corners at a node, and signed areas and centroids of rings.
- **Invalid segments.** The lines that mark the maximal runs of invalid segments of a coverage ring.

Coordinates are exact: `real` throughout, and unbounded `int` in the determinant. Orientation is the sign
of the exact cross product. Rounding is outside the model.

Objects that the source updates in place are classes with the same fields (`LinkedLine`, `VertexIndex`,
`Edge`, `CoverageEdge`, `CoverageRingEdges`, `HalfEdge`, `EdgeGraph`, `LineDissolver`,
`RayCrossingCounter`, `ScanLineYOrdinateFinder`, `InteriorPointPolygon`, `Centroid`, `CoverageRing`).
Their methods are tied to functions and predicates on values, and the theorems are lemmas about those.
`dafny verify dfyconfig.toml` checks everything.

## Layout

| files | what they hold |
|---|---|
| Planar, CoordinateLists | points, orientation, envelopes, coordinate lists |
| Pasch, Arrangement, SimplifyRuns, Intersections | what cutting a clear corner does to other segments; runs of cuts |
| LinkedLines, LeastCorners, Tpvw, TpvwSimplifier, SmallCorners | the simplifier of lines, and what it leaves |
| CoverageRings, CoverageNodes, RepeatedPoints, CoverageSections, CoverageKeys, CoverageEdges | rings, nodes, repeated points, sections, keys |
| RingSplits, RingRebuilds, EdgeTables, EdgeLogs, CoverageRingEdges | splitting rings into shared edges and back |
| CoveragePlanarity, RebuiltRings, SimplifiedCoverages | planarity of the edges and of the result |
| CoverageAreas, RebuiltAreas, CoverageTotals, CoverageSimplifier, CoverageOutcomes | areas; the coverage simplifier |
| AngularOrder, DirectionRings, HalfEdges, RotationSystems, EdgeGraphs | the edge graph |
| Chains, DissolvedLines, Dissolving, RingStarts, LineDissolvers | the line dissolver |
| PolarOrder, GrahamScans, HullRings, HullCorners, HullReductions, ConvexHulls | the convex hull |
| RayCrossings, PointLocations, InteriorPoints | point location, interior points |
| RobustDeterminants, PolygonNodeTopology, Areas, Centroids, InvalidLines | predicates, sums, invalid runs |

## Model

| member | source | states |
|---|---|---|
| Pasch.BaseMeetsOnlyAtEnds | src/coverage/TPVWSimplifier.cpp:283-329 | when a segment that meets the two sides of a corner only at common ends has no end in the corner triangle, the new base meets it only at common ends too (or is that segment) |
| Pasch.BaseMeetsOnlyWhatSidesMeet | src/coverage/TPVWSimplifier.cpp:283-329 | for any corner and any segment with no end in the corner triangle: the segment meets the new base only if it met a side |
| Arrangement.CutKeepsArranged | src/coverage/TPVWSimplifier.cpp:283-356 | cutting any corner that passes the removability test keeps all lines touching only at their fixed vertices |
| SimplifyRuns.RunKeepsArranged | src/coverage/TPVWSimplifier.cpp:231-356 | so does every sequence of allowed cuts of a line, however long |
| SimplifyRuns.RunFrame | src/coverage/TPVWSimplifier.cpp:342-356 | a run takes one vertex of its own line with each cut and leaves every other line as it was |
| SimplifyRuns.RunThins | src/coverage/TPVWSimplifier.cpp:231-279 | what a run leaves is a subsequence of the line that keeps its fixed vertices |
| SimplifyRuns.RunEndsDiffer | src/coverage/TPVWSimplifier.cpp:231-279 | an open line whose ends differ keeps them through every run |
| SimplifyRuns.RunBoundsArea | src/coverage/TPVWSimplifier.cpp:231-279 | twice the signed area changes by at most twice the tolerance for each vertex removed |
| SimplifyRuns.NothingToCut | src/coverage/TPVWSimplifier.cpp:231-253 | a run may stop without a cut only where no corner of the line could have been cut |
| LeastCorners.OneResult | src/coverage/TPVWSimplifier.cpp:231-253 | trying at each step the corner of least area that has not been found blocked, the earlier vertex among equals, the lines and the tolerance alone decide what is left |
| LeastCorners.LesserWasBlocked | include/geos/coverage/Corner.h:76-111 | when a corner is tried, every other small corner of the line as it then is that may be cut and has a lesser area, or the same area and an earlier vertex, was found blocked before |
| Intersections.CutCount | src/coverage/TPVWSimplifier.cpp:283-356 | cutting a corner leaves no more segments of the line meeting a given segment, wherever on the line or ring the corner is |
| Intersections.CutWithin | src/coverage/TPVWSimplifier.cpp:283-356 | and at least one pair fewer of its own segments meeting each other |
| Intersections.RunAddsNone | include/geos/coverage/TPVWSimplifier.h:43-61 | for any lines, crossing ones included, a run adds no intersection, of two lines or within one: the promise of the class comment |
| LinkedLines.LinkedLine.constructor | src/simplify/LinkedLine.cpp:32-84 | all vertices are linked, the closing one of a ring excepted |
| LinkedLines.LinkedLine.HasCoordinateIsLive | src/simplify/LinkedLine.cpp:129-139 | an index has a coordinate exactly when it is still linked |
| LinkedLines.LinkedLine.Remove | src/simplify/LinkedLine.cpp:142-154 | one vertex leaves the chain; both link arrays agree with the rest, and links away from its neighbours are untouched |
| LinkedLines.LinkedLine.GetCoordinates | src/simplify/LinkedLine.cpp:157-175 | the linked vertices in order, repeated points dropped and rings closed |
| Tpvw.CornerQueue.Pop | src/coverage/TPVWSimplifier.cpp:236-239 | a corner with the least area of all in the queue, the earliest vertex among those with that area, is taken out; all others stay |
| Tpvw.VertexIndex.Query | src/index/VertexSequencePackedRtree.cpp:188-265 | the indexes of exactly the vertices in the envelope that have not been removed |
| Tpvw.Edge.constructor | src/coverage/TPVWSimplifier.cpp:191-206 | the linked line and the vertex index of a new edge hold the same vertices |
| Tpvw.Edge.CreateQueue | src/coverage/TPVWSimplifier.cpp:257-266 | exactly the corners of the line, with its linked neighbours, that may be cut and have a tolerable area are queued |
| Tpvw.Edge.AddCorner | src/coverage/TPVWSimplifier.cpp:269-279 | the corner at a vertex is queued if it may be cut and its area is tolerable; nothing leaves the queue |
| Tpvw.Edge.HasIntersectingVertex | src/coverage/TPVWSimplifier.cpp:311-329 | true exactly when a live vertex of the edge other than the corner's own points is in the corner triangle |
| Tpvw.Edge.IsRemovable | src/coverage/TPVWSimplifier.cpp:283-307 | true exactly when no live vertex of any edge is in the triangle and no other two-point edge is the base; edges the envelope test skips cannot matter |
| Tpvw.Edge.RemoveCorner | src/coverage/TPVWSimplifier.cpp:342-356 | linked line and vertex index lose the same vertex, and the two new small corners join the queue |
| Tpvw.Edge.ProcessCorner | src/coverage/TPVWSimplifier.cpp:236-251 | one pass tries the least corner that may be cut and has not been found blocked, and cuts it if nothing is in the way, or only drops an outdated one; every small corner stays queued or has been found blocked, and twice the size plus the queue length falls |
| Tpvw.Edge.Simplify | src/coverage/TPVWSimplifier.cpp:231-253 | terminates after an exhausted run of allowed cuts, made least corner first: each small corner left was found blocked during the run; the other edges are as before and the result is what is left of the line |
| TpvwSimplifier.CreateEdges | src/coverage/TPVWSimplifier.cpp:162-187 | one edge for each line, flagged free as given, sharing no state with any other |
| TpvwSimplifier.ThinnedNext | src/coverage/TPVWSimplifier.cpp:144-149 | after an exhausted run on the next line, that line too is thinned and the earlier results stand |
| TpvwSimplifier.SimplifyEdges | src/coverage/TPVWSimplifier.cpp:144-156 | the first n edges are simplified in turn, each run setting out from what the ones before it left |
| TpvwSimplifier.ReachedAddsNone | include/geos/coverage/TPVWSimplifier.h:43-61 | whatever the lines, simplifying them in turn adds no intersection, of two lines or within one |
| TpvwSimplifier.ReachedArranged | src/coverage/TPVWSimplifier.cpp:102-159 | lines that touch only at fixed vertices still do when they have been simplified in turn |
| TpvwSimplifier.ReachedOnce | src/coverage/TPVWSimplifier.cpp:144-156 | simplifying the first n lines in turn, each least corner first, has one result only |
| TpvwSimplifier.SimplifyLines | src/coverage/TPVWSimplifier.cpp:102-159 | for any rings, any open lines whose ends differ, and constraints of these kinds: each result is its line after an exhausted run, thinned with the area changed within the squared distance tolerance for each vertex, constraints are unchanged and no intersections are added; lines that touch only at fixed vertices still do so |
| TpvwSimplifier.ResultsOnce | src/coverage/TPVWSimplifier.cpp:102-159 | what SimplifyLines promises fixes every coordinate it returns |
| SmallCorners.NothingIsLeft | src/coverage/TPVWSimplifier.cpp:231-253 | a line that no vertex and no two ends of a line stand in the way of, for any three of its vertices in line order that make a small corner, keeps no small corner that could be cut, whatever the order of the cuts |
| SmallCorners.CornerIsLeft | src/coverage/TPVWSimplifier.cpp:231-253 | two lines for which every way to simplify them in turn leaves a corner that could be cut |
| SmallCorners.NoCornerIsLeft | src/coverage/TPVWSimplifier.cpp:144-149 | the same two lines in the other order: something stands in the way of the same corner, and yet nothing is left that could be cut |
| SmallCorners.BothReached | src/coverage/TPVWSimplifier.cpp:144-149 | the results that simplifying these lines leads to in either order |
| SmallCorners.OpenLineKeepsEnds | src/coverage/TPVWSimplifier.cpp:144-156 | an open line with different ends is written out with both of them, so it stays a line |
| SmallCorners.ThereAndBack | src/coverage/TPVWSimplifier.cpp:231-253 | a line from a point to another and straight back comes out as one point, which is why its ends have to differ |
| CoverageNodes.CountVertices | src/coverage/VertexRingCounter.cpp:33-62 | for every point, how often it is a vertex of the rings as they are given; a closing point is not counted twice |
| CoverageNodes.FindMultiRingNodes | src/coverage/CoverageRingEdges.cpp:258-277 | exactly the points counted more than twice |
| CoverageNodes.FindBoundarySegments | src/coverage/CoverageBoundarySegmentFinder.cpp:28-72 | exactly the segments that the rings pass an odd number of times, those without length between repeated points included |
| CoverageNodes.FindBoundaryNodes | src/coverage/CoverageRingEdges.cpp:280-298 | exactly the vertices where more than two boundary segments end, one without length ending there twice |
| CoverageNodes.AddBoundaryInnerNodes | src/coverage/CoverageRingEdges.cpp:114-131 | adds exactly the vertices where the ring passes between boundary and interior |
| RepeatedPoints.UsesAre | src/coverage/VertexRingCounter.cpp:33-62 | a vertex is counted once for each ring it is in and once more for each time it is repeated, and no less where a ring collapses to it |
| RepeatedPoints.ProperIsBoundary | src/coverage/CoverageBoundarySegmentFinder.cpp:28-72 | apart from those without length, the segments found are exactly those that an odd number of rings have |
| RepeatedPoints.RepeatIsNode | src/coverage/CoverageRingEdges.cpp:67-70 | a repeated point, and one that a ring collapses to, is a node from the start: it is counted more than twice, or three boundary segments end at it |
| RepeatedPoints.FirstNodesExactly | src/coverage/CoverageRingEdges.cpp:67-70 | the nodes found before any ring is split are exactly the vertices of more than two rings, those where more than two boundary segments meet, and the repeated points |
| RepeatedPoints.TransitionsAlike | src/coverage/CoverageRingEdges.cpp:114-165 | so nodes may be looked for on the ring as it is given and the ring be split without its repeats: the nodes come out the same |
| RepeatedPoints.CollapsedTurnsNowhere | src/coverage/CoverageRingEdges.cpp:114-131 | a ring that collapses to a point adds no node |
| CoverageNodes.NodesAreFinal | src/coverage/CoverageRingEdges.cpp:86-131 | although nodes are added ring by ring, those of a ring are complete when it is split: no later ring adds one on it |
| CoverageNodes.NextIsShared | src/coverage/CoverageRingEdges.cpp:100-131 | rings that share a segment share the next one as well unless a node is in between |
| CoverageSections.FindNextNodeIndex | src/coverage/CoverageRingEdges.cpp:221-253 | the next node after a start index around the ring; none exactly when the ring has no node |
| CoverageSections.ExtractEdgePoints | src/coverage/CoverageEdge.cpp:78-100 | the points from one index to another, around the closing point where needed |
| CoverageSections.SharedPaths | src/coverage/CoverageRingEdges.cpp:134-165 | node-to-node paths of two rings that share a segment are the same path, perhaps reversed |
| CoverageEdges.FindDistinctPoint | src/coverage/CoverageEdge.cpp:145-168 | the first differing point met walking around; the error exactly when all points are equal |
| CoverageEdges.RingKey | src/coverage/CoverageEdge.cpp:104-119 | the key joins the greatest vertex with the lesser of its two neighbours, so it does not depend on start or direction |
| CoverageEdges.SectionKey | src/coverage/CoverageEdge.cpp:123-142 | the key leads from the lesser end of the section to the point beside it, in either direction of the section |
| CoverageKeys.EdgesAgree | src/coverage/CoverageRingEdges.cpp:134-218 | edges of two rings that share a segment are the same edge, rings without nodes included |
| CoverageKeys.KeyIdentifies | src/coverage/CoverageEdge.cpp:104-142 | two edges have equal keys if and only if they share a segment, and then they are the same edge |
| RingSplits.PiecesCover | src/coverage/CoverageRingEdges.cpp:134-165 | every segment of a ring is in one of its parts |
| RingSplits.PiecesApart | src/coverage/CoverageRingEdges.cpp:134-165 | and in no more than one |
| RingSplits.PiecesJoin | src/coverage/CoverageRingEdges.cpp:134-165 | the parts joined end to end are the ring, started at its first node |
| EdgeTables.AddKeepsTable | src/coverage/CoverageRingEdges.cpp:169-218 | counting one more edge keeps the table complete and right for all rings split so far |
| EdgeTables.FinalCount | src/coverage/CoverageRingEdges.cpp:169-218 | an edge is counted once for each ring that has its segments: once exactly on the boundary, twice otherwise |
| EdgeLogs.FirstIsKept | src/coverage/CoverageRingEdges.cpp:169-218 | an edge keeps the points, and the direction, of the first part that came up under its key |
| EdgeLogs.SeenInOrder | src/coverage/CoverageRingEdges.cpp:134-218 | edges are listed in the order in which their first parts came up, ring by ring |
| CoverageRingEdges.CoverageRingEdges.CreateEdge | src/coverage/CoverageRingEdges.cpp:169-218 | the edge under a key, made on first use and listed last, with its count one higher; all other edges unchanged |
| CoverageRingEdges.CoverageRingEdges.ExtractRingEdges | src/coverage/CoverageRingEdges.cpp:134-165 | the ring without its repeated points is cut at exactly its nodes and its edges are listed in ring order; a ring that collapses has none and changes nothing |
| CoverageRingEdges.CoverageRingEdges.Build | src/coverage/CoverageRingEdges.cpp:64-96 | all rings of a coverage that is valid but for repeated points, empty rings and rings of one point are split, the edges agree with the table of shared parts and are listed in the order in which their first parts come up, exactly the rings that do not collapse have edges recorded, and there are no first nodes but those called for |
| CoverageRingEdges.CoverageRingEdges.EdgeCount | src/coverage/CoverageRingEdges.cpp:64-96 | after splitting, the ring count of an edge is the number of rings with its segments: one exactly on the boundary, otherwise two |
| CoverageRingEdges.CoverageRingEdges.EdgesApart | src/coverage/CoverageRingEdges.cpp:64-218 | different edges have no segment in common |
| CoverageRingEdges.CoverageRingEdges.BuildRing | src/coverage/CoverageRingEdges.cpp:356-382 | the ring is the concatenation of its edges, each in the direction the test picks; a ring not split is copied |
| RingRebuilds.RebuiltReads | src/coverage/CoverageRingEdges.cpp:356-403 | the direction test reads every edge away from its corner, so the edges join in ring order |
| RingRebuilds.RoundTrip | src/coverage/CoverageRingEdges.cpp:134-165 | splitting then rebuilding gives the same vertex cycle; its direction is that of the ring when it has three edges or more |
| CoverageRingEdges.CoverageRingEdges.RingComesBack | src/coverage/CoverageRingEdges.cpp:356-403 | for every ring that does not collapse, split by Build, rebuilding the untouched edges gives the ring back up to its start and repeated points, and up to direction only with at most two edges |
| CoveragePlanarity.SameAtVertex | src/coverage/CoverageRingEdges.cpp:64-131 | rings through a vertex that is no node use the same two segments there |
| CoveragePlanarity.SharedVertexIsNode | src/coverage/CoverageRingEdges.cpp:64-131 | a vertex on two different edges is a node |
| CoveragePlanarity.EdgeOnce | src/coverage/CoverageRingEdges.cpp:134-165 | an edge repeats no point except to close |
| CoveragePlanarity.LinesArranged | src/coverage/CoverageSimplifier.cpp:110-138 | if ring segments meet only at common ends, the edges handed to the line simplifier touch only at their fixed vertices |
| RebuiltRings.CycleIsSimple | src/coverage/CoverageRingEdges.cpp:356-382 | a closed chain of paths that touch only at ends joins to a simple ring with just their segments |
| RebuiltRings.RebuiltIsSimple | src/coverage/CoverageRingEdges.cpp:356-403 | so a ring rebuilt from changed edges with the same ends is simple |
| SimplifiedCoverages.ResultIsPlanar | src/coverage/CoverageSimplifier.cpp:99-121 | segments of the rebuilt rings meet only at common ends |
| SimplifiedCoverages.SameCount | src/coverage/CoverageSimplifier.cpp:99-121 | a segment of a simplified edge is in as many rings as the edge was |
| SimplifiedCoverages.ResultIsValid | src/coverage/CoverageSimplifier.cpp:99-121 | the result is again a coverage of simple rings with no segment in more than two |
| SimplifiedCoverages.VertexIsOld | src/coverage/CoverageSimplifier.cpp:99-121 | a result ring has only vertices of the ring it came from |
| SimplifiedCoverages.NodeStays | src/coverage/CoverageSimplifier.cpp:99-121 | a ring keeps all its nodes |
| SimplifiedCoverages.BoundaryStays | src/coverage/CoverageSimplifier.cpp:110-121 | when only inner edges change, the segments in exactly one ring are the same as before |
| CoverageAreas.InnerChange | src/coverage/CoverageSimplifier.cpp:110-148 | giving an inner edge any new points with the same ends changes the sum of the signed ring areas by twice the change of the edge where both rings run along it in the same direction, and not at all where they run in opposite directions |
| CoverageAreas.InnerChangesConserve | src/coverage/CoverageSimplifier.cpp:110-148 | and so does any set of such changes |
| RebuiltAreas.OriginalArea | src/coverage/CoverageRingEdges.cpp:134-165 | the parts of a ring, read in ring direction, have its area between them |
| CoverageAreas.OneChange | src/coverage/CoverageSimplifier.cpp:110-148 | new points for any one edge change the sum of the ring areas by the change under it, times what all rings together run along it |
| CoverageAreas.InnerNetTurn | src/coverage/CoverageSimplifier.cpp:110-121 | along an inner edge this adds up from its two rings, to nothing if they run in opposite directions |
| CoverageAreas.AllChanges | src/coverage/CoverageSimplifier.cpp:110-148 | however many edges are changed, their changes add up, in whatever order they are listed |
| CoverageTotals.RingRebuilt | src/coverage/CoverageRingEdges.cpp:356-403 | a rebuilt ring, read in input direction, has the area its edges contribute, with the sign fixed also for rings of one or two edges |
| CoverageTotals.TotalConserved | src/coverage/CoverageSimplifier.cpp:110-148 | changing inner edges conserves the total signed area of the input rings |
| CoverageTotals.TotalChanges | src/coverage/CoverageSimplifier.cpp:99-148 | whichever edges are changed, the total signed area differs from that of the input rings by the sum of the changes under the edges |
| CoverageSimplifier.SimplifyEdges | src/coverage/CoverageSimplifier.cpp:124-138 | the chosen edges get the points of their simplified lines and no other edge changes |
| CoverageSimplifier.EdgeLinesArranged | src/coverage/CoverageSimplifier.cpp:110-138 | what the line simplifier needs of the edges follows from the rings |
| CoverageSimplifier.SimplifySelected | src/coverage/CoverageSimplifier.cpp:99-138 | each chosen edge becomes the output of its line after runs in turn that are exhausted, the others keep their points, the lines are those of the edges and no others, and all lines still touch only at fixed vertices |
| CoverageSimplifier.BuildCoverage | src/coverage/CoverageRingEdges.cpp:301-382 | every ring is built from the present points of its edges; one that collapses is copied |
| CoverageSimplifier.StandingAt | src/coverage/CoverageRingEdges.cpp:356-382 | the rings that do not collapse are met at their places in the result |
| CoverageSimplifier.LinesAreEdges | src/coverage/CoverageSimplifier.cpp:124-138 | every line that was simplified, or that could be in the way of others, is the line of an edge of the coverage |
| CoverageSimplifier.NothingLeftOfEdge | src/coverage/CoverageSimplifier.cpp:99-138 | an edge that is simplified and that no edge stands in the way of is left without small corners |
| CoverageSimplifier.Simplify | src/coverage/CoverageSimplifier.cpp:99-107 | from rings to rings, repeated points removed and collapsed rings copied: a planar valid coverage stays one, over vertices of the same rings and with all nodes; the result is built from all its edges, the lines of exactly these edges, in their order, simplified by exhausted runs; the total signed area changes by the sum of the changes under the edges |
| CoverageSimplifier.SimplifyInner | src/coverage/CoverageSimplifier.cpp:109-121 | the same with only the edges of two rings simplified: the boundary is unchanged and, if neighbours run shared segments in opposite directions, the total signed area is that of the input |
| CoverageOutcomes.SameEdges | src/coverage/CoverageRingEdges.cpp:64-218 | the rings alone decide the nodes, how the rings are split, the recorded edges and their order |
| CoverageOutcomes.SimplifiedOnce | src/coverage/CoverageSimplifier.cpp:99-148 | what Simplify and SimplifyInner promise fixes every coordinate of the result: nodes, edges and their order follow from the rings, and what the edges become from their order and the tolerance |
| InvalidLines.CoverageRing.FindInvalidStart | src/coverage/CoverageRing.cpp:237-244 | the first invalid segment from an index on, going around |
| InvalidLines.CoverageRing.FindInvalidEnd | src/coverage/CoverageRing.cpp:248-256 | the first valid segment behind an invalid one, with none valid in between |
| InvalidLines.CoverageRing.CreateLine | src/coverage/CoverageRing.cpp:271-311 | the line has the segments of the run in ring order, over the start of the ring as well |
| InvalidLines.CoverageRing.CreateInvalidLines | src/coverage/CoverageRing.cpp:205-233 | the lines are the maximal runs of invalid segments around the ring, each drawn by exactly one line, in ring order with the run of the first invalid segment last; the whole ring when all are invalid |
| InvalidLines.InvalidOnce | src/coverage/CoverageRing.cpp:205-233 | a segment is on some line exactly when it is invalid, and then on one line in one place |
| AngularOrder.CompareAngleIsOrder | src/algorithm/PolygonNodeTopology.cpp:107-136 | comparing quadrants and orientation gives the order of directions counter-clockwise from the x-axis, zero exactly for equal directions |
| AngularOrder.CompareAngleOrders | src/algorithm/PolygonNodeTopology.cpp:107-136 | the comparison is antisymmetric and transitive on all directions |
| AngularOrder.OrderIsCyclic | src/algorithm/PolygonNodeTopology.cpp:107-156 | the order is a cut of the cyclic order: three directions are in counter-clockwise turn exactly when one of their rotations is ascending |
| DirectionRings.SlotExists | src/edgegraph/HalfEdge.cpp:98-131 | some slot of any ring of directions passes the insertion test, equal directions included, so the assertion is never reached |
| DirectionRings.SlotIsSector | src/edgegraph/HalfEdge.cpp:98-131 | the insertion test of a slot passes exactly for the directions met turning counter-clockwise from its direction up to the successor, both included, and for all when these two are the same |
| DirectionRings.InsertKeepsCounterClockwise | src/edgegraph/HalfEdge.cpp:80-141 | inserting a new direction at a slot that passes keeps the ring in counter-clockwise order |
| DirectionRings.SuccIsNextTurn | src/edgegraph/HalfEdge.cpp:80-141 | in such a ring the successor is the first direction met turning counter-clockwise |
| DirectionRings.RisesFromLowest | src/edgegraph/HalfEdge.cpp:144-176 | a ring is in counter-clockwise order exactly when it rises from any lowest direction on |
| HalfEdges.HalfEdge.Find | src/edgegraph/HalfEdge.cpp:56-69 | the edge at this origin with the given end; null exactly when there is none |
| HalfEdges.HalfEdge.InsertionEdge | src/edgegraph/HalfEdge.cpp:98-131 | the walk ends at a slot that passes the insertion test |
| HalfEdges.HalfEdge.Insert | src/edgegraph/HalfEdge.cpp:80-141 | two next pointers change so that the new edge follows the edge of the slot, and no other pointer does |
| HalfEdges.HalfEdge.Degree | src/edgegraph/HalfEdge.cpp:208-218 | the number of edges leaving the origin |
| HalfEdges.HalfEdge.Prev | src/edgegraph/HalfEdge.cpp:221-231 | the edge whose next is this one |
| HalfEdges.HalfEdge.FindLowest | src/edgegraph/HalfEdge.cpp:164-176 | an edge with no direction at the origin below its own |
| HalfEdges.HalfEdge.IsEdgesSorted | src/edgegraph/HalfEdge.cpp:144-161 | true exactly when the edges at the origin are in strict counter-clockwise order |
| RotationSystems.NextContinues | src/edgegraph/HalfEdge.cpp:45-141 | next leads from an edge to one that leaves where it ends |
| RotationSystems.NextInjective | src/edgegraph/HalfEdge.cpp:45-141 | next is injective |
| RotationSystems.NextOnto | src/edgegraph/HalfEdge.cpp:45-141 | and onto, its inverse being the sym of the edge before around the origin |
| EdgeGraphs.EdgeGraph.AddEdge | src/edgegraph/EdgeGraph.cpp:51-114 | null exactly for a zero-length segment; an edge there already is returned and nothing changes; otherwise one pair of half-edges is added. The pointers keep spelling out a rotation system: sym pairs the edges, the star of a vertex is all its edges in the order next visits them, there is one edge for each ordered pair of points, and stars with distinct directions are counter-clockwise |
| EdgeGraphs.EdgeGraph.FindEdge | src/edgegraph/EdgeGraph.cpp:127-139 | the edge between two points; null exactly when the graph has none |
| EdgeGraphs.EdgeGraph.GetVertexEdges | src/edgegraph/EdgeGraph.cpp:117-124 | one edge for every vertex |
| EdgeGraphs.EdgeGraph.SortedWhereDistinct | src/edgegraph/HalfEdge.cpp:80-176 | in any graph that was built by adding edges, the edges at a vertex are sorted exactly when no two have the same direction |
| Chains.ChainExtends | src/dissolve/LineDissolver.cpp:202-236 | walking on from an unmarked chain meets only new unmarked edges until it is back at its start |
| Chains.MarkNodeLine | src/dissolve/LineDissolver.cpp:202-236 | marking a line between nodes keeps the marks closed along chains |
| Chains.SameRing | src/dissolve/LineDissolver.cpp:240-266 | an isolated ring walked from any of its edges, either way, uses the same segments |
| Dissolving.StartInside | src/dissolve/LineDissolver.cpp:87-111 | every part of the graph closed at vertices holds an edge flagged by some input line |
| Dissolving.EverythingMarked | src/dissolve/LineDissolver.cpp:124-152 | marks closed at vertices that reach one edge of every vertex are all edges |
| DissolvedLines.CoverPassages | src/dissolve/LineDissolver.cpp:202-266 | the lines pass each covered segment exactly once and no other |
| DissolvedLines.MaximalIsPath | src/dissolve/LineDissolver.cpp:202-266 | inner vertices of a line have exactly two neighbours, its ends do not, or it is a whole isolated ring |
| Planar.CompareToIsOrder | include/geos/geom/Coordinate.h:136-151 | the comparison of coordinates is their order by x, then by y |
| RingStarts.RingStartsLeast | src/dissolve/LineDissolver.cpp:184-198 | a drawn ring begins with a flagged first segment, from the vertex with the least x, then the least y, that such segments give |
| LineDissolvers.PrevNode | src/edgegraph/HalfEdge.cpp:234-251 | the node met first walking back from an edge, or null exactly when the edge is on an isolated ring |
| LineDissolvers.RingStartExists | src/dissolve/LineDissolver.cpp:240-266 | the start edge of a ring is never null when the ring is drawn |
| LineDissolvers.LineDissolver.StackEdges | src/dissolve/LineDissolver.cpp:156-166 | pushes exactly the unmarked edges at the vertex |
| LineDissolvers.LineDissolver.BuildLine | src/dissolve/LineDissolver.cpp:202-236 | draws one line, marks exactly its edges and stacks what leaves its far end; all lines so far stay apart and maximal |
| LineDissolvers.LineDissolver.Process | src/dissolve/LineDissolver.cpp:142-152 | draws all lines of the component of an edge |
| LineDissolvers.LineDissolver.AddLine | src/dissolve/LineDissolver.cpp:87-111 | the graph gains exactly the segments of the line, and the first one with length is flagged |
| LineDissolvers.LineDissolver.ComputeResult | src/dissolve/LineDissolver.cpp:125-138 | every edge of the graph is on exactly one line |
| LineDissolvers.Dissolve | src/dissolve/LineDissolver.cpp:40-266 | for any input lines: every segment of the input is passed exactly once by the output, no other segment at all, each line is maximal, and isolated rings start at the flagged vertex with the least x, then the least y |
| PolarOrder.PolarCompareMeans | src/algorithm/ConvexHull.cpp:62-109 | the comparison is antisymmetric, zero only for equal points, and otherwise says which point comes first counter-clockwise, then outward |
| PolarOrder.PolarCompareTransitive | src/algorithm/ConvexHull.cpp:62-109 | and transitive on the points above the origin |
| PolarOrder.PreSort | src/algorithm/ConvexHull.cpp:280-298 | in place: the lowest, then leftmost point is first and the others are sorted radially around it; nothing is lost |
| GrahamScans.RightOfLower | src/algorithm/ConvexHull.cpp:301-322 | a new point right of a chain edge is right of the edge below it |
| GrahamScans.NextPop | src/algorithm/ConvexHull.cpp:301-322 | the first two points are never popped, so the stack never empties |
| GrahamScans.ChainGrows | src/algorithm/ConvexHull.cpp:301-322 | after popping the left turns and pushing, every point scanned is on or right of every chain edge |
| GrahamScans.GrahamScan | src/algorithm/ConvexHull.cpp:301-322 | the ring visits sorted points in order, and has all points on or right of every edge if and only if no repeated point is a left turn |
| HullRings.BetweenIsOnSegment | src/algorithm/ConvexHull.cpp:326-350 | isBetween finds exactly the points of the segment, and nothing when its ends are equal |
| HullRings.CleanRing | src/algorithm/ConvexHull.cpp:371-407 | the ring without repeated vertices and vertices between their neighbours: what is dropped is on a segment that is kept |
| HullCorners.CleanedIsConvex | src/algorithm/ConvexHull.cpp:353-407 | a cleaned ring with all points on its right turns strictly right at every vertex |
| HullCorners.AllOnSegment | src/algorithm/ConvexHull.cpp:353-407 | when cleaning leaves two vertices all points are on the segment between them |
| HullReductions.ComputeInnerOctolateralPts | src/algorithm/ConvexHull.cpp:136-168 | for each of the eight directions the first of the extreme points |
| HullReductions.ComputeInnerOctolateralRing | src/algorithm/ConvexHull.cpp:174-194 | the closed octagon without consecutive repeats; given up exactly when fewer than three indexes are left |
| HullReductions.InnerRingTurnsRight | src/algorithm/ConvexHull.cpp:136-194 | the octagon turns right all around: each of its corners is on or right of each of its segments |
| HullReductions.AlignedMeansLine | src/algorithm/ConvexHull.cpp:174-194 | when the octagon is given up with two corners that are level, upright or on a diagonal, all points are on the line through them |
| HullReductions.GivenUpMeansLine | src/algorithm/ConvexHull.cpp:174-194 | the exact condition on the two corners left: every input given up with them is on one line if and only if they are level, upright or on a diagonal |
| HullReductions.Reduce | src/algorithm/ConvexHull.cpp:197-240 | exactly the octagon's points and the points not inside it are kept, each once, padded to three; all points stay when there is no octagon |
| HullReductions.ExtremeIsKept | src/algorithm/ConvexHull.cpp:197-240 | a point that some line separates strictly from the octagon is kept |
| HullReductions.ReducedKeepsSides | src/algorithm/ConvexHull.cpp:197-240 | a half-plane holds the kept points only if it holds all points, so the hull is the same |
| ConvexHulls.ExtractUnique | src/algorithm/ConvexHull.cpp:412-419 | the different points; given up exactly when there are more than the limit |
| ConvexHulls.CreateFewPointsResult | src/algorithm/ConvexHull.cpp:422-443 | with at most two different points the result is the hull; otherwise three different points exist |
| ConvexHulls.LineOrPolygon | src/algorithm/ConvexHull.cpp:353-368 | the segment or polygon made of a scanned ring is the hull exactly when the ring has all points on its right |
| ConvexHulls.HullsAgree | src/algorithm/ConvexHull.cpp:242-277 | hulls of the points scanned are the hulls of all points |
| ConvexHulls.GetConvexHull | src/algorithm/ConvexHull.cpp:242-277 | the result is the convex hull (strictly convex ring of different input points with all points on its right, or a segment, point or nothing) if and only if the input is safe; with at most 50 coordinates it always is the hull |
| ConvexHulls.NoInnerRing | src/algorithm/ConvexHull.cpp:174-194 | an input whose octagon is given up although its points are on no line |
| ConvexHulls.RepeatedInsideIsUnsafe | src/algorithm/ConvexHull.cpp:196-204 | an input of 51 points that is not safe |
| RayCrossings.RayCrossingCounter.CountSegment | src/algorithm/RayCrossingCounter.cpp:154-217 | the count grows exactly for segments that cross the ray by the half-open rule, and the flag is set where the point is found on the segment |
| RayCrossings.LocatePointInRing | src/algorithm/RayCrossingCounter.cpp:47-64 | stopping at the first segment found on does not change the answer |
| RayCrossings.BoundaryIsOnRing | src/algorithm/RayCrossingCounter.cpp:47-64 | BOUNDARY exactly when the point is on some segment of the closed ring |
| RayCrossings.LocatedFromVertex | src/algorithm/RayCrossingCounter.cpp:154-217 | the location does not depend on the start vertex |
| RayCrossings.LocatedBackwards | src/algorithm/RayCrossingCounter.cpp:154-217 | nor on the direction of the ring |
| RayCrossings.LocatedWithVertex | src/algorithm/RayCrossingCounter.cpp:154-217 | nor on further vertices on its segments |
| RayCrossings.SeparatedIsExterior | src/algorithm/RayCrossingCounter.cpp:154-217 | a point that a line separates from all vertices is outside |
| PointLocations.LocatedAcross | src/algorithm/RayCrossingCounter.cpp:47-64 | two points at one height off a closed ring: one is INTERIOR and the other EXTERIOR exactly when an odd number of segments crosses strictly between them |
| PointLocations.TriangleInside | src/algorithm/RayCrossingCounter.cpp:47-64 | in a triangle ring, of either direction or collapsed: INTERIOR exactly when the point is strictly on the same side of all three segments |
| PointLocations.InteriorByCrossings | src/algorithm/RayCrossingCounter.cpp:47-64 | a point off a closed ring is INTERIOR exactly when an odd number of segments crosses the level line between it and any point of that line beyond all vertices |
| InteriorPoints.ScanLineYOrdinateFinder.UpdateInterval | src/algorithm/InteriorPointArea.cpp:111-123 | the interval only shrinks and ends up free of the ordinate |
| InteriorPoints.ScanLineYOrdinateFinder.GetScanLineY | src/algorithm/InteriorPointArea.cpp:83-123 | half way between the greatest vertex ordinate at or below the middle of the shell and the least above it, so within the shell and, for a shell of some height, through no vertex of any ring |
| InteriorPoints.CountedIsStraddling | src/algorithm/InteriorPointArea.cpp:229-242 | the scan line counts exactly the segments that ray crossings count |
| InteriorPoints.ScanRing | src/algorithm/InteriorPointArea.cpp:176-201 | the crossings of the ring are added, in order |
| InteriorPoints.CrossingsAreEven | src/algorithm/InteriorPointArea.cpp:147-170 | closed rings give an even number of crossings, so taking them in pairs stays in bounds |
| InteriorPoints.CrossesToTheRight | src/algorithm/InteriorPointArea.cpp:245-260 | a ray crosses a segment exactly when the segment's scan line crossing is to its right |
| InteriorPoints.OffTheRings | src/algorithm/InteriorPointArea.cpp:147-170 | a point of the scan line at none of the crossings is on no ring |
| InteriorPoints.MiddleIsInside | src/algorithm/InteriorPointArea.cpp:203-226 | between a crossing at an even place and the next the total number of ray crossings is odd |
| InteriorPoints.InsideShell | src/algorithm/InteriorPointArea.cpp:203-226 | a point inside a polygon without holes by the total of the crossings is INTERIOR to the shell |
| InteriorPoints.InteriorPointPolygon.FindBestMidpoint | src/algorithm/InteriorPointArea.cpp:203-226 | the point as far from one end of the first widest section between paired crossings as from the other |
| InteriorPoints.InteriorPointPolygon.Process | src/algorithm/InteriorPointArea.cpp:147-170 | nothing for an empty polygon; otherwise the first shell point, or the middle of the widest section: if its width is positive the point is inside by ray crossings and, for a shell of some height, on no ring; without holes it is INTERIOR to the shell |
| RobustDeterminants.Normalise | src/algorithm/RobustDeterminant.cpp:64-210 | null entries and columns whose abscissas decide are answered exactly; otherwise both columns come out positive and in order, the lesser abscissa first, with the sign of the determinant kept |
| RobustDeterminants.ReduceSecond | src/algorithm/RobustDeterminant.cpp:215-257 | half a pass decides the sign or leaves a remainder of at most half the divisor with the same sign question |
| RobustDeterminants.SignOfDet2x2 | src/algorithm/RobustDeterminant.cpp:49-306 | for all integers the exact sign of x1 * y2 - y1 * x2, and four to the power of the passes but one is at most the lesser abscissa |
| PolygonNodeTopology.IsCrossingMeansAlternate | src/algorithm/PolygonNodeTopology.cpp:29-55 | true exactly when the four directions differ and the two pairs alternate around the node |
| PolygonNodeTopology.IsCrossingIsSymmetric | src/algorithm/PolygonNodeTopology.cpp:29-55 | swapping the corners, or the ends of one, changes nothing |
| PolygonNodeTopology.IsInteriorSegmentMeansTurn | src/algorithm/PolygonNodeTopology.cpp:59-75 | true exactly when the segment is in the counter-clockwise turn between the corner's ends; with the ends swapped it is the complement for distinct directions |
| PolygonNodeTopology.WhenIllegal | src/algorithm/PolygonNodeTopology.cpp:29-165 | exactly when the predicates throw on a direction without length |
| Areas.SignedRingArea | src/algorithm/Area.cpp:35-57 | the indexed loop gives the common area sum |
| Areas.OfRingSigned | src/algorithm/Area.cpp:87-113 | the rolling loop gives the same sum |
| Areas.AreaOfClosed | src/algorithm/Area.cpp:35-113 | on a closed ring the sum, although taken relative to the first vertex, is half the negated sum of cross products from the coordinate origin |
| Centroids.BasePointIsFree | src/algorithm/Centroid.cpp:114-170 | on a closed ring neither the area sum nor the moment sum depends on the base point |
| Centroids.NoLength | src/algorithm/Centroid.cpp:173-195 | exactly the paths that stay at one point have no length and are counted as that point |
| Centroids.BackwardsLength | src/algorithm/Centroid.cpp:173-195 | a path adds the same to the sums over its segments in either direction |
| Centroids.Centroid.AddLineSegments | src/algorithm/Centroid.cpp:173-195 | the length and the weighted middles of the segments are added, or the first point where there is no length |
| Centroids.Centroid.AddShell | src/algorithm/Centroid.cpp:113-125 | whatever the direction of the ring, the given orientation being its own, twice its area is taken from the area sum; the moment grows alike, and the length sums by what its segments add |
| Centroids.Centroid.AddHole | src/algorithm/Centroid.cpp:128-140 | and twice the area of a hole is added back, although the base point is the shell's |
| Centroids.Centroid.GetCentroid | src/algorithm/Centroid.cpp:47-69 | the centroid times three times the area sum is the moment sum; without area its product with the total length is the sum of the segments; without length its product with the count is the sum of the points; none exactly when there are none of these |
| Centroids.TriangleCentroid | src/algorithm/Centroid.cpp:113-170 | the centroid of a triangle of either direction is the mean of its corners |

## Findings

- **A hull that is not the hull.** With more than 50 coordinates, `reduce` returns early when dropping
  consecutive repeats leaves fewer than three octagon entries (src/algorithm/ConvexHull.cpp:196-204, called
  at line 255). The coordinates are then scanned with their repeats. The Graham scan pops only strict left
  turns, and nothing is a turn against two copies of one point, so a repeated point inside the hull stays
  on the stack. `ConvexHulls.RepeatedInsideIsUnsafe` gives 51 coordinates for which this happens. The exact
  condition is `ConvexHulls.Safe`, which looks at the input only: it has at most 50 coordinates, or its
  octagon has three entries, or no repeated point is a left turn seen from the lowest point.
  `ConvexHulls.GetConvexHull` proves that the result is the hull if and only if the input is safe.
- The remark at that early return, that the points must be on a line
  (src/algorithm/ConvexHull.cpp:185-188), does not hold: the octagon of `ConvexHulls.RepeatedInside` is
  given up although three of its points span a triangle (`ConvexHulls.NoInnerRing`). The exact condition is on
  the two corners that are left: the remark holds for every input given up with them if and only if they are
  level, upright or on a diagonal (`HullReductions.GivenUpMeansLine`).
- The key of a whole ring starts at its greatest vertex, although the remark and the variable name speak
  of the lowest (src/coverage/CoverageEdge.cpp:107-112). The key identifies the ring all the same
  (`CoverageKeys.KeyIdentifies`), and the model follows the code.
- The break for a corner of too large an area (src/coverage/TPVWSimplifier.cpp:245-247) is never taken:
  only small corners are queued (`Tpvw.Edge.ProcessCorner`).
- A corner found blocked is not tried again when a later cut removes what blocked it, unless one of its
  neighbours is cut, so small corners that could be cut may be left although the remark at
  src/coverage/TPVWSimplifier.cpp:245 has the run end when all small corners are removed
  (`SmallCorners.CornerIsLeft`, for two lines and a distance tolerance of 4; `SmallCorners.BothReached` gives
  the result). A condition on the input that rules this out is
  `SmallCorners.NeverInTheWay`: for no three vertices of the line, in line order and with an area within the
  tolerance, is a vertex of any line in their triangle or another open line between the ends of their base.
  `SmallCorners.NothingIsLeft` proves that such a line keeps no small corner that could be cut. The converse
  depends on the order in which lines and corners come: with the two lines of `CornerIsLeft` swapped, the
  one in the way is cut first and nothing is left (`SmallCorners.NoCornerIsLeft`). For all lines, each small
  corner left was blocked at some point of the run on its line (`SimplifyRuns.Exhausted`).
- A line from A to B and back is cut down to one point (`SmallCorners.ThereAndBack`), of which no line can be
  made (src/coverage/TPVWSimplifier.cpp:150) and for which the base test of other corners has no second point
  (src/coverage/TPVWSimplifier.cpp:301). The edges of a coverage are never such lines; a line whose ends differ
  keeps both of them (`SmallCorners.OpenLineKeepsEnds`).

## Left out

- Floating point and double-double rounding: coordinates are exact reals, orientation is the exact sign.
- RobustDeterminants.SignOfDet2x2: the arguments are integers; the test for non-finite arguments (src/algorithm/RobustDeterminant.cpp:59-62) has nothing to test.
- RobustDeterminants.ReduceSecond: the second half of a pass is the first with the columns in exchanged roles, so one method stands for both.
- CoverageSimplifier.SimplifyInner: orientation of input rings is not normalised by the source; the total area is unchanged for coverages whose neighbours run shared segments in opposite directions, as coverages of consistently oriented polygons do, and changes by the stated sum for others.
- CoverageSimplifier.Simplify: the rings are given as one list; grouping them into polygons and multipolygons, and the check for non-polygonal input, is left out.
- CoverageRingEdges.CoverageRingEdges.Build: a ring that does not collapse to a point is simple but for repeated points; rings that collapse to a segment, which no valid polygon has, are not modelled.
- CoverageNodes.FindBoundarySegments: a coverage is valid when no segment is in more than two rings and rings are simple; deciding that is the validator's work, which is not modelled.
- Tpvw.Edge.constructor: a line flagged free is a ring, as otherwise the missing neighbour of an end would be looked up.
- TpvwSimplifier.SimplifyLines: the ends of an open line differ, as a line from A to B and back comes out as one point, which is no line.
- Tpvw.VertexIndex.Query: the packed R-tree and the edge index are exact filters over a sequence; their node bounds are left out.
- Tpvw.CornerQueue.Pop: the binary heap is a sequence from which a least corner is taken.
- PolarOrder.PreSort: the library sort is an insertion sort.
- InteriorPoints.InteriorPointPolygon.FindBestMidpoint: the library sort is an insertion sort.
- InteriorPoints.InteriorPointPolygon.Process: one polygon; choosing the widest of several is left out.
- HullReductions.ComputeInnerOctolateralPts: the eight comparisons of the loop body are a loop over eight keys.
- HullReductions.Reduce: the order of the kept points, which the source's set makes lexicographic, is arbitrary; the radial sort that follows does not depend on it.
- LineDissolvers.Dissolve: the order of the lines and which of several equal ring starts is chosen are not stated.
- EdgeGraphs.EdgeGraph.GetVertexEdges: the order of the vertex map is arbitrary.
- HalfEdges.HalfEdge.constructor: a new half-edge points to itself instead of to null until it is linked.
- Centroids.Centroid.AddShell: the orientation of the ring and the distance of two points, which needs a square root, are inputs; Orientation::isCCW is not modelled.
- InvalidLines.CoverageRing.MarkInvalid: only the invalid marks are modelled, not the matched ones nor who sets them.
- RayCrossings.LocatePointInRing: rings of straight segments; arcs and clothoids are left out.
- Z and M ordinates, curves, geometry factories, progress callbacks, interrupts and memory ownership.
- Coverage cleaning, gap finding, union and validation, which rest on noding and overlay.
