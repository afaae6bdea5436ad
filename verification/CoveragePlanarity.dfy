/**
 The edges of a planar coverage touch only at nodes: what the line simplifier asks of its
 input holds when the segments of the rings meet only at common ends.
 */
module CoveragePlanarity {
  import opened Planar
  import opened CoordinateLists
  import opened CoverageRings
  import opened CoverageNodes
  import opened CoverageSections
  import opened CoverageKeys
  import opened RingSplits
  import opened EdgeTables
  import P = Pasch
  import A = Arrangement
  import Tpvw

  // Two different segments meet at common ends at most.
  ghost predicate Apart(s: (Point, Point), t: (Point, Point)) {
    P.MeetOnlyAtEnds(s.0, s.1, t.0, t.1)
  }

  // No two different segments of the rings cross, overlap, or touch except at common ends.
  ghost predicate PlanarCoverage(rings: seq<seq<Point>>) {
    forall i, j, s, t {:trigger s in Segments(rings[i]), t in Segments(rings[j])} ::
      0 <= i < |rings| && 0 <= j < |rings| && s in Segments(rings[i]) && t in Segments(rings[j]) && s != t ==>
        Apart(s, t)
  }

  // ---- A vertex of two edges is a node

  lemma ThreeTouch(boundary: set<(Point, Point)>, v: Point, a: (Point, Point), b: (Point, Point), c: (Point, Point))
    requires a != b && b != c && a != c && {a, b, c} <= Touching(boundary, v)
    ensures |Touching(boundary, v)| > 2
  {
    var t := Touching(boundary, v);
    assert t == t - {a, b, c} + {a, b, c};
    assert |{a, b, c}| == 3;
  }

  lemma NormalizedTouches(v: Point, c: Point, boundary: set<(Point, Point)>)
    requires Normalized(v, c) in boundary
    ensures Normalized(v, c) in Touching(boundary, v)
  {
  }

  // A ring that does not turn at v has both its segments there on the boundary, or neither.
  lemma BothOrNeither(rings: seq<seq<Point>>, boundary: set<(Point, Point)>, first: set<Point>, i: nat, v: Point,
                      c: Point, d: Point)
    requires Setting(rings, boundary, first) && i < |rings| && v !in FinalNodes(rings, boundary, first)
    requires Adjacent(rings[i], v, c) && Adjacent(rings[i], v, d)
    ensures Normalized(v, c) in boundary <==> Normalized(v, d) in boundary
  {
    TransitionsWithin(rings, boundary, i);
    if Normalized(v, c) in boundary && Normalized(v, d) !in boundary { TransitionHere(rings[i], boundary, v, c, d); }
    if Normalized(v, d) in boundary && Normalized(v, c) !in boundary { TransitionHere(rings[i], boundary, v, d, c); }
  }

  lemma OtherNeighbour(ring: seq<Point>, v: Point, c: Point) returns (d: Point)
    requires SimpleRing(ring) && Adjacent(ring, v, c)
    ensures Adjacent(ring, v, d) && d != c
  {
    AdjacentInRing(ring, v, c);
    var x := IndexOfVertex(ring, v);
    BothNeighbours(ring, x);
    d := if ring[NextIndex(ring, x)] == c then ring[PrevIndex(ring, x)] else ring[NextIndex(ring, x)];
  }

  lemma SomeNeighbour(ring: seq<Point>, v: Point) returns (d: Point)
    requires SimpleRing(ring) && v in ring
    ensures Adjacent(ring, v, d)
  {
    var x := IndexOfVertex(ring, v);
    BothNeighbours(ring, x);
    d := ring[NextIndex(ring, x)];
  }

  /** Two rings that pass a vertex that is no node run through the same segments there. */
  lemma SameAtVertex(rings: seq<seq<Point>>, boundary: set<(Point, Point)>, first: set<Point>, i: nat, j: nat, v: Point,
                     c: Point)
    requires Setting(rings, boundary, first) && i < |rings| && j < |rings| && v in rings[j]
    requires v !in FinalNodes(rings, boundary, first) && Adjacent(rings[i], v, c)
    ensures Adjacent(rings[j], v, c)
  {
    if i != j {
      if Normalized(v, c) !in boundary {
        InnerIsShared(rings, boundary, first, i, j, v, c);
      } else {
        var d := SomeNeighbour(rings[j], v);
        var e := OtherNeighbour(rings[j], v, d);
        BoundaryBoth(rings, boundary, first, i, j, v, c, d);
        BoundaryBoth(rings, boundary, first, i, j, v, c, e);
        TwoBoundaryOnly(rings, boundary, first, v, c, d, e);
      }
    }
  }

  // No more than two boundary segments meet at a vertex that is no node.
  lemma TwoBoundaryOnly(rings: seq<seq<Point>>, boundary: set<(Point, Point)>, first: set<Point>, v: Point, c: Point,
                        d: Point, e: Point)
    requires Setting(rings, boundary, first) && v !in first && d != e
    requires Normalized(v, c) in boundary && Normalized(v, d) in boundary && Normalized(v, e) in boundary
    ensures c == d || c == e
  {
    NormalizedTouches(v, c, boundary);
    NormalizedTouches(v, d, boundary);
    NormalizedTouches(v, e, boundary);
    NormalizedIsUndirected(v, c, v, d);
    NormalizedIsUndirected(v, c, v, e);
    NormalizedIsUndirected(v, d, v, e);
    TouchingFew(rings, boundary, first, v);
    hide *;
    if c != d && c != e {
      ThreeTouch(boundary, v, Normalized(v, c), Normalized(v, d), Normalized(v, e));
    }
  }

  lemma TouchingFew(rings: seq<seq<Point>>, boundary: set<(Point, Point)>, first: set<Point>, v: Point)
    requires Setting(rings, boundary, first) && v !in first
    ensures |Touching(boundary, v)| <= 2
  {
  }

  // If one ring has a boundary segment at a vertex that is no node, so do the others.
  lemma BoundaryBoth(rings: seq<seq<Point>>, boundary: set<(Point, Point)>, first: set<Point>, i: nat, j: nat,
                     v: Point, c: Point, d: Point)
    requires Setting(rings, boundary, first) && i < |rings| && j < |rings| && i != j
    requires v !in FinalNodes(rings, boundary, first) && Adjacent(rings[i], v, c) && Adjacent(rings[j], v, d)
    requires Normalized(v, c) in boundary
    ensures Normalized(v, d) in boundary
  {
    AdjacentInRing(rings[i], v, c);
    if Normalized(v, d) !in boundary {
      InnerIsShared(rings, boundary, first, j, i, v, d);
      BothOrNeither(rings, boundary, first, i, v, c, d);
    }
  }

  // An edge has both segments of its ring at a vertex that is no node.
  lemma EdgeHasBoth(ring: seq<Point>, nodes: set<Point>, p: seq<Point>, x: nat, c: Point)
    requires SimpleRing(ring) && IsEdge(ring, nodes, p) && x < |p| && p[x] !in nodes && Adjacent(ring, p[x], c)
    ensures Normalized(p[x], c) in Segments(p)
  {
    if NodePath(ring, nodes, p) {
      var v := p[x];
      assert StepAt(ring, p, x - 1) && StepAt(ring, p, x);
      AdjacentFlip(ring, p[x - 1], v);
      SegmentAt(p, x - 1);
      SegmentAt(p, x);
      TwoNeighbours(ring, p[x - 1], v, p[x + 1], c);
    }
  }

  // An edge has a segment at each of its vertices.
  lemma EdgeHasSome(ring: seq<Point>, nodes: set<Point>, q: seq<Point>, y: nat) returns (c: Point)
    requires SimpleRing(ring) && IsEdge(ring, nodes, q) && y < |q|
    ensures Adjacent(ring, q[y], c) && Normalized(q[y], c) in Segments(q)
  {
    EdgeWithin(ring, nodes, q);
    assert |q| >= 2;
    var t := if y + 1 < |q| then y else y - 1;
    SegmentAt(q, t);
    c := if y + 1 < |q| then q[y + 1] else q[y - 1];
  }

  // Edges that share a vertex that is no node share a segment.
  lemma NonNodeShares(rings: seq<seq<Point>>, boundary: set<(Point, Point)>, first: set<Point>, i: nat, j: nat,
                      p: seq<Point>, q: seq<Point>, x: nat, y: nat)
    requires Setting(rings, boundary, first) && i < |rings| && j < |rings|
    requires IsEdge(rings[i], FinalNodes(rings, boundary, first), p)
    requires IsEdge(rings[j], FinalNodes(rings, boundary, first), q)
    requires x < |p| && y < |q| && p[x] == q[y] && p[x] !in FinalNodes(rings, boundary, first)
    ensures Segments(p) * Segments(q) != {}
  {
    var v, nodes := p[x], FinalNodes(rings, boundary, first);
    RingsSimple(rings, boundary, first, i);
    RingsSimple(rings, boundary, first, j);
    hide *;
    var c := EdgeHasSome(rings[j], nodes, q, y);
    var d := EdgeHasSome(rings[i], nodes, p, x);
    AdjacentInRing(rings[i], v, d);
    SameAtVertex(rings, boundary, first, j, i, v, c);
    EdgeHasBoth(rings[i], nodes, p, x, c);
    assert Normalized(v, c) in Segments(p) * Segments(q);
  }

  /** A vertex on two edges without a common segment is a node. */
  lemma SharedVertexIsNode(rings: seq<seq<Point>>, boundary: set<(Point, Point)>, first: set<Point>, i: nat, j: nat,
                           p: seq<Point>, q: seq<Point>, x: nat, y: nat)
    requires Setting(rings, boundary, first) && i < |rings| && j < |rings|
    requires IsEdge(rings[i], FinalNodes(rings, boundary, first), p)
    requires IsEdge(rings[j], FinalNodes(rings, boundary, first), q)
    requires Segments(p) * Segments(q) == {} && x < |p| && y < |q| && p[x] == q[y]
    ensures p[x] in FinalNodes(rings, boundary, first)
  {
    if p[x] !in FinalNodes(rings, boundary, first) {
      hide *;
      NonNodeShares(rings, boundary, first, i, j, p, q, x, y);
    }
  }

  lemma RingsSimple(rings: seq<seq<Point>>, boundary: set<(Point, Point)>, first: set<Point>, i: nat)
    requires Setting(rings, boundary, first) && i < |rings|
    ensures SimpleRing(rings[i])
  {
  }

  // ---- The vertices of one edge

  // A path between nodes is a section of its ring, perhaps reversed.
  lemma PathIsSection(rings: seq<seq<Point>>, boundary: set<(Point, Point)>, first: set<Point>, i: nat, p: seq<Point>)
    returns (s: nat, e: nat)
    requires Setting(rings, boundary, first) && i < |rings| && NodePath(rings[i], FinalNodes(rings, boundary, first), p)
    ensures s < |rings[i]| - 1 && e < |rings[i]| - 1
    ensures p == Section(rings[i], s, e) || p == Reversed(Section(rings[i], s, e))
  {
    var ring, nodes := rings[i], FinalNodes(rings, boundary, first);
    RingsSimple(rings, boundary, first, i);
    assert IsEdge(ring, nodes, p);
    hide *;
    var g := FirstOnRing(ring, nodes, p);
    var cuts := CutsExist(ring, nodes);
    CutsRising(ring, nodes, cuts);
    var m := PiecesCover(ring, cuts, g);
    PieceIsEdge(ring, nodes, cuts, m);
    EdgesAgree(rings, boundary, first, i, i, p, Pieces(ring, cuts)[m], g);
    CutsEmpty(ring, nodes, cuts);
    PathHasNode(ring, nodes, p);
    SameEdgeOpen(p, Pieces(ring, cuts)[m]);
    RingSize(ring);
    PieceAt(ring, cuts, m);
    s, e := cuts[m], EndOf(cuts, m);
    ReversedTwice(p);
  }

  lemma SameEdgeOpen(p: seq<Point>, q: seq<Point>)
    ensures SameEdge(p, q, false) ==> q == p || q == Reversed(p)
  {
  }

  lemma RingSize(ring: seq<Point>)
    requires SimpleRing(ring)
    ensures |ring| >= 4
  {
  }

  lemma FirstOnRing(ring: seq<Point>, nodes: set<Point>, p: seq<Point>) returns (g: (Point, Point))
    requires IsEdge(ring, nodes, p) && SimpleRing(ring)
    ensures g in Segments(p) && g in Segments(ring)
  {
    EdgeWithin(ring, nodes, p);
    SegmentAt(p, 0);
    g := Normalized(p[0], p[1]);
  }

  lemma CutsRising(ring: seq<Point>, nodes: set<Point>, cuts: seq<nat>)
    requires CutsOf(ring, nodes, cuts)
    ensures Rising(ring, cuts)
  {
  }

  lemma PathHasNode(ring: seq<Point>, nodes: set<Point>, p: seq<Point>)
    requires NodePath(ring, nodes, p)
    ensures !NodeFree(ring, nodes)
  {
    NodePathNotFree(ring, nodes, p);
  }

  // No point twice, except that the last may be the first.
  predicate OnceExceptEnds(p: seq<Point>) {
    forall x, y :: 0 <= x < y < |p| && p[x] == p[y] ==> x == 0 && y == |p| - 1
  }

  lemma SectionOnce(ring: seq<Point>, s: nat, e: nat)
    requires SimpleRing(ring) && s < |ring| - 1 && e < |ring| - 1
    ensures OnceExceptEnds(Section(ring, s, e)) && OnceExceptEnds(Reversed(Section(ring, s, e)))
  {
    var q := Section(ring, s, e);
    forall x, y | 0 <= x < y < |q| && q[x] == q[y] ensures x == 0 && y == |q| - 1 {
      SectionAt(ring, s, e, x);
      SectionAt(ring, s, e, y);
      assert PlaceOf(ring, s, x) == PlaceOf(ring, s, y);
    }
    hide Section;
    hide SimpleRing;
    ReversedOnce(q);
  }

  lemma ReversedOnce(q: seq<Point>)
    requires OnceExceptEnds(q)
    ensures OnceExceptEnds(Reversed(q))
  {
    var r := Reversed(q);
    forall x, y | 0 <= x < y < |r| && r[x] == r[y] ensures x == 0 && y == |r| - 1 {
      assert q[|q| - 1 - y] == q[|q| - 1 - x];
    }
  }

  /** An edge visits no point twice, except that it may close. */
  lemma EdgeOnce(rings: seq<seq<Point>>, boundary: set<(Point, Point)>, first: set<Point>, i: nat, p: seq<Point>)
    requires Setting(rings, boundary, first) && i < |rings| && IsEdge(rings[i], FinalNodes(rings, boundary, first), p)
    ensures OnceExceptEnds(p) && |p| >= 2 && (p[0] == p[|p| - 1] ==> |p| >= 4)
  {
    RingsSimple(rings, boundary, first, i);
    if NodePath(rings[i], FinalNodes(rings, boundary, first), p) {
      var s, e := PathIsSection(rings, boundary, first, i, p);
      PathLong(rings[i], FinalNodes(rings, boundary, first), p);
      hide *;
      SectionOnce(rings[i], s, e);
    }
  }

  lemma PathLong(ring: seq<Point>, nodes: set<Point>, p: seq<Point>)
    requires SimpleRing(ring) && NodePath(ring, nodes, p)
    ensures |p| >= 2 && (p[0] == p[|p| - 1] ==> |p| >= 4)
  {
    assert StepAt(ring, p, 0);
    var i := AdjacentAt(ring, p[0], p[1]);
    BothNeighbours(ring, i);
  }

  // ---- The lines of the edges

  // p is an edge of some ring, and free when that ring has no nodes.
  ghost predicate EdgeOfSome(c: Coverage, i: nat, p: seq<Point>, free: bool) {
    Ready(c) && i < |c.rings| && IsEdge(c.rings[i], Nodes(c), p) && free == NodeFree(c.rings[i], Nodes(c))
  }

  ghost predicate EdgePoints(c: Coverage, p: seq<Point>, free: bool) {
    exists i :: EdgeOfSome(c, i, p, free)
  }

  // Line l stands for edge p; only the edge of a ring without nodes is handled as free.
  ghost predicate LineFor(c: Coverage, p: seq<Point>, l: A.Line) {
    exists free, f :: EdgePoints(c, p, free) && (f ==> free) && l == Tpvw.LineOf(p, f)
  }

  lemma LineForParts(c: Coverage, p: seq<Point>, l: A.Line) returns (i: nat, free: bool)
    requires LineFor(c, p, l)
    ensures EdgeOfSome(c, i, p, free) && (l.free ==> free) && l == Tpvw.LineOf(p, l.free)
    ensures OnceExceptEnds(p) && |p| >= 2 && (p[0] == p[|p| - 1] ==> |p| >= 4)
    ensures l.free ==> p[0] == p[|p| - 1]
  {
    var free0, f :| EdgePoints(c, p, free0) && (f ==> free0) && l == Tpvw.LineOf(p, f);
    free := free0;
    i :| EdgeOfSome(c, i, p, free);
    EdgeOnce(c.rings, c.boundary, c.first, i, p);
    if f {
      EdgeWithin(c.rings[i], Nodes(c), p);
      RingsSimple(c.rings, c.boundary, c.first, i);
    }
    hide SimpleRing;
    hide OnceExceptEnds;
  }

  // The slots of the line are the points of the edge; a closed one does not repeat its first point.
  lemma LineSlots(p: seq<Point>, l: A.Line, k: nat)
    requires |p| >= 2 && (p[0] == p[|p| - 1] ==> |p| >= 4) && l == Tpvw.LineOf(p, l.free) && k < |l.pts|
    ensures k < |p| && l.pts[k] == p[k] && (l.closed <==> p[0] == p[|p| - 1])
    ensures |l.pts| == if l.closed then |p| - 1 else |p|
    ensures l.closed || k + 1 < |l.pts| ==> k + 1 < |p| && l.pts[A.Following(l, k)] == p[k + 1]
  {
  }

  lemma LineShape(p: seq<Point>, l: A.Line)
    requires |p| >= 2 && (p[0] == p[|p| - 1] ==> |p| >= 4) && l == Tpvw.LineOf(p, l.free)
    requires l.free ==> p[0] == p[|p| - 1]
    ensures A.WellFormed(l) && A.EndsDiffer(l)
  {
  }

  lemma LineWellFormed(c: Coverage, p: seq<Point>, l: A.Line)
    requires LineFor(c, p, l)
    ensures A.WellFormed(l) && A.EndsDiffer(l)
  {
    hide *;
    var i, free := LineForParts(c, p, l);
    LineShape(p, l);
  }

  lemma SegmentsDiffer(p: seq<Point>, k: nat, m: nat)
    requires k < m && m + 1 < |p| && OnceExceptEnds(p) && (p[0] == p[|p| - 1] ==> |p| >= 4)
    ensures SegmentOf(p, k) != SegmentOf(p, m)
  {
    NormalizedIsUndirected(p[k], p[k + 1], p[m], p[m + 1]);
  }

  lemma Flipped(x: Point, a: Point, b: Point)
    ensures OnSegment(x, a, b) <==> OnSegment(x, b, a)
  {
    CrossCyclic(a, b, x);
    hide Cross;
  }

  lemma ApartEitherWay(a: Point, b: Point, d: Point, e: Point)
    ensures Apart(Normalized(a, b), Normalized(d, e)) <==> P.MeetOnlyAtEnds(a, b, d, e)
  {
    var s, t := Normalized(a, b), Normalized(d, e);
    forall x
      ensures OnSegment(x, s.0, s.1) <==> OnSegment(x, a, b)
      ensures OnSegment(x, t.0, t.1) <==> OnSegment(x, d, e)
    {
      Flipped(x, a, b);
      Flipped(x, d, e);
    }
    hide OnSegment;
  }

  // Two different segments of edges.
  lemma EdgeSegmentsApart(c: Coverage, i: nat, j: nat, p: seq<Point>, q: seq<Point>, fp: bool, fq: bool, k: nat, m: nat)
    requires PlanarCoverage(c.rings) && EdgeOfSome(c, i, p, fp) && EdgeOfSome(c, j, q, fq)
    requires k + 1 < |p| && m + 1 < |q| && SegmentOf(p, k) != SegmentOf(q, m)
    ensures P.MeetOnlyAtEnds(p[k], p[k + 1], q[m], q[m + 1])
  {
    EdgeWithin(c.rings[i], Nodes(c), p);
    EdgeWithin(c.rings[j], Nodes(c), q);
    SegmentAt(p, k);
    SegmentAt(q, m);
    assert Apart(SegmentOf(p, k), SegmentOf(q, m));
    ApartEitherWay(p[k], p[k + 1], q[m], q[m + 1]);
  }

  // The lines stand for edges that have no segment in common.
  ghost predicate LinesFor(c: Coverage, ps: seq<seq<Point>>, ls: seq<A.Line>) {
    && |ps| == |ls|
    && (forall k :: 0 <= k < |ls| ==> LineFor(c, ps[k], ls[k]))
    && forall k, m :: 0 <= k < m < |ls| ==> Segments(ps[k]) * Segments(ps[m]) == {}
  }

  lemma LinePair(c: Coverage, ps: seq<seq<Point>>, ls: seq<A.Line>, i: nat, j: nat)
    requires LinesFor(c, ps, ls) && i < |ls| && j < |ls|
    ensures |ps| == |ls| && LineFor(c, ps[i], ls[i]) && LineFor(c, ps[j], ls[j])
    ensures i != j ==> Segments(ps[i]) * Segments(ps[j]) == {}
  {
    hide LineFor;
    hide Segments;
  }

  lemma SegIs(ls: seq<A.Line>, i: nat, k: nat)
    requires A.Seg(ls, i, k)
    ensures i < |ls| && k < |ls[i].pts| && A.At(ls, i, k) == ls[i].pts[k]
    ensures A.Following(ls[i], k) < |ls[i].pts| && A.SegEnd(ls, i, k) == ls[i].pts[A.Following(ls[i], k)]
    ensures ls[i].closed || k + 1 < |ls[i].pts|
  {
  }

  // The segment of a line at slot k is that of its edge.
  lemma LineSegment(c: Coverage, p: seq<Point>, ls: seq<A.Line>, i: nat, k: nat) returns (a: nat, free: bool)
    requires A.Seg(ls, i, k) && i < |ls| && LineFor(c, p, ls[i])
    ensures k + 1 < |p| && A.At(ls, i, k) == p[k] && A.SegEnd(ls, i, k) == p[k + 1]
    ensures EdgeOfSome(c, a, p, free)
    ensures OnceExceptEnds(p) && (p[0] == p[|p| - 1] ==> |p| >= 4)
  {
    hide *;
    SegIs(ls, i, k);
    a, free := LineForParts(c, p, ls[i]);
    LineSlots(p, ls[i], k);
  }

  lemma TwoSegmentsDiffer(p: seq<Point>, q: seq<Point>, k: nat, m: nat)
    requires k + 1 < |p| && m + 1 < |q| && Segments(p) * Segments(q) == {}
    ensures SegmentOf(p, k) != SegmentOf(q, m)
  {
    assert SegmentOf(p, k) !in Segments(p) * Segments(q);
    assert SegmentOf(p, k) in Segments(p) && SegmentOf(q, m) in Segments(q);
  }

  lemma LineSegmentsApart(c: Coverage, ps: seq<seq<Point>>, ls: seq<A.Line>, i: nat, k: nat, j: nat, m: nat)
    requires PlanarCoverage(c.rings) && LinesFor(c, ps, ls)
    requires A.Seg(ls, i, k) && A.Seg(ls, j, m) && (i, k) != (j, m)
    ensures P.MeetOnlyAtEnds(A.At(ls, i, k), A.SegEnd(ls, i, k), A.At(ls, j, m), A.SegEnd(ls, j, m))
  {
    hide *;
    SegIs(ls, i, k);
    SegIs(ls, j, m);
    LinePair(c, ps, ls, i, j);
    var a, fp := LineSegment(c, ps[i], ls, i, k);
    var b, fq := LineSegment(c, ps[j], ls, j, m);
    if i != j {
      TwoSegmentsDiffer(ps[i], ps[j], k, m);
    } else if k < m {
      SegmentsDiffer(ps[i], k, m);
    } else {
      SegmentsDiffer(ps[i], m, k);
    }
    EdgeSegmentsApart(c, a, b, ps[i], ps[j], fp, fq, k, m);
  }

  // Only the ends of an edge that is not a whole ring are nodes.
  lemma NodeIsFixed(c: Coverage, i: nat, p: seq<Point>, free: bool, l: A.Line, k: nat)
    requires EdgeOfSome(c, i, p, free) && (l.free ==> free) && l == Tpvw.LineOf(p, l.free)
    requires |p| >= 2 && (p[0] == p[|p| - 1] ==> |p| >= 4)
    requires k < |l.pts| && k < |p| && p[k] in Nodes(c)
    ensures A.FixedSlot(l, k)
  {
    LineSlots(p, l, k);
    EdgeWithin(c.rings[i], Nodes(c), p);
    assert p[k] in p;
    hide Nodes;
  }

  lemma SlotIs(ls: seq<A.Line>, i: nat, k: nat)
    requires A.Slot(ls, i, k)
    ensures i < |ls| && k < |ls[i].pts| && A.At(ls, i, k) == ls[i].pts[k]
  {
  }

  lemma LineVertex(c: Coverage, p: seq<Point>, ls: seq<A.Line>, i: nat, k: nat) returns (a: nat, free: bool)
    requires A.Slot(ls, i, k) && i < |ls| && LineFor(c, p, ls[i])
    ensures k < |p| && k < |ls[i].pts| && A.At(ls, i, k) == p[k] && EdgeOfSome(c, a, p, free)
    ensures OnceExceptEnds(p) && |p| >= 2 && (p[0] == p[|p| - 1] ==> |p| >= 4 && k < |p| - 1)
    ensures (ls[i].free ==> free) && ls[i] == Tpvw.LineOf(p, ls[i].free)
  {
    assert A.At(ls, i, k) == ls[i].pts[k];
    hide *;
    a, free := LineForParts(c, p, ls[i]);
    LineSlots(p, ls[i], k);
  }

  lemma OnceIndex(p: seq<Point>, k: nat, m: nat)
    requires OnceExceptEnds(p) && k < |p| && m < |p| && p[k] == p[m]
    requires p[0] == p[|p| - 1] ==> k < |p| - 1 && m < |p| - 1
    ensures k == m
  {
  }

  lemma LineVerticesApart(c: Coverage, ps: seq<seq<Point>>, ls: seq<A.Line>, i: nat, k: nat, j: nat, m: nat)
    requires LinesFor(c, ps, ls)
    requires A.Slot(ls, i, k) && A.Slot(ls, j, m) && (i, k) != (j, m) && A.At(ls, i, k) == A.At(ls, j, m)
    ensures A.FixedSlot(ls[i], k) && A.FixedSlot(ls[j], m)
  {
    hide *;
    SlotIs(ls, i, k);
    SlotIs(ls, j, m);
    LinePair(c, ps, ls, i, j);
    var a, fp := LineVertex(c, ps[i], ls, i, k);
    var b, fq := LineVertex(c, ps[j], ls, j, m);
    if i == j {
      OnceIndex(ps[i], k, m);
    } else {
      EdgesMeetAtNode(c, a, b, ps[i], ps[j], fp, fq, k, m);
      NodeIsFixed(c, a, ps[i], fp, ls[i], k);
      NodeIsFixed(c, b, ps[j], fq, ls[j], m);
    }
  }

  lemma EdgesMeetAtNode(c: Coverage, i: nat, j: nat, p: seq<Point>, q: seq<Point>, fp: bool, fq: bool, x: nat, y: nat)
    requires EdgeOfSome(c, i, p, fp) && EdgeOfSome(c, j, q, fq) && Segments(p) * Segments(q) == {}
    requires x < |p| && y < |q| && p[x] == q[y]
    ensures Ready(c) && p[x] in Nodes(c)
  {
    SharedVertexIsNode(c.rings, c.boundary, c.first, i, j, p, q, x, y);
    hide IsEdge;
    hide Segments;
  }

  /** The lines of a planar coverage's edges touch only at their fixed vertices. */
  lemma LinesArranged(c: Coverage, ps: seq<seq<Point>>, ls: seq<A.Line>)
    requires PlanarCoverage(c.rings) && LinesFor(c, ps, ls)
    ensures A.Arranged(ls)
  {
    hide *;
    AllWellFormed(c, ps, ls);
    AllSegmentsApart(c, ps, ls);
    AllVerticesApart(c, ps, ls);
    ArrangedFrom(ls);
  }

  lemma AllWellFormed(c: Coverage, ps: seq<seq<Point>>, ls: seq<A.Line>)
    requires LinesFor(c, ps, ls)
    ensures (forall i :: 0 <= i < |ls| ==> A.WellFormed(ls[i])) && A.AllEndsDiffer(ls)
  {
    assert |ps| == |ls|;
    hide LinesFor;
    hide LineFor;
    hide A.WellFormed;
    hide A.EndsDiffer;
    forall i | 0 <= i < |ls| ensures A.WellFormed(ls[i]) && A.EndsDiffer(ls[i]) {
      LinePair(c, ps, ls, i, i);
      LineWellFormed(c, ps[i], ls[i]);
    }
  }

  lemma AllSegmentsApart(c: Coverage, ps: seq<seq<Point>>, ls: seq<A.Line>)
    requires PlanarCoverage(c.rings) && LinesFor(c, ps, ls)
    ensures A.SegmentsApart(ls)
  {
    hide PlanarCoverage;
    hide LinesFor;
    hide P.MeetOnlyAtEnds;
    forall i: nat, k: nat, j: nat, m: nat | A.Seg(ls, i, k) && A.Seg(ls, j, m) && (i, k) != (j, m)
      ensures P.MeetOnlyAtEnds(A.At(ls, i, k), A.SegEnd(ls, i, k), A.At(ls, j, m), A.SegEnd(ls, j, m))
    {
      hide *;
      LineSegmentsApart(c, ps, ls, i, k, j, m);
    }
  }

  lemma AllVerticesApart(c: Coverage, ps: seq<seq<Point>>, ls: seq<A.Line>)
    requires LinesFor(c, ps, ls)
    ensures A.VerticesApart(ls)
  {
    hide LinesFor;
    hide A.FixedSlot;
    forall i: nat, k: nat, j: nat, m: nat
      | A.Slot(ls, i, k) && A.Slot(ls, j, m) && (i, k) != (j, m) && A.At(ls, i, k) == A.At(ls, j, m)
      ensures A.FixedSlot(ls[i], k) && A.FixedSlot(ls[j], m)
    {
      hide *;
      LineVerticesApart(c, ps, ls, i, k, j, m);
    }
  }

  lemma ArrangedFrom(ls: seq<A.Line>)
    requires (forall i :: 0 <= i < |ls| ==> A.WellFormed(ls[i])) && A.AllEndsDiffer(ls)
    requires A.SegmentsApart(ls) && A.VerticesApart(ls)
    ensures A.Arranged(ls)
  {
  }
}
