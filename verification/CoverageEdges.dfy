/** Coverage edges: their points, how many rings use them, and the key they are found by. */
module CoverageEdges {
  import opened Planar
  import opened CoordinateLists
  import opened CoverageRings
  import opened CoverageNodes
  import opened CoverageSections
  import opened CoverageKeys

  datatype DistinctPoint = Found(p: Point) | IllegalState

  // The index reached after t steps around pts, forward or backward, for t up to its length.
  function WalkIndex(size: nat, index: nat, isForward: bool, t: nat): nat
    requires index < size && t <= size
  {
    if isForward then if index + t < size then index + t else index + t - size
    else if t <= index then index - t else index + size - t
  }

  lemma WalkReaches(size: nat, index: nat, isForward: bool, x: nat) returns (t: nat)
    requires index < size && x < size
    ensures t < size && WalkIndex(size, index, isForward, t) == x
  {
    t := if isForward then if x >= index then x - index else x + size - index
         else if x <= index then index - x else index + size - x;
  }

  /** The first point met that differs from pt, wrapping around; an error when all are equal to it. */
  method FindDistinctPoint(pts: seq<Point>, index: nat, isForward: bool, pt: Point)
    returns (r: DistinctPoint, ghost t: nat)
    requires index < |pts|
    ensures r.IllegalState? <==> forall p :: p in pts ==> p == pt
    ensures r.Found? ==> t < |pts| && r.p == pts[WalkIndex(|pts|, index, isForward, t)] && r.p != pt
    ensures r.Found? ==> forall u :: 0 <= u < t ==> pts[WalkIndex(|pts|, index, isForward, u)] == pt
  {
    var i := index;
    var endIndex := |pts| - 1;
    t := 0;
    while true
      invariant 0 <= t < |pts| && i == WalkIndex(|pts|, index, isForward, t)
      invariant forall u :: 0 <= u < t ==> pts[WalkIndex(|pts|, index, isForward, u)] == pt
      decreases |pts| - t
    {
      if pts[i] != pt {
        assert pts[i] in pts;
        return Found(pts[i]), t;
      }
      if isForward {
        i := if i == endIndex then 0 else i + 1;
      } else {
        i := if i == 0 then endIndex else i - 1;
      }
      t := t + 1;
      if i == index {
        break;
      }
    }
    forall p | p in pts ensures p == pt {
      var x :| 0 <= x < |pts| && pts[x] == p;
      var u := WalkReaches(|pts|, index, isForward, x);
    }
    r := IllegalState;
  }

  // In a simple ring the first distinct point beside a vertex is its neighbour.
  method NeighbourOf(ring: seq<Point>, x: nat, isForward: bool) returns (p: Point)
    requires SimpleRing(ring) && x < |ring| - 1
    ensures p == ring[if isForward then NextIndex(ring, x) else PrevIndex(ring, x)]
  {
    BothNeighbours(ring, x);
    assert ring[NextIndex(ring, x)] in ring;
    var r;
    ghost var t;
    r, t := FindDistinctPoint(ring, x, isForward, ring[x]);
    assert ring[WalkIndex(|ring|, x, isForward, 0)] == ring[x];
    if !isForward && x == 0 {
      assert ring[WalkIndex(|ring|, x, isForward, 1)] == ring[x];
      assert ring[WalkIndex(|ring|, x, isForward, 2)] == ring[|ring| - 2];
    } else {
      assert ring[WalkIndex(|ring|, x, isForward, 1)] == ring[if isForward then NextIndex(ring, x) else x - 1];
    }
    p := r.p;
  }

  // ---- Keys

  lemma CompareTransitive(p: Point, q: Point, r: Point)
    requires CompareTo(p, q) <= 0 && CompareTo(q, r) <= 0
    ensures CompareTo(p, r) <= 0
  {
  }

  lemma CompareTotal(p: Point, q: Point)
    ensures CompareTo(p, q) < 0 || CompareTo(q, p) <= 0
  {
  }

  /** The key of a whole ring: from its greatest vertex to the lesser one beside it. */
  method RingKey(ring: seq<Point>) returns (key: (Point, Point))
    requires SimpleRing(ring)
    ensures IsRingKey(Segments(ring), key)
  {
    var indexLow := 0;
    for i := 1 to |ring| - 1
      invariant 0 <= indexLow < |ring| - 1
      invariant forall j :: 0 <= j < i ==> CompareTo(ring[j], ring[indexLow]) <= 0
    {
      if CompareTo(ring[indexLow], ring[i]) < 0 {
        forall j | 0 <= j < i
          ensures CompareTo(ring[j], ring[i]) <= 0
        { CompareTransitive(ring[j], ring[indexLow], ring[i]); }
        indexLow := i;
      } else {
        CompareTotal(ring[indexLow], ring[i]);
      }
    }
    var key0 := ring[indexLow];
    var adj0 := NeighbourOf(ring, indexLow, true);
    var adj1 := NeighbourOf(ring, indexLow, false);
    CompareTotal(adj0, adj1);
    var key1 := if CompareTo(adj0, adj1) < 0 then adj0 else adj1;
    BothNeighbours(ring, indexLow);
    forall w | Normalized(key0, w) in Segments(ring) ensures CompareTo(key1, w) <= 0 {
      assert Adjacent(ring, key0, w);
      NeighbourIs(ring, indexLow, w);
    }
    forall u, w | Normalized(u, w) in Segments(ring) ensures CompareTo(u, key0) <= 0 {
      assert Adjacent(ring, u, w);
      AdjacentInRing(ring, u, w);
      var x := IndexOfVertex(ring, u);
    }
    key := (key0, key1);
  }

  /** The key of a section with different ends: from the lesser end along it. */
  method SectionKey(ring: seq<Point>, start: nat, end: nat) returns (key: (Point, Point))
    requires SimpleRing(ring) && start < |ring| - 1 && end < |ring| - 1 && start != end
    ensures |Section(ring, start, end)| >= 2 && key == PathKey(Section(ring, start, end))
  {
    SectionBeside(ring, start, end);
    var end0, end1 := ring[start], ring[end];
    var isForward := 0 > CompareTo(end0, end1);
    hide Section;
    hide SimpleRing;
    if isForward {
      var key1 := NeighbourOf(ring, start, true);
      key := (end0, key1);
    } else {
      var key1 := NeighbourOf(ring, end, false);
      key := (end1, key1);
    }
  }

  // The ends of a section and the points beside them.
  lemma SectionBeside(ring: seq<Point>, start: nat, end: nat)
    requires SimpleRing(ring) && start < |ring| - 1 && end < |ring| - 1
    ensures var q := Section(ring, start, end);
      && |q| >= 2 && q[0] == ring[start] && q[1] == ring[NextIndex(ring, start)]
      && q[|q| - 1] == ring[end] && q[|q| - 2] == ring[PrevIndex(ring, end)]
  {
    var n := |Section(ring, start, end)|;
    SectionAt(ring, start, end, 0);
    SectionAt(ring, start, end, 1);
    SectionAt(ring, start, end, n - 1);
    SectionAt(ring, start, end, n - 2);
  }

  lemma WholeSegments(ring: seq<Point>, s: nat)
    requires SimpleRing(ring) && s < |ring| - 1
    ensures Segments(Section(ring, s, s)) == Segments(ring)
  {
    SectionSteps(ring, s, s);
    SegmentsOfSteps(ring, Section(ring, s, s));
    forall g | g in Segments(ring) ensures g in Segments(Section(ring, s, s)) {
      var x :| 0 <= x < |ring| - 1 && SegmentOf(ring, x) == g;
      var q := Section(ring, s, s);
      var t := if x >= s then x - s else x - s + |ring| - 1;
      assert q[t] == ring[x] && q[t + 1] == ring[x + 1];
      assert SegmentOf(q, t) == g;
    }
  }

  class CoverageEdge {
    var pts: seq<Point>
    var ringCount: nat
    const isFreeRing: bool

    constructor (pts: seq<Point>, isFreeRing: bool)
      ensures this.pts == pts && ringCount == 0 && this.isFreeRing == isFreeRing
    {
      this.pts := pts;
      this.ringCount := 0;
      this.isFreeRing := isFreeRing;
    }

    method IncRingCount()
      modifies this`ringCount
      ensures ringCount == old(ringCount) + 1
    {
      ringCount := ringCount + 1;
    }

    method SetCoordinates(newPts: seq<Point>)
      modifies this`pts
      ensures pts == newPts
    {
      pts := newPts;
    }
  }
}
