/**
 Coverages as the ring-edge builder sees them: the rings of all polygons, their
 segments, and in how many rings a vertex or a segment occurs.
 */
module CoverageRings {
  import opened Planar

  // ---- Counting

  function Count(bs: seq<bool>): nat {
    if bs == [] then 0
    else Count(bs[..|bs| - 1]) + if bs[|bs| - 1] then 1 else 0
  }

  lemma CountPrefix(bs: seq<bool>, n: nat)
    requires n < |bs|
    ensures Count(bs[..n + 1]) == Count(bs[..n]) + if bs[n] then 1 else 0
  {
    assert bs[..n + 1][..n] == bs[..n];
  }

  lemma {:induction false} CountGrows(bs: seq<bool>, m: nat, n: nat)
    requires m <= n <= |bs|
    ensures Count(bs[..m]) <= Count(bs[..n])
  {
    if m < n {
      CountGrows(bs, m, n - 1);
      CountPrefix(bs, n - 1);
    }
  }

  // With places i < j < k all true there are at least three.
  lemma CountThree(bs: seq<bool>, i: nat, j: nat, k: nat)
    requires i < j < k < |bs| && bs[i] && bs[j] && bs[k]
    ensures Count(bs) >= 3
  {
    CountPrefix(bs, i);
    CountGrows(bs, i + 1, j);
    CountPrefix(bs, j);
    CountGrows(bs, j + 1, k);
    CountPrefix(bs, k);
    CountGrows(bs, k + 1, |bs|);
    assert bs[..|bs|] == bs;
  }

  lemma CountTwo(bs: seq<bool>, i: nat, j: nat)
    requires i < j < |bs| && bs[i] && bs[j]
    ensures Count(bs) >= 2
  {
    CountPrefix(bs, i);
    CountGrows(bs, i + 1, j);
    CountPrefix(bs, j);
    CountGrows(bs, j + 1, |bs|);
    assert bs[..|bs|] == bs;
  }

  lemma CountOne(bs: seq<bool>, i: nat)
    requires i < |bs| && bs[i]
    ensures Count(bs) >= 1
  {
    CountPrefix(bs, i);
    CountGrows(bs, i + 1, |bs|);
    assert bs[..|bs|] == bs;
  }

  lemma {:induction false} CountFind(bs: seq<bool>) returns (j: nat)
    requires Count(bs) >= 1
    ensures j < |bs| && bs[j]
  {
    var n := |bs| - 1;
    if bs[n] {
      j := n;
    } else {
      j := CountFind(bs[..n]);
    }
  }

  // More than one is true, so there is another beside k.
  lemma {:induction false} CountOther(bs: seq<bool>, k: nat) returns (j: nat)
    requires k < |bs| && bs[k] && Count(bs) >= 2
    ensures j < |bs| && j != k && bs[j]
  {
    var n := |bs| - 1;
    if k == n {
      j := CountFind(bs[..n]);
    } else if bs[n] {
      j := n;
    } else {
      j := CountOther(bs[..n], k);
    }
  }

  // ---- Rings

  // A closed sequence of at least three distinct vertices.
  predicate SimpleRing(ring: seq<Point>) {
    && |ring| >= 4 && ring[0] == ring[|ring| - 1]
    && forall i, j :: 0 <= i < j < |ring| - 1 ==> ring[i] != ring[j]
  }

  // The index after i, wrapping where the ring closes.
  function NextIndex(ring: seq<Point>, i: nat): nat
    requires |ring| >= 2
  {
    if i + 1 >= |ring| - 1 then 0 else i + 1
  }

  function PrevIndex(ring: seq<Point>, i: nat): nat
    requires |ring| >= 2
  {
    if i == 0 then |ring| - 2 else i - 1
  }

  // An undirected segment: the lesser end first.
  function Normalized(p: Point, q: Point): (Point, Point) {
    if CompareTo(q, p) < 0 then (q, p) else (p, q)
  }

  lemma NormalizedIsUndirected(p: Point, q: Point, u: Point, v: Point)
    ensures Normalized(p, q) == Normalized(q, p)
    ensures Normalized(p, q) == Normalized(u, v) <==> (p == u && q == v) || (p == v && q == u)
  {
  }

  // The segments of a closed or open sequence of points.
  function Segments(ring: seq<Point>): set<(Point, Point)> {
    set i | 0 <= i < |ring| - 1 :: SegmentOf(ring, i)
  }

  function SegmentOf(ring: seq<Point>, i: nat): (Point, Point)
    requires i + 1 < |ring|
  {
    Normalized(ring[i], ring[i + 1])
  }

  predicate Adjacent(ring: seq<Point>, a: Point, b: Point) {
    Normalized(a, b) in Segments(ring)
  }

  lemma SegmentAt(ring: seq<Point>, i: nat)
    requires i + 1 < |ring|
    ensures Adjacent(ring, ring[i], ring[i + 1]) && Adjacent(ring, ring[i + 1], ring[i])
  {
    assert SegmentOf(ring, i) in Segments(ring);
    NormalizedIsUndirected(ring[i], ring[i + 1], ring[i], ring[i + 1]);
  }

  // Where in the ring two adjacent points are.
  lemma AdjacentAt(ring: seq<Point>, a: Point, b: Point) returns (i: nat)
    requires Adjacent(ring, a, b)
    ensures i + 1 < |ring| && ((ring[i] == a && ring[i + 1] == b) || (ring[i] == b && ring[i + 1] == a))
  {
    i :| 0 <= i < |ring| - 1 && SegmentOf(ring, i) == Normalized(a, b);
    NormalizedIsUndirected(ring[i], ring[i + 1], a, b);
  }

  // The neighbours of the vertex at x are the vertices before and after it.
  lemma NeighbourIs(ring: seq<Point>, x: nat, a: Point)
    requires SimpleRing(ring) && x < |ring| - 1 && Adjacent(ring, ring[x], a)
    ensures a == ring[NextIndex(ring, x)] || a == ring[PrevIndex(ring, x)]
  {
    var i := AdjacentAt(ring, ring[x], a);
  }

  lemma BothNeighbours(ring: seq<Point>, x: nat)
    requires SimpleRing(ring) && x < |ring| - 1
    ensures Adjacent(ring, ring[x], ring[NextIndex(ring, x)]) && Adjacent(ring, ring[x], ring[PrevIndex(ring, x)])
    ensures ring[NextIndex(ring, x)] != ring[PrevIndex(ring, x)]
    ensures ring[NextIndex(ring, x)] != ring[x] && ring[PrevIndex(ring, x)] != ring[x]
  {
    SegmentAt(ring, x);
    if x == 0 { SegmentAt(ring, |ring| - 2); } else { SegmentAt(ring, x - 1); }
  }

  // A ring vertex has two neighbours and no more.
  lemma TwoNeighbours(ring: seq<Point>, a: Point, b: Point, c: Point, d: Point)
    requires SimpleRing(ring) && Adjacent(ring, b, a) && Adjacent(ring, b, c) && Adjacent(ring, b, d) && a != c
    ensures d == a || d == c
  {
    var i := AdjacentAt(ring, b, a);
    var j := if ring[i] == b then i else i + 1;
    var x := if j == |ring| - 1 then 0 else j;
    NeighbourIs(ring, x, a);
    NeighbourIs(ring, x, c);
    NeighbourIs(ring, x, d);
  }

  lemma AdjacentInRing(ring: seq<Point>, a: Point, b: Point)
    requires Adjacent(ring, a, b)
    ensures a in ring && b in ring
  {
    var i := AdjacentAt(ring, a, b);
  }

  lemma AdjacentFlip(ring: seq<Point>, a: Point, b: Point)
    requires Adjacent(ring, a, b)
    ensures Adjacent(ring, b, a)
  {
    NormalizedIsUndirected(a, b, a, b);
  }

  // The index of a vertex, the closing point apart.
  lemma IndexOfVertex(ring: seq<Point>, v: Point) returns (x: nat)
    requires SimpleRing(ring) && v in ring
    ensures x < |ring| - 1 && ring[x] == v
  {
    x :| 0 <= x < |ring| && ring[x] == v;
    if x == |ring| - 1 { x := 0; }
  }

  // ---- Coverages

  function RingsWithVertex(rings: seq<seq<Point>>, v: Point): (bs: seq<bool>)
    ensures |bs| == |rings| && forall k :: 0 <= k < |rings| ==> bs[k] == (v in rings[k])
  {
    seq(|rings|, k requires 0 <= k < |rings| => v in rings[k])
  }

  function RingsWithSegment(rings: seq<seq<Point>>, s: (Point, Point)): (bs: seq<bool>)
    ensures |bs| == |rings| && forall k :: 0 <= k < |rings| ==> bs[k] == (s in Segments(rings[k]))
  {
    seq(|rings|, k requires 0 <= k < |rings| => s in Segments(rings[k]))
  }

  // In how many rings a vertex, or a segment, occurs.
  function VertexRings(rings: seq<seq<Point>>, v: Point): nat {
    Count(RingsWithVertex(rings, v))
  }

  function SegmentRings(rings: seq<seq<Point>>, s: (Point, Point)): nat {
    Count(RingsWithSegment(rings, s))
  }

  // Simple rings, and no segment in more than two of them.
  ghost predicate ValidCoverage(rings: seq<seq<Point>>) {
    && (forall k :: 0 <= k < |rings| ==> SimpleRing(rings[k]))
    && (forall s :: SegmentRings(rings, s) <= 2)
  }

  lemma VertexRingsStep(rings: seq<seq<Point>>, k: nat, v: Point)
    requires k < |rings|
    ensures VertexRings(rings[..k + 1], v) == VertexRings(rings[..k], v) + if v in rings[k] then 1 else 0
  {
    assert RingsWithVertex(rings[..k + 1], v)[..k] == RingsWithVertex(rings[..k], v);
  }

  lemma SegmentRingsStep(rings: seq<seq<Point>>, k: nat, s: (Point, Point))
    requires k < |rings|
    ensures SegmentRings(rings[..k + 1], s) == SegmentRings(rings[..k], s) + if s in Segments(rings[k]) then 1 else 0
  {
    assert RingsWithSegment(rings[..k + 1], s)[..k] == RingsWithSegment(rings[..k], s);
  }

  // The only two rings at a vertex that no more than two rings pass.
  lemma OnlyTwoRings(rings: seq<seq<Point>>, v: Point, i: nat, j: nat, k: nat)
    requires i < |rings| && j < |rings| && k < |rings| && i != j
    requires v in rings[i] && v in rings[j] && v in rings[k] && VertexRings(rings, v) <= 2
    ensures k == i || k == j
  {
    var bs := RingsWithVertex(rings, v);
    if k != i && k != j {
      var lo, hi := if i < j then i else j, if i < j then j else i;
      if k < lo {
        CountThree(bs, k, lo, hi);
      } else if k < hi {
        CountThree(bs, lo, k, hi);
      } else {
        CountThree(bs, lo, hi, k);
      }
    }
  }

  // A segment of two rings is in exactly two, and one that is in one ring only is in no other.
  lemma SharedTwice(rings: seq<seq<Point>>, s: (Point, Point), i: nat, j: nat)
    requires ValidCoverage(rings) && i < |rings| && j < |rings| && i != j && s in Segments(rings[i])
    requires s in Segments(rings[j])
    ensures SegmentRings(rings, s) == 2
  {
    if i < j { CountTwo(RingsWithSegment(rings, s), i, j); } else { CountTwo(RingsWithSegment(rings, s), j, i); }
  }

  lemma AtLeastOnce(rings: seq<seq<Point>>, s: (Point, Point), i: nat)
    requires i < |rings| && s in Segments(rings[i])
    ensures SegmentRings(rings, s) >= 1
  {
    CountOne(RingsWithSegment(rings, s), i);
  }

  lemma OtherRing(rings: seq<seq<Point>>, s: (Point, Point), i: nat) returns (j: nat)
    requires i < |rings| && s in Segments(rings[i]) && SegmentRings(rings, s) >= 2
    ensures j < |rings| && j != i && s in Segments(rings[j])
  {
    j := CountOther(RingsWithSegment(rings, s), i);
  }
}
