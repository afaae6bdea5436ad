/**
 Coverage edges and their key segments: a key identifies an edge, whichever ring
 and direction it was found in.
 */
module CoverageKeys {
  import opened Planar
  import opened CoordinateLists
  import opened CoverageRings
  import opened CoverageNodes
  import opened CoverageSections

  // ---- Edges of a ring

  // A whole ring without nodes, or a path between nodes.
  predicate IsEdge(ring: seq<Point>, nodes: set<Point>, q: seq<Point>) {
    (NodeFree(ring, nodes) && q == ring) || NodePath(ring, nodes, q)
  }

  lemma SegmentsOfSteps(ring: seq<Point>, p: seq<Point>)
    requires Steps(ring, p)
    ensures Segments(p) <= Segments(ring)
  {
    forall s | s in Segments(p) ensures s in Segments(ring) {
      var t :| 0 <= t < |p| - 1 && SegmentOf(p, t) == s;
      assert StepAt(ring, p, t);
    }
  }

  lemma RingSteps(ring: seq<Point>)
    requires SimpleRing(ring)
    ensures Steps(ring, ring)
  {
    assert Section(ring, 0, 0) == ring;
    SectionSteps(ring, 0, 0);
  }

  // ---- Rings without nodes

  // Two rings meet no node where they share a segment.
  ghost predicate FreeTogether(rings: seq<seq<Point>>, boundary: set<(Point, Point)>, first: set<Point>, i: nat,
                               j: nat) {
    && Setting(rings, boundary, first) && i < |rings| && j < |rings|
    && (NodeFree(rings[i], FinalNodes(rings, boundary, first)) ||
        NodeFree(rings[j], FinalNodes(rings, boundary, first)))
  }

  lemma NextInBoth(rings: seq<seq<Point>>, boundary: set<(Point, Point)>, first: set<Point>, i: nat, j: nat, a: Point,
                   v: Point, c: Point)
    requires FreeTogether(rings, boundary, first, i, j)
    requires Adjacent(rings[i], v, a) && Adjacent(rings[i], v, c) && Adjacent(rings[j], v, a)
    ensures Adjacent(rings[j], v, c)
  {
    AdjacentInRing(rings[i], v, a);
    AdjacentInRing(rings[j], v, a);
    NextIsShared(rings, boundary, first, i, j, a, v, c);
  }

  lemma StepForward(rings: seq<seq<Point>>, boundary: set<(Point, Point)>, first: set<Point>, i: nat, j: nat, t: nat)
    requires FreeTogether(rings, boundary, first, i, j) && t + 2 < |rings[i]|
    requires Adjacent(rings[j], rings[i][t], rings[i][t + 1])
    ensures Adjacent(rings[j], rings[i][t + 1], rings[i][t + 2])
  {
    var r := rings[i];
    SegmentAt(r, t);
    SegmentAt(r, t + 1);
    AdjacentFlip(rings[j], r[t], r[t + 1]);
    NextInBoth(rings, boundary, first, i, j, r[t], r[t + 1], r[t + 2]);
  }

  lemma StepBackward(rings: seq<seq<Point>>, boundary: set<(Point, Point)>, first: set<Point>, i: nat, j: nat, t: nat)
    requires FreeTogether(rings, boundary, first, i, j) && 0 < t < |rings[i]| - 1
    requires Adjacent(rings[j], rings[i][t], rings[i][t + 1])
    ensures Adjacent(rings[j], rings[i][t - 1], rings[i][t])
  {
    hide Setting;
    hide NodeFree;
    hide Segments;
    var r := rings[i];
    var p := t - 1;
    SegmentAt(r, t);
    SegmentAt(r, p);
    NextInBoth(rings, boundary, first, i, j, r[t + 1], r[t], r[t - 1]);
    AdjacentFlip(rings[j], r[t], r[t - 1]);
  }

  lemma {:induction false} SpreadForward(rings: seq<seq<Point>>, boundary: set<(Point, Point)>, first: set<Point>,
                                         i: nat, j: nat, t: nat, u: nat)
    requires FreeTogether(rings, boundary, first, i, j) && t <= u < |rings[i]| - 1
    requires Adjacent(rings[j], rings[i][t], rings[i][t + 1])
    ensures Adjacent(rings[j], rings[i][u], rings[i][u + 1])
    decreases u - t
  {
    hide Setting;
    hide NodeFree;
    if t != u {
      StepForward(rings, boundary, first, i, j, t);
      SpreadForward(rings, boundary, first, i, j, t + 1, u);
    }
  }

  lemma {:induction false} SpreadBackward(rings: seq<seq<Point>>, boundary: set<(Point, Point)>, first: set<Point>,
                                          i: nat, j: nat, t: nat, u: nat)
    requires FreeTogether(rings, boundary, first, i, j) && u <= t < |rings[i]| - 1
    requires Adjacent(rings[j], rings[i][t], rings[i][t + 1])
    ensures Adjacent(rings[j], rings[i][u], rings[i][u + 1])
    decreases t - u
  {
    hide Setting;
    hide NodeFree;
    if t != u {
      StepBackward(rings, boundary, first, i, j, t);
      SpreadBackward(rings, boundary, first, i, j, t - 1, u);
    }
  }

  // If one of two rings that share a segment has no node, they share all segments.
  lemma FreeRingWithin(rings: seq<seq<Point>>, boundary: set<(Point, Point)>, first: set<Point>, i: nat, j: nat,
                       s: (Point, Point))
    requires FreeTogether(rings, boundary, first, i, j) && s in Segments(rings[i]) && s in Segments(rings[j])
    ensures Segments(rings[i]) <= Segments(rings[j])
  {
    var r := rings[i];
    var t :| 0 <= t < |r| - 1 && SegmentOf(r, t) == s;
    forall s' | s' in Segments(r) ensures s' in Segments(rings[j]) {
      var u :| 0 <= u < |r| - 1 && SegmentOf(r, u) == s';
      if t <= u {
        SpreadForward(rings, boundary, first, i, j, t, u);
      } else {
        SpreadBackward(rings, boundary, first, i, j, t, u);
      }
    }
  }

  lemma SameVertices(a: seq<Point>, b: seq<Point>, nodes: set<Point>)
    requires |b| >= 2 && Segments(b) <= Segments(a) && NodeFree(a, nodes)
    ensures NodeFree(b, nodes)
  {
    forall v | v in b ensures v !in nodes {
      var x :| 0 <= x < |b| && b[x] == v;
      var t := if x + 1 < |b| then x else x - 1;
      SegmentAt(b, t);
      AdjacentInRing(a, b[t], b[t + 1]);
    }
  }

  lemma FreeRingsShared(rings: seq<seq<Point>>, boundary: set<(Point, Point)>, first: set<Point>, i: nat, j: nat,
                        s: (Point, Point))
    requires FreeTogether(rings, boundary, first, i, j) && s in Segments(rings[i]) && s in Segments(rings[j])
    ensures Segments(rings[i]) == Segments(rings[j])
    ensures NodeFree(rings[i], FinalNodes(rings, boundary, first))
    ensures NodeFree(rings[j], FinalNodes(rings, boundary, first))
  {
    FreeRingWithin(rings, boundary, first, i, j, s);
    FreeRingWithin(rings, boundary, first, j, i, s);
    var nodes := FinalNodes(rings, boundary, first);
    if NodeFree(rings[i], nodes) {
      SameVertices(rings[i], rings[j], nodes);
    } else {
      SameVertices(rings[j], rings[i], nodes);
    }
  }

  // ---- Edges that share a segment

  // The same edge: the same path, perhaps reversed, or rings with the same segments.
  predicate SameEdge(p: seq<Point>, q: seq<Point>, free: bool) {
    if free then Segments(p) == Segments(q) else q == p || q == Reversed(p)
  }

  lemma NodePathNotFree(ring: seq<Point>, nodes: set<Point>, p: seq<Point>)
    requires NodePath(ring, nodes, p)
    ensures !NodeFree(ring, nodes)
  {
    assert StepAt(ring, p, 0);
    AdjacentInRing(ring, p[0], p[1]);
  }

  lemma EdgeWithin(ring: seq<Point>, nodes: set<Point>, q: seq<Point>)
    requires IsEdge(ring, nodes, q)
    ensures Segments(q) <= Segments(ring)
    ensures NodeFree(ring, nodes) ==> q == ring
    ensures !NodeFree(ring, nodes) ==> NodePath(ring, nodes, q)
  {
    if NodePath(ring, nodes, q) {
      SegmentsOfSteps(ring, q);
      NodePathNotFree(ring, nodes, q);
    }
  }

  /** Edges of two rings that share a segment are the same edge. */
  lemma EdgesAgree(rings: seq<seq<Point>>, boundary: set<(Point, Point)>, first: set<Point>, i: nat, j: nat,
                   p: seq<Point>, q: seq<Point>, s: (Point, Point))
    requires Setting(rings, boundary, first) && i < |rings| && j < |rings|
    requires IsEdge(rings[i], FinalNodes(rings, boundary, first), p)
    requires IsEdge(rings[j], FinalNodes(rings, boundary, first), q)
    requires s in Segments(p) && s in Segments(q)
    ensures NodeFree(rings[i], FinalNodes(rings, boundary, first)) <==>
      NodeFree(rings[j], FinalNodes(rings, boundary, first))
    ensures SameEdge(p, q, NodeFree(rings[i], FinalNodes(rings, boundary, first)))
  {
    var nodes := FinalNodes(rings, boundary, first);
    EdgeWithin(rings[i], nodes, p);
    EdgeWithin(rings[j], nodes, q);
    if NodeFree(rings[i], nodes) || NodeFree(rings[j], nodes) {
      FreeRingsShared(rings, boundary, first, i, j, s);
    } else {
      SharedPaths(rings, boundary, first, i, j, p, q, s);
    }
  }

  // ---- Keys

  // From the greatest vertex to the lesser of its neighbours.
  ghost predicate IsRingKey(segs: set<(Point, Point)>, k: (Point, Point)) {
    && Normalized(k.0, k.1) in segs
    && (forall u, w :: Normalized(u, w) in segs ==> CompareTo(u, k.0) <= 0)
    && (forall w :: Normalized(k.0, w) in segs ==> CompareTo(k.1, w) <= 0)
  }

  // From the lesser end along the path.
  function PathKey(q: seq<Point>): (Point, Point)
    requires |q| >= 2
  {
    if CompareTo(q[0], q[|q| - 1]) < 0 then (q[0], q[1]) else (q[|q| - 1], q[|q| - 2])
  }

  ghost predicate IsKey(q: seq<Point>, k: (Point, Point)) {
    && |q| >= 2
    && if q[0] == q[|q| - 1] then IsRingKey(Segments(q), k) else k == PathKey(q)
  }

  lemma KeyInside(q: seq<Point>, k: (Point, Point))
    requires IsKey(q, k)
    ensures Normalized(k.0, k.1) in Segments(q)
  {
    SegmentAt(q, 0);
    SegmentAt(q, |q| - 2);
  }

  lemma CompareAntisymmetric(p: Point, q: Point)
    requires CompareTo(p, q) <= 0 && CompareTo(q, p) <= 0
    ensures p == q
  {
  }

  lemma RingKeyUnique(segs: set<(Point, Point)>, k: (Point, Point), k': (Point, Point))
    requires IsRingKey(segs, k) && IsRingKey(segs, k')
    ensures k == k'
  {
    CompareAntisymmetric(k.0, k'.0);
    CompareAntisymmetric(k.1, k'.1);
  }

  lemma SegmentsReversed(p: seq<Point>)
    ensures Segments(Reversed(p)) == Segments(p)
  {
    var r := Reversed(p);
    forall t | 0 <= t < |p| - 1 ensures SegmentOf(r, t) == SegmentOf(p, |p| - 2 - t) {
      NormalizedIsUndirected(r[t], r[t + 1], p[|p| - 2 - t], p[|p| - 1 - t]);
    }
    forall s | s in Segments(p) ensures s in Segments(r) {
      var t :| 0 <= t < |p| - 1 && SegmentOf(p, t) == s;
      assert SegmentOf(r, |p| - 2 - t) == s;
    }
  }

  lemma KeyReversed(p: seq<Point>, k: (Point, Point))
    requires IsKey(p, k)
    ensures IsKey(Reversed(p), k)
  {
    SegmentsReversed(p);
  }

  lemma SameEdgeSameKey(p: seq<Point>, q: seq<Point>, free: bool, k: (Point, Point), k': (Point, Point))
    requires SameEdge(p, q, free) && IsKey(p, k) && IsKey(q, k')
    requires free ==> p[0] == p[|p| - 1] && q[0] == q[|q| - 1]
    ensures k == k'
  {
    if free || p[0] == p[|p| - 1] {
      if !free { SegmentsReversed(p); }
      RingKeyUnique(Segments(p), k, k');
    } else {
      KeyReversed(p, k);
    }
  }

  /** Two edges have the same key exactly when they share a segment, and then they are the same edge. */
  lemma KeyIdentifies(rings: seq<seq<Point>>, boundary: set<(Point, Point)>, first: set<Point>, i: nat, j: nat,
                      p: seq<Point>, q: seq<Point>, k: (Point, Point), k': (Point, Point))
    requires Setting(rings, boundary, first) && i < |rings| && j < |rings|
    requires IsEdge(rings[i], FinalNodes(rings, boundary, first), p)
    requires IsEdge(rings[j], FinalNodes(rings, boundary, first), q)
    requires IsKey(p, k) && IsKey(q, k')
    ensures k == k' <==> Segments(p) * Segments(q) != {}
    ensures k == k' ==> SameEdge(p, q, NodeFree(rings[i], FinalNodes(rings, boundary, first)))
  {
    hide *;
    KeyInside(p, k);
    KeyInside(q, k');
    if k == k' {
      assert Normalized(k.0, k.1) in Segments(p) * Segments(q);
      EdgesAgree(rings, boundary, first, i, j, p, q, Normalized(k.0, k.1));
    }
    if Segments(p) * Segments(q) != {} {
      var s :| s in Segments(p) * Segments(q);
      EdgesAgree(rings, boundary, first, i, j, p, q, s);
      var nodes := FinalNodes(rings, boundary, first);
      EdgeWithin(rings[i], nodes, p);
      EdgeWithin(rings[j], nodes, q);
      RingsClosed(rings, boundary, first);
      SameEdgeSameKey(p, q, NodeFree(rings[i], nodes), k, k');
    }
  }

  lemma RingsClosed(rings: seq<seq<Point>>, boundary: set<(Point, Point)>, first: set<Point>)
    requires Setting(rings, boundary, first)
    ensures forall k :: 0 <= k < |rings| ==> |rings[k]| >= 2 && rings[k][0] == rings[k][|rings[k]| - 1]
  {
  }
}
