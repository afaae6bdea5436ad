/**
 Ring sections between nodes, why two rings that share a segment have the same section
 there, and the key segment that identifies it.
 */
module CoverageSections {
  import opened Planar
  import opened CoordinateLists
  import opened CoverageRings
  import opened CoverageNodes

  // ---- Finding the sections of a ring

  // e is the first node met after s.
  predicate NextNode(ring: seq<Point>, nodes: set<Point>, s: nat, e: nat) {
    && s < |ring| - 1 && e < |ring| - 1 && ring[e] in nodes
    && (if s < e then forall i :: s < i < e ==> ring[i] !in nodes
        else (forall i :: s < i < |ring| - 1 ==> ring[i] !in nodes) && (forall i :: 0 <= i < e ==> ring[i] !in nodes))
  }

  predicate NodeFree(ring: seq<Point>, nodes: set<Point>) {
    forall v :: v in ring ==> v !in nodes
  }

  function Next(ring: seq<Point>, index: int): int
    requires |ring| >= 2
  {
    if index == NO_COORD then 0
    else if index + 1 >= |ring| - 1 then 0
    else index + 1
  }

  // None of the first t vertices after start, or of the first t in all, is a node.
  predicate NoneFound(ring: seq<Point>, nodes: set<Point>, start: int, t: nat) {
    if start == NO_COORD then forall i :: 0 <= i < t && i < |ring| ==> ring[i] !in nodes
    else
      && (forall i :: start < i <= start + t && 0 <= i < |ring| - 1 ==> ring[i] !in nodes)
      && (forall i :: 0 <= i <= start + t - (|ring| - 1) && i < |ring| ==> ring[i] !in nodes)
  }

  // The index reached after t steps from start.
  function Reached(ring: seq<Point>, start: int, t: nat): int {
    if t == 0 then start
    else if start == NO_COORD then t - 1
    else if start + t < |ring| - 1 then start + t
    else start + t - (|ring| - 1)
  }

  /** The first node after start, or in the whole ring; NO_COORD when there is none. */
  method FindNextNodeIndex(ring: seq<Point>, start: int, nodes: set<Point>) returns (index: int)
    requires SimpleRing(ring) && (start == NO_COORD || 0 <= start < |ring| - 1)
    ensures index == NO_COORD <==> NodeFree(ring, nodes)
    ensures index != NO_COORD ==> 0 <= index < |ring| - 1 && ring[index] in nodes
    ensures index != NO_COORD && start == NO_COORD ==> forall i :: 0 <= i < index ==> ring[i] !in nodes
    ensures index != NO_COORD && start != NO_COORD ==> NextNode(ring, nodes, start, index)
  {
    index := start;
    var isScanned0 := false;
    ghost var t := 0;
    while true
      invariant 0 <= t < |ring| && (start != NO_COORD ==> t < |ring| - 1)
      invariant index == Reached(ring, start, t) && NoneFound(ring, nodes, start, t)
      invariant start == NO_COORD ==> isScanned0 == (t > 0)
      decreases |ring| - t
    {
      index := Next(ring, index);
      if index == 0 {
        if start == NO_COORD && isScanned0 {
          return NO_COORD;
        }
        isScanned0 := true;
      }
      t := t + 1;
      if ring[index] in nodes {
        return index;
      }
      if index == start {
        break;
      }
    }
    return NO_COORD;
  }

  lemma SectionPoint(ring: seq<Point>, s: nat, e: nat, i: nat)
    requires s < |ring| && e < |ring| && i < |Section(ring, s, e)|
    ensures var place := if s + i < |ring| then s + i else s + i - |ring| + 1;
      place < |ring| && Section(ring, s, e)[i] == ring[place]
  {
  }

  method ExtractEdgePoints(ring: seq<Point>, start: nat, end: nat) returns (pts: seq<Point>)
    requires |ring| >= 2 && start < |ring| && end < |ring|
    ensures pts == Section(ring, start, end)
  {
    hide Section;
    ghost var section := Section(ring, start, end);
    var size := if start < end then end - start + 1 else |ring| - start + end;
    pts := [];
    var iring := start;
    for i := 0 to size
      invariant pts == section[..i]
      invariant i < size ==> iring == if start + i < |ring| then start + i else start + i - |ring| + 1
    {
      SectionPoint(ring, start, end, i);
      pts := pts + [ring[iring]];
      iring := iring + 1;
      if iring >= |ring| {
        iring := 1;
      }
    }
  }

  // ---- Paths in rings

  // From p[t] along a segment of the ring, and not straight back.
  predicate StepAt(ring: seq<Point>, p: seq<Point>, t: nat)
    requires t + 1 < |p|
  {
    Adjacent(ring, p[t], p[t + 1]) && (t + 2 < |p| ==> p[t] != p[t + 2])
  }

  predicate Steps(ring: seq<Point>, p: seq<Point>) {
    |p| >= 2 && forall t {:trigger StepAt(ring, p, t)} :: 0 <= t < |p| - 1 ==> StepAt(ring, p, t)
  }

  // A path between nodes without a node inside.
  predicate NodePath(ring: seq<Point>, nodes: set<Point>, p: seq<Point>) {
    && Steps(ring, p) && p[0] in nodes && p[|p| - 1] in nodes
    && forall t :: 0 < t < |p| - 1 ==> p[t] !in nodes
  }

  // Where the points of a section are in the ring.
  function PlaceOf(ring: seq<Point>, s: nat, t: nat): nat
    requires |ring| >= 2 && s < |ring| - 1 && t < |ring|
  {
    if s + t < |ring| - 1 then s + t else s + t - (|ring| - 1)
  }

  lemma SectionAt(ring: seq<Point>, s: nat, e: nat, t: nat)
    requires SimpleRing(ring) && s < |ring| - 1 && e < |ring| - 1 && t < |Section(ring, s, e)|
    ensures PlaceOf(ring, s, t) < |ring| - 1 && Section(ring, s, e)[t] == ring[PlaceOf(ring, s, t)]
  {
  }

  lemma SectionSteps(ring: seq<Point>, s: nat, e: nat)
    requires SimpleRing(ring) && s < |ring| - 1 && e < |ring| - 1
    ensures Steps(ring, Section(ring, s, e))
  {
    var p := Section(ring, s, e);
    forall t | 0 <= t < |p| - 1 ensures StepAt(ring, p, t) {
      SectionAt(ring, s, e, t);
      SectionAt(ring, s, e, t + 1);
      BothNeighbours(ring, PlaceOf(ring, s, t));
      if t + 2 < |p| { SectionAt(ring, s, e, t + 2); }
    }
  }

  /** A section from one node to the next is a path between nodes. */
  lemma SectionIsNodePath(ring: seq<Point>, nodes: set<Point>, s: nat, e: nat)
    requires SimpleRing(ring) && NextNode(ring, nodes, s, e) && ring[s] in nodes
    ensures NodePath(ring, nodes, Section(ring, s, e))
  {
    var p := Section(ring, s, e);
    SectionSteps(ring, s, e);
    SectionAt(ring, s, e, 0);
    SectionAt(ring, s, e, |p| - 1);
    forall t | 0 < t < |p| - 1 ensures p[t] !in nodes {
      SectionAt(ring, s, e, t);
    }
  }

  lemma ReversedStep(ring: seq<Point>, p: seq<Point>, t: nat)
    requires Steps(ring, p) && t + 1 < |p|
    ensures StepAt(ring, Reversed(p), t)
  {
    var u := |p| - 2 - t;
    assert StepAt(ring, p, u);
    AdjacentFlip(ring, p[u], p[u + 1]);
    if t + 2 < |p| { assert StepAt(ring, p, u - 1); }
  }

  lemma ReversedPath(ring: seq<Point>, nodes: set<Point>, p: seq<Point>)
    requires NodePath(ring, nodes, p)
    ensures NodePath(ring, nodes, Reversed(p))
  {
    forall t | 0 <= t < |p| - 1 ensures StepAt(ring, Reversed(p), t) {
      ReversedStep(ring, p, t);
    }
  }

  // ---- Shared sections

  // Where two paths run together, they go on together.
  lemma SameNext(rings: seq<seq<Point>>, boundary: set<(Point, Point)>, first: set<Point>, i: nat, j: nat,
                 p: seq<Point>, q: seq<Point>, x: nat, y: nat)
    requires Setting(rings, boundary, first) && i < |rings| && j < |rings| && x + 2 < |p| && y + 2 < |q|
    requires Steps(rings[i], p) && Steps(rings[j], q) && p[x] == q[y] && p[x + 1] == q[y + 1]
    requires p[x + 1] !in FinalNodes(rings, boundary, first)
    ensures p[x + 2] == q[y + 2]
  {
    var a, v, c := p[x], p[x + 1], p[x + 2];
    assert StepAt(rings[i], p, x) && StepAt(rings[i], p, x + 1);
    assert StepAt(rings[j], q, y) && StepAt(rings[j], q, y + 1);
    AdjacentFlip(rings[i], a, v);
    AdjacentFlip(rings[j], a, v);
    NextIsShared(rings, boundary, first, i, j, a, v, c);
    TwoNeighbours(rings[j], a, v, q[y + 2], c);
  }

  // A path comes to a node at its end and not before.
  lemma NodeOnPath(ring: seq<Point>, nodes: set<Point>, p: seq<Point>, t: nat)
    requires NodePath(ring, nodes, p) && 0 < t < |p|
    ensures Steps(ring, p) && (p[t] in nodes <==> t == |p| - 1)
  {
  }

  lemma {:induction false} SameRest(rings: seq<seq<Point>>, boundary: set<(Point, Point)>, first: set<Point>, i: nat,
                                    j: nat, p: seq<Point>, q: seq<Point>, x: nat, y: nat)
    requires Setting(rings, boundary, first) && i < |rings| && j < |rings| && x + 1 < |p| && y + 1 < |q|
    requires NodePath(rings[i], FinalNodes(rings, boundary, first), p)
    requires NodePath(rings[j], FinalNodes(rings, boundary, first), q)
    requires p[x] == q[y] && p[x + 1] == q[y + 1]
    ensures p[x..] == q[y..]
    decreases |p| - x
  {
    hide *;
    NodeOnPath(rings[i], FinalNodes(rings, boundary, first), p, x + 1);
    NodeOnPath(rings[j], FinalNodes(rings, boundary, first), q, y + 1);
    assert p[x..] == [p[x]] + p[x + 1..] && q[y..] == [q[y]] + q[y + 1..];
    if x + 2 < |p| {
      SameNext(rings, boundary, first, i, j, p, q, x, y);
      SameRest(rings, boundary, first, i, j, p, q, x + 1, y + 1);
    } else {
      assert p[x + 1..] == [p[x + 1]] && q[y + 1..] == [q[y + 1]];
    }
  }

  // Paths between nodes that take one segment the same way are the same.
  lemma SamePath(rings: seq<seq<Point>>, boundary: set<(Point, Point)>, first: set<Point>, i: nat, j: nat,
                 p: seq<Point>, q: seq<Point>, x: nat, y: nat)
    requires Setting(rings, boundary, first) && i < |rings| && j < |rings| && x + 1 < |p| && y + 1 < |q|
    requires NodePath(rings[i], FinalNodes(rings, boundary, first), p)
    requires NodePath(rings[j], FinalNodes(rings, boundary, first), q)
    requires p[x] == q[y] && p[x + 1] == q[y + 1]
    ensures p == q
  {
    hide *;
    ReversedPath(rings[i], FinalNodes(rings, boundary, first), p);
    ReversedPath(rings[j], FinalNodes(rings, boundary, first), q);
    SameRest(rings, boundary, first, i, j, p, q, x, y);
    SameRest(rings, boundary, first, i, j, Reversed(p), Reversed(q), |p| - 2 - x, |q| - 2 - y);
    SameHeads(p, q, x, y);
  }

  lemma SameHeads(p: seq<Point>, q: seq<Point>, x: nat, y: nat)
    requires x + 1 < |p| && y + 1 < |q| && p[x..] == q[y..]
    requires Reversed(p)[|p| - 2 - x..] == Reversed(q)[|q| - 2 - y..]
    ensures p == q
  {
    hide *;
    TailOfReversed(p, x + 2);
    TailOfReversed(q, y + 2);
    ReversedTwice(p[..x + 2]);
    ReversedTwice(q[..y + 2]);
    assert p[..x + 2] == q[..y + 2];
    Overlap(p, q, x, y);
  }

  lemma Overlap(p: seq<Point>, q: seq<Point>, x: nat, y: nat)
    requires x + 2 <= |p| && y + 2 <= |q| && p[x..] == q[y..] && p[..x + 2] == q[..y + 2]
    ensures p == q
  {
    assert |p[..x + 2]| == |q[..y + 2]|;
    assert p == p[..x + 2] + p[x..][2..] && q == q[..y + 2] + q[y..][2..];
  }

  lemma TailOfReversed(p: seq<Point>, n: nat)
    requires n <= |p|
    ensures Reversed(p)[|p| - n..] == Reversed(p[..n])
  {
  }

  /** Paths between nodes that share a segment are the same, perhaps reversed. */
  lemma SharedPaths(rings: seq<seq<Point>>, boundary: set<(Point, Point)>, first: set<Point>, i: nat, j: nat,
                    p: seq<Point>, q: seq<Point>, s: (Point, Point))
    requires Setting(rings, boundary, first) && i < |rings| && j < |rings|
    requires NodePath(rings[i], FinalNodes(rings, boundary, first), p)
    requires NodePath(rings[j], FinalNodes(rings, boundary, first), q)
    requires s in Segments(p) && s in Segments(q)
    ensures q == p || q == Reversed(p)
  {
    var x :| 0 <= x < |p| - 1 && SegmentOf(p, x) == s;
    var y :| 0 <= y < |q| - 1 && SegmentOf(q, y) == s;
    NormalizedIsUndirected(p[x], p[x + 1], q[y], q[y + 1]);
    if p[x] == q[y] && p[x + 1] == q[y + 1] {
      SamePath(rings, boundary, first, i, j, p, q, x, y);
    } else {
      ReversedPath(rings[i], FinalNodes(rings, boundary, first), p);
      SamePath(rings, boundary, first, i, j, Reversed(p), q, |p| - 2 - x, y);
    }
  }
}
