/**
 The nodes of a coverage: vertices of more than two rings, vertices where more than two
 boundary segments meet, and vertices where a ring turns from boundary to inner segments.
 */
module CoverageNodes {
  import opened Planar
  import opened CoordinateLists
  import opened CoverageRings

  function Tally(counts: map<Point, nat>, v: Point): nat {
    if v in counts then counts[v] else 0
  }

  function One(b: bool): nat {
    if b then 1 else 0
  }

  // ---- Walking along a ring

  // How often a walk along the points comes to v.
  function Visits(ring: seq<Point>, v: Point): nat {
    if |ring| <= 1 then 0
    else Visits(ring[..|ring| - 1], v) + One(ring[|ring| - 1] == v)
  }

  // How often it goes along the segment s.
  function Passes(ring: seq<Point>, s: (Point, Point)): nat {
    if |ring| <= 1 then 0
    else Passes(ring[..|ring| - 1], s) + One(SegmentOf(ring, |ring| - 2) == s)
  }

  lemma VisitsStep(ring: seq<Point>, i: nat, v: Point)
    requires 0 < i < |ring|
    ensures Visits(ring[..i + 1], v) == Visits(ring[..i], v) + One(ring[i] == v)
  {
    assert ring[..i + 1][..i] == ring[..i];
  }

  lemma PassesStep(ring: seq<Point>, i: nat, s: (Point, Point))
    requires i + 1 < |ring|
    ensures Passes(ring[..i + 2], s) == Passes(ring[..i + 1], s) + One(SegmentOf(ring, i) == s)
  {
    assert ring[..i + 2][..i + 1] == ring[..i + 1];
  }

  // The start is counted only where the points do not close to a ring.
  function VertexUses(ring: seq<Point>, v: Point): nat {
    Visits(ring, v) + One(!IsRing(ring) && ring != [] && ring[0] == v)
  }

  // How often v is a vertex, and how often s a segment, over all rings.
  function TotalUses(rings: seq<seq<Point>>, v: Point): nat {
    if rings == [] then 0 else TotalUses(rings[..|rings| - 1], v) + VertexUses(rings[|rings| - 1], v)
  }

  function TotalPasses(rings: seq<seq<Point>>, s: (Point, Point)): nat {
    if rings == [] then 0 else TotalPasses(rings[..|rings| - 1], s) + Passes(rings[|rings| - 1], s)
  }

  lemma TotalUsesStep(rings: seq<seq<Point>>, k: nat, v: Point)
    requires k < |rings|
    ensures TotalUses(rings[..k + 1], v) == TotalUses(rings[..k], v) + VertexUses(rings[k], v)
  {
    assert rings[..k + 1][..k] == rings[..k];
  }

  lemma TotalPassesStep(rings: seq<seq<Point>>, k: nat, s: (Point, Point))
    requires k < |rings|
    ensures TotalPasses(rings[..k + 1], s) == TotalPasses(rings[..k], s) + Passes(rings[k], s)
  {
    assert rings[..k + 1][..k] == rings[..k];
  }

  // ---- Vertex ring counter

  // Count the vertices of one ring; the repeated end point counts once.
  method CountRing(ring: seq<Point>, before: map<Point, nat>) returns (counts: map<Point, nat>)
    ensures forall v :: Tally(counts, v) == Tally(before, v) + VertexUses(ring, v)
  {
    counts := before;
    for i := 0 to |ring|
      invariant i == 0 ==> counts == before
      invariant i > 0 ==> forall v ::
        Tally(counts, v) == Tally(before, v) + Visits(ring[..i], v) + One(!IsRing(ring) && ring[0] == v)
    {
      if IsRing(ring) && i == 0 {
        continue;
      }
      var v := ring[i];
      if i > 0 {
        forall u { VisitsStep(ring, i, u); }
      }
      counts := counts[v := Tally(counts, v) + 1];
    }
    assert ring[..|ring|] == ring;
  }

  /** How often each point is a vertex of the rings. */
  method CountVertices(rings: seq<seq<Point>>) returns (counts: map<Point, nat>)
    ensures forall v :: Tally(counts, v) == TotalUses(rings, v)
  {
    counts := map[];
    for k := 0 to |rings|
      invariant forall v :: Tally(counts, v) == TotalUses(rings[..k], v)
    {
      forall v { TotalUsesStep(rings, k, v); }
      counts := CountRing(rings[k], counts);
    }
    assert rings[..|rings|] == rings;
  }

  /** The points that are vertices more than twice. */
  method FindMultiRingNodes(rings: seq<seq<Point>>) returns (nodes: set<Point>)
    ensures forall v :: v in nodes <==> TotalUses(rings, v) > 2
  {
    var counts := CountVertices(rings);
    nodes := {};
    var rest := counts.Keys;
    while rest != {}
      invariant rest <= counts.Keys
      invariant forall v :: v in nodes <==> v in counts && v !in rest && counts[v] > 2
      decreases rest
    {
      var v :| v in rest;
      if counts[v] > 2 {
        nodes := nodes + {v};
      }
      rest := rest - {v};
    }
    assert forall v :: Tally(counts, v) == TotalUses(rings, v);
  }

  // ---- Boundary segments

  function Toggled(segs: set<(Point, Point)>, s: (Point, Point)): set<(Point, Point)> {
    if s in segs then segs - {s} else segs + {s}
  }

  lemma FirstSegments(ring: seq<Point>, i: nat)
    requires SimpleRing(ring) && i + 1 < |ring|
    ensures Segments(ring[..i + 2]) == Segments(ring[..i + 1]) + {SegmentOf(ring, i)}
    ensures SegmentOf(ring, i) !in Segments(ring[..i + 1])
  {
    var p, q := ring[..i + 1], ring[..i + 2];
    assert forall j :: 0 <= j < i ==> SegmentOf(p, j) == SegmentOf(ring, j) && SegmentOf(q, j) == SegmentOf(ring, j);
    assert SegmentOf(q, i) == SegmentOf(ring, i);
    forall s | s in Segments(q) ensures s in Segments(p) + {SegmentOf(ring, i)} {
      var j :| 0 <= j < |q| - 1 && SegmentOf(q, j) == s;
      if j < i { assert SegmentOf(p, j) in Segments(p); }
    }
    forall s | s in Segments(p) ensures s in Segments(q) {
      var j :| 0 <= j < |p| - 1 && SegmentOf(p, j) == s;
      assert SegmentOf(q, j) in Segments(q);
    }
    assert SegmentOf(q, i) in Segments(q);
    forall j | 0 <= j < i ensures SegmentOf(p, j) != SegmentOf(ring, i) {
      NormalizedIsUndirected(ring[j], ring[j + 1], ring[i], ring[i + 1]);
    }
  }

  // The segments that a walk passes an odd number of times have changed sides.
  ghost predicate IsToggled(before: set<(Point, Point)>, segs: set<(Point, Point)>, walk: seq<Point>) {
    forall s :: s in segs <==> ((s in before) != (Passes(walk, s) % 2 == 1))
  }

  lemma ToggleStep(before: set<(Point, Point)>, segs: set<(Point, Point)>, ring: seq<Point>, i: nat)
    requires i + 1 < |ring| && IsToggled(before, segs, ring[..i + 1])
    ensures IsToggled(before, Toggled(segs, SegmentOf(ring, i)), ring[..i + 2])
  {
    forall s
      ensures s in Toggled(segs, SegmentOf(ring, i)) <==> ((s in before) != (Passes(ring[..i + 2], s) % 2 == 1))
    {
      PassesStep(ring, i, s);
      hide Passes;
    }
  }

  // Toggle the segments of one ring.
  method ToggleRing(ring: seq<Point>, before: set<(Point, Point)>) returns (segs: set<(Point, Point)>)
    ensures IsToggled(before, segs, ring)
  {
    segs := before;
    hide *;
    StartToggling(before, ring);
    for i := 0 to |ring|
      invariant IsToggled(before, segs, ring[..if i + 1 < |ring| then i + 1 else |ring|])
    {
      if i >= |ring| - 1 {
        continue;
      }
      ToggleStep(before, segs, ring, i);
      segs := Toggled(segs, SegmentOf(ring, i));
    }
    assert ring[..|ring|] == ring;
  }

  lemma StartToggling(before: set<(Point, Point)>, ring: seq<Point>)
    ensures IsToggled(before, before, ring[..if 1 < |ring| then 1 else |ring|])
  {
  }

  ghost predicate IsBoundarySet(rings: seq<seq<Point>>, boundary: set<(Point, Point)>) {
    forall s :: s in boundary <==> SegmentRings(rings, s) % 2 == 1
  }

  // The segments passed an odd number of times.
  ghost predicate IsOddSet(rings: seq<seq<Point>>, segs: set<(Point, Point)>) {
    forall s :: s in segs <==> TotalPasses(rings, s) % 2 == 1
  }

  lemma NoneOdd()
    ensures IsOddSet([], {})
  {
  }

  lemma OddStep(rings: seq<seq<Point>>, k: nat, before: set<(Point, Point)>, segs: set<(Point, Point)>)
    requires k < |rings| && IsOddSet(rings[..k], before)
    requires IsToggled(before, segs, rings[k])
    ensures IsOddSet(rings[..k + 1], segs)
  {
    forall s ensures s in segs <==> TotalPasses(rings[..k + 1], s) % 2 == 1 {
      TotalPassesStep(rings, k, s);
      hide TotalPasses;
      hide Passes;
      assert s in before <==> TotalPasses(rings[..k], s) % 2 == 1;
    }
  }

  /** The segments that the rings pass an odd number of times. */
  method FindBoundarySegments(rings: seq<seq<Point>>) returns (segs: set<(Point, Point)>)
    ensures IsOddSet(rings, segs)
  {
    hide *;
    segs := {};
    NoneOdd();
    assert rings[..0] == [];
    for k := 0 to |rings|
      invariant IsOddSet(rings[..k], segs)
    {
      ghost var before := segs;
      segs := ToggleRing(rings[k], segs);
      OddStep(rings, k, before, segs);
    }
    assert rings[..|rings|] == rings;
  }

  // ---- Boundary nodes

  function Touching(segs: set<(Point, Point)>, v: Point): set<(Point, Point)> {
    set s | s in segs && (s.0 == v || s.1 == v)
  }

  // How many ends of the segments are at v.
  function Ends(segs: set<(Point, Point)>, v: Point): nat {
    |Touching(segs, v)| + One((v, v) in segs)
  }

  lemma EndsMore(segs: set<(Point, Point)>, s: (Point, Point), v: Point)
    requires s !in segs
    ensures Ends(segs + {s}, v) == Ends(segs, v) + One(s.0 == v) + One(s.1 == v)
  {
    if s.0 == v || s.1 == v {
      assert Touching(segs + {s}, v) == Touching(segs, v) + {s};
    } else {
      assert Touching(segs + {s}, v) == Touching(segs, v);
    }
  }

  /** The vertices where more than two boundary segments end. */
  method FindBoundaryNodes(segs: set<(Point, Point)>) returns (nodes: set<Point>)
    ensures forall v :: v in nodes <==> Ends(segs, v) > 2
  {
    var counter: map<Point, nat> := map[];
    var rest := segs;
    while rest != {}
      invariant rest <= segs
      invariant forall v :: Tally(counter, v) == Ends(segs - rest, v)
      decreases rest
    {
      var s :| s in rest;
      forall v { EndsMore(segs - rest, s, v); }
      assert segs - (rest - {s}) == segs - rest + {s};
      counter := counter[s.0 := Tally(counter, s.0) + 1];
      counter := counter[s.1 := Tally(counter, s.1) + 1];
      rest := rest - {s};
    }
    assert segs - rest == segs;
    nodes := {};
    var vertices := counter.Keys;
    while vertices != {}
      invariant vertices <= counter.Keys
      invariant forall v :: v in nodes <==> v in counter && v !in vertices && counter[v] > 2
      decreases vertices
    {
      var v :| v in vertices;
      if counter[v] > 2 {
        nodes := nodes + {v};
      }
      vertices := vertices - {v};
    }
    assert forall v :: Tally(counter, v) == Ends(segs, v);
  }

  // ---- Boundary-inner nodes

  // The ring turns between boundary and inner segments at index i.
  predicate TurnsAt(ring: seq<Point>, boundary: set<(Point, Point)>, i: nat)
    requires |ring| >= 2 && i < |ring| - 1
  {
    (SegmentOf(ring, i) in boundary) != (SegmentOf(ring, PrevIndex(ring, i)) in boundary)
  }

  function Transitions(ring: seq<Point>, boundary: set<(Point, Point)>): set<Point>
    requires |ring| >= 2
  {
    TransitionsBefore(ring, boundary, |ring| - 1)
  }

  function TransitionsBefore(ring: seq<Point>, boundary: set<(Point, Point)>, n: nat): set<Point>
    requires |ring| >= 2 && n < |ring|
  {
    set i {:trigger TurnsAt(ring, boundary, i)} | 0 <= i < n && TurnsAt(ring, boundary, i) :: ring[i]
  }

  lemma NoTransitions(ring: seq<Point>, boundary: set<(Point, Point)>)
    requires |ring| >= 2
    ensures TransitionsBefore(ring, boundary, 0) == {}
  {
  }

  lemma TransitionsNext(ring: seq<Point>, boundary: set<(Point, Point)>, n: nat)
    requires |ring| >= 2 && n + 1 < |ring|
    ensures TransitionsBefore(ring, boundary, n + 1) ==
      TransitionsBefore(ring, boundary, n) + if TurnsAt(ring, boundary, n) then {ring[n]} else {}
  {
    hide TurnsAt;
  }

  method AddBoundaryInnerNodes(ring: seq<Point>, boundary: set<(Point, Point)>, before: set<Point>)
    returns (nodes: set<Point>)
    requires |ring| >= 2
    ensures nodes == before + Transitions(ring, boundary)
  {
    hide TransitionsBefore;
    NoTransitions(ring, boundary);
    nodes := before;
    var isBdyPrev := SegmentOf(ring, |ring| - 2) in boundary;
    for i := 0 to |ring| - 1
      invariant isBdyPrev == (SegmentOf(ring, PrevIndex(ring, i)) in boundary)
      invariant nodes == before + TransitionsBefore(ring, boundary, i)
    {
      TransitionsNext(ring, boundary, i);
      var isBdy := SegmentOf(ring, i) in boundary;
      if isBdy != isBdyPrev {
        nodes := nodes + {ring[i]};
      }
      isBdyPrev := isBdy;
    }
  }

  // A vertex where the ring turns has an inner and a boundary segment.
  lemma TransitionSegments(ring: seq<Point>, boundary: set<(Point, Point)>, v: Point) returns (u: Point, w: Point)
    requires SimpleRing(ring) && v in Transitions(ring, boundary)
    ensures Adjacent(ring, v, u) && Adjacent(ring, v, w)
    ensures Normalized(v, u) in boundary && Normalized(v, w) !in boundary
  {
    var i :| 0 <= i < |ring| - 1 && TurnsAt(ring, boundary, i) && ring[i] == v;
    u, w := ring[NextIndex(ring, i)], ring[PrevIndex(ring, i)];
    BothNeighbours(ring, i);
    SegmentsBeside(ring, i);
    if Normalized(v, u) !in boundary {
      u, w := w, u;
    }
  }

  lemma SegmentsBeside(ring: seq<Point>, i: nat)
    requires SimpleRing(ring) && i < |ring| - 1
    ensures SegmentOf(ring, i) == Normalized(ring[i], ring[NextIndex(ring, i)])
    ensures SegmentOf(ring, PrevIndex(ring, i)) == Normalized(ring[i], ring[PrevIndex(ring, i)])
  {
    var p := PrevIndex(ring, i);
    NormalizedIsUndirected(ring[p], ring[i], ring[p], ring[i]);
  }

  lemma TransitionHere(ring: seq<Point>, boundary: set<(Point, Point)>, v: Point, u: Point, w: Point)
    requires SimpleRing(ring) && Adjacent(ring, v, u) && Adjacent(ring, v, w)
    requires Normalized(v, u) in boundary && Normalized(v, w) !in boundary
    ensures v in Transitions(ring, boundary)
  {
    AdjacentInRing(ring, v, u);
    var x := IndexOfVertex(ring, v);
    NeighbourIs(ring, x, u);
    NeighbourIs(ring, x, w);
    SegmentsBeside(ring, x);
    assert TurnsAt(ring, boundary, x);
  }

  // ---- What the node set guarantees

  function AllTransitions(rings: seq<seq<Point>>, boundary: set<(Point, Point)>): set<Point>
    requires forall k :: 0 <= k < |rings| ==> |rings[k]| >= 2
  {
    if rings == [] then {}
    else AllTransitions(rings[..|rings| - 1], boundary) + Transitions(rings[|rings| - 1], boundary)
  }

  // The nodes known before any ring is split.
  ghost predicate Setting(rings: seq<seq<Point>>, boundary: set<(Point, Point)>, first: set<Point>) {
    && ValidCoverage(rings) && IsBoundarySet(rings, boundary)
    && (forall v :: VertexRings(rings, v) > 2 ==> v in first)
    && (forall v :: |Touching(boundary, v)| > 2 ==> v in first)
  }

  // The nodes known when the rings have all been split.
  ghost function FinalNodes(rings: seq<seq<Point>>, boundary: set<(Point, Point)>, first: set<Point>): set<Point>
    requires Setting(rings, boundary, first)
  {
    first + AllTransitions(rings, boundary)
  }

  lemma {:induction false} TransitionsWithin(rings: seq<seq<Point>>, boundary: set<(Point, Point)>, j: nat)
    requires forall k :: 0 <= k < |rings| ==> |rings[k]| >= 2
    requires j < |rings|
    ensures Transitions(rings[j], boundary) <= AllTransitions(rings, boundary)
  {
    if j < |rings| - 1 {
      TransitionsWithin(rings[..|rings| - 1], boundary, j);
    }
  }

  lemma {:induction false} TransitionRing(rings: seq<seq<Point>>, boundary: set<(Point, Point)>, v: Point)
    returns (j: nat)
    requires forall k :: 0 <= k < |rings| ==> |rings[k]| >= 2
    requires v in AllTransitions(rings, boundary)
    ensures j < |rings| && v in Transitions(rings[j], boundary)
  {
    j := |rings| - 1;
    if v !in Transitions(rings[j], boundary) {
      j := TransitionRing(rings[..j], boundary, v);
    }
  }

  // An inner segment at a vertex of two rings belongs to both of them.
  lemma InnerIsShared(rings: seq<seq<Point>>, boundary: set<(Point, Point)>, first: set<Point>, i: nat, j: nat,
                      v: Point, w: Point)
    requires Setting(rings, boundary, first) && i < |rings| && j < |rings| && i != j
    requires v !in first && v in rings[j] && Adjacent(rings[i], v, w) && Normalized(v, w) !in boundary
    ensures Adjacent(rings[j], v, w)
  {
    var s := Normalized(v, w);
    AtLeastOnce(rings, s, i);
    var m := OtherRing(rings, s, i);
    AdjacentInRing(rings[i], v, w);
    AdjacentInRing(rings[m], v, w);
    OnlyTwoRings(rings, v, i, j, m);
  }

  // If one of the two rings at a vertex turns there, so does the other.
  lemma BothTurn(rings: seq<seq<Point>>, boundary: set<(Point, Point)>, first: set<Point>, j: nat, k: nat, v: Point)
    requires Setting(rings, boundary, first) && j < |rings| && k < |rings| && j != k
    requires v !in first && v in rings[k] && v in Transitions(rings[j], boundary)
    ensures v in Transitions(rings[k], boundary)
  {
    var u, w := TransitionSegments(rings[j], boundary, v);
    InnerIsShared(rings, boundary, first, j, k, v, w);
    var x := IndexOfVertex(rings[k], v);
    BothNeighbours(rings[k], x);
    NeighbourIs(rings[k], x, w);
    var next, prev := rings[k][NextIndex(rings[k], x)], rings[k][PrevIndex(rings[k], x)];
    var other := if w == next then prev else next;
    assert Adjacent(rings[k], v, other) && other != w;
    if Normalized(v, other) in boundary {
      TransitionHere(rings[k], boundary, v, other, w);
    } else {
      AdjacentInRing(rings[j], v, u);
      InnerIsShared(rings, boundary, first, k, j, v, other);
      TwoNeighbours(rings[j], u, v, w, other);
      assert false;
    }
  }

  /** When a ring is split its nodes are final: rings split later add none of its vertices. */
  lemma NodesAreFinal(rings: seq<seq<Point>>, boundary: set<(Point, Point)>, first: set<Point>, k: nat, v: Point)
    requires Setting(rings, boundary, first) && k < |rings| && v in rings[k]
    ensures v in FinalNodes(rings, boundary, first) <==> v in first + AllTransitions(rings[..k + 1], boundary)
  {
    TransitionsWithin(rings[..k + 1], boundary, k);
    if v in first + AllTransitions(rings[..k + 1], boundary) && v !in first {
      var j := TransitionRing(rings[..k + 1], boundary, v);
      TransitionsWithin(rings, boundary, j);
    }
    if v in FinalNodes(rings, boundary, first) && v !in first {
      var j := TransitionRing(rings, boundary, v);
      if j != k { BothTurn(rings, boundary, first, j, k, v); }
    }
  }

  /** Two rings that share a segment share the next one too, unless a node is between them. */
  lemma NextIsShared(rings: seq<seq<Point>>, boundary: set<(Point, Point)>, first: set<Point>, i: nat, j: nat, a: Point,
                     v: Point, c: Point)
    requires Setting(rings, boundary, first) && i < |rings| && j < |rings|
    requires Adjacent(rings[i], v, a) && Adjacent(rings[i], v, c) && Adjacent(rings[j], v, a)
    requires v !in FinalNodes(rings, boundary, first)
    ensures Adjacent(rings[j], v, c)
  {
    if i != j {
      SharedTwice(rings, Normalized(v, a), i, j);
      TransitionsWithin(rings, boundary, i);
      if Normalized(v, c) in boundary {
        TransitionHere(rings[i], boundary, v, c, a);
      }
      AdjacentInRing(rings[j], v, a);
      InnerIsShared(rings, boundary, first, i, j, v, c);
    }
  }
}
