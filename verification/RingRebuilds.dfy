/**
 Rebuilding a ring from the edges it was split into.
 */
module RingRebuilds {
  import opened Planar
  import opened CoordinateLists
  import opened CoverageRings
  import opened CoverageNodes
  import opened CoverageSections
  import opened CoverageKeys
  import opened CoverageEdges
  import opened RingSplits

  // ---- Rings up to their start and direction

  predicate Rotated(a: seq<Point>, b: seq<Point>) {
    exists s: nat :: s < |a| - 1 && b == Section(a, s, s)
  }

  predicate SameCycle(a: seq<Point>, b: seq<Point>) {
    Rotated(a, b) || Rotated(a, Reversed(b))
  }

  lemma WholeIsSimple(ring: seq<Point>, s: nat)
    requires SimpleRing(ring) && s < |ring| - 1
    ensures |Section(ring, s, s)| == |ring| && SimpleRing(Section(ring, s, s))
  {
    var q := Section(ring, s, s);
    forall i, j | 0 <= i < j < |q| - 1 ensures q[i] != q[j] {
      SectionAt(ring, s, s, i);
      SectionAt(ring, s, s, j);
    }
  }

  lemma ReversedSimple(p: seq<Point>)
    requires SimpleRing(p)
    ensures SimpleRing(Reversed(p))
  {
    var r := Reversed(p);
    forall i, j | 0 <= i < j < |r| - 1 ensures r[i] != r[j] {
      var x, y := |p| - 1 - j, if i == 0 then 0 else |p| - 1 - i;
      assert p[x] == r[j] && p[y] == r[i] && x > 0 && (y == 0 || x < y);
    }
  }

  // Two walks along the same segments that start alike stay alike.
  lemma {:induction false} FollowAt(a: seq<Point>, p: seq<Point>, q: seq<Point>, t: nat)
    requires SimpleRing(a) && Steps(a, p) && Steps(a, q) && p[0] == q[0] && p[1] == q[1] && t < |p| && t < |q|
    ensures p[t] == q[t]
  {
    if t >= 2 {
      FollowAt(a, p, q, t - 1);
      FollowAt(a, p, q, t - 2);
      FollowStep(a, p, q, t - 2);
    }
  }

  lemma FollowStep(a: seq<Point>, p: seq<Point>, q: seq<Point>, t: nat)
    requires SimpleRing(a) && Steps(a, p) && Steps(a, q) && t + 2 < |p| && t + 2 < |q| && p[t] == q[t]
    requires p[t + 1] == q[t + 1]
    ensures p[t + 2] == q[t + 2]
  {
    assert StepAt(a, p, t) && StepAt(a, p, t + 1) && StepAt(a, q, t) && StepAt(a, q, t + 1);
    AdjacentFlip(a, p[t], p[t + 1]);
    TwoNeighbours(a, p[t], p[t + 1], p[t + 2], q[t + 2]);
  }

  lemma SameClosed(a: seq<Point>, p: seq<Point>, q: seq<Point>)
    requires SimpleRing(a) && Steps(a, p) && Steps(a, q) && SimpleRing(p) && SimpleRing(q)
    requires p[0] == q[0] && p[1] == q[1]
    ensures p == q
  {
    var n := if |p| < |q| then |p| else |q|;
    forall t | 0 <= t < n ensures p[t] == q[t] { FollowAt(a, p, q, t); }
    assert p[n - 1] == q[n - 1];
    ClosesOnce(p, n - 1);
    ClosesOnce(q, n - 1);
  }

  lemma ClosesOnce(p: seq<Point>, t: nat)
    requires SimpleRing(p) && 0 < t < |p|
    ensures p[t] == p[0] <==> t == |p| - 1
  {
  }

  lemma ReversedRingSteps(ring: seq<Point>, p: seq<Point>)
    requires Steps(ring, p)
    ensures Steps(ring, Reversed(p))
  {
    forall t | 0 <= t < |p| - 1 ensures StepAt(ring, Reversed(p), t) { ReversedStep(ring, p, t); }
  }

  lemma StepsElsewhere(a: seq<Point>, b: seq<Point>, p: seq<Point>)
    requires Steps(b, p) && Segments(b) == Segments(a)
    ensures Steps(a, p)
  {
    forall t | 0 <= t < |p| - 1 ensures StepAt(a, p, t) { assert StepAt(b, p, t); }
  }

  /** Rings with the same segments are the same cycle. */
  lemma SegmentsMakeCycle(a: seq<Point>, b: seq<Point>)
    requires SimpleRing(a) && SimpleRing(b) && Segments(a) == Segments(b)
    ensures SameCycle(a, b)
  {
    RingSteps(b);
    StepsElsewhere(a, b, b);
    assert StepAt(a, b, 0);
    AdjacentInRing(a, b[0], b[1]);
    var s := IndexOfVertex(a, b[0]);
    NeighbourIs(a, s, b[1]);
    var p := Section(a, s, s);
    WholeIsSimple(a, s);
    SectionSteps(a, s, s);
    SectionAt(a, s, s, 0);
    SectionAt(a, s, s, 1);
    SectionAt(a, s, s, |p| - 2);
    if b[1] == p[1] {
      SameClosed(a, p, b);
    } else {
      ReversedRingSteps(a, b);
      ReversedSimple(p);
      ReversedRingSteps(a, p);
      SameClosed(a, Reversed(p), b);
      ReversedTwice(p);
    }
  }

  // ---- The rebuilding algorithm

  predicate NonEmpty(coords: seq<seq<Point>>) {
    forall i :: 0 <= i < |coords| ==> coords[i] != []
  }

  // Whether edge index of a ring is to be read forward, given the points so far.
  predicate IsEdgeDirForward(coords: seq<seq<Point>>, index: nat, pts: seq<Point>)
    requires index < |coords| && NonEmpty(coords) && (index > 0 ==> pts != [])
  {
    var size := |coords|;
    if size <= 1 then true
    else if index == 0 then
      size == 2
      || coords[0][|coords[0]| - 1] == coords[1][0]
      || coords[0][|coords[0]| - 1] == coords[1][|coords[1]| - 1]
    else
      pts[|pts| - 1] == coords[index][0]
  }

  function Directed(c: seq<Point>, isForward: bool): seq<Point> {
    if isForward then c else Reversed(c)
  }

  // The points after the first m edges.
  function Rebuilt(coords: seq<seq<Point>>, m: nat): (pts: seq<Point>)
    requires m <= |coords| && NonEmpty(coords)
    ensures m > 0 ==> pts != []
  {
    if m == 0 then []
    else
      var pts := Rebuilt(coords, m - 1);
      var c := coords[m - 1];
      AddSome(pts, Directed(c, IsEdgeDirForward(coords, m - 1, pts)))
  }

  function AddSome(s: seq<Point>, ps: seq<Point>): (r: seq<Point>)
    requires ps != []
    ensures r == AddAll(s, ps) && r != []
  {
    AddAll(s, ps)
  }

  // ---- Edges that fit the nodes of a ring

  // c runs between a and b, one way or the other.
  predicate Spans(c: seq<Point>, a: Point, b: Point) {
    && |c| >= 2 && NoRepeats(c) && a != b
    && ((c[0] == a && c[|c| - 1] == b) || (c[0] == b && c[|c| - 1] == a))
  }

  function NextCorner(k: nat, m: nat): (n: nat)
    requires m < k
    ensures n < k
  {
    if m + 1 < k then m + 1 else 0
  }

  // The edges run from each corner to the next, one way or the other.
  predicate Fits(coords: seq<seq<Point>>, corners: seq<Point>) {
    && |coords| == |corners| >= 2
    && (forall i, j :: 0 <= i < j < |corners| ==> corners[i] != corners[j])
    && (forall m {:trigger coords[m]} ::
      0 <= m < |coords| ==> Spans(coords[m], corners[m], corners[NextCorner(|corners|, m)]))
  }

  // c read away from a.
  function ReadFrom(c: seq<Point>, a: Point): (r: seq<Point>)
    requires c != []
    ensures |r| == |c|
  {
    if c[0] == a then c else Reversed(c)
  }

  function AllReadFrom(coords: seq<seq<Point>>, corners: seq<Point>): (ps: seq<seq<Point>>)
    requires Fits(coords, corners)
    ensures |ps| == |coords|
  {
    seq(|coords|, m requires 0 <= m < |coords| => ReadFrom(coords[m], corners[m]))
  }

  lemma ReadEnds(c: seq<Point>, a: Point, b: Point)
    requires Spans(c, a, b)
    ensures ReadFrom(c, a)[0] == a && ReadFrom(c, a)[|c| - 1] == b && NoRepeats(ReadFrom(c, a))
  {
    var r := Reversed(c);
    forall k | 0 < k < |r| ensures r[k - 1] != r[k] {
      assert r[k] == c[|c| - 1 - k] && r[k - 1] == c[|c| - k];
    }
  }

  lemma SpansAt(coords: seq<seq<Point>>, corners: seq<Point>, m: nat)
    requires Fits(coords, corners) && m < |coords|
    ensures Spans(coords[m], corners[m], corners[NextCorner(|corners|, m)])
    ensures NonEmpty(coords)
  {
    forall i | 0 <= i < |coords| ensures coords[i] != [] {
      assert Spans(coords[i], corners[i], corners[NextCorner(|corners|, i)]);
    }
  }

  // The first edge leaves the first corner when there are more than two, or when it was stored so.
  lemma FirstDirection(coords: seq<seq<Point>>, corners: seq<Point>)
    requires Fits(coords, corners) && NonEmpty(coords)
    requires |coords| >= 3 || coords[0][0] == corners[0]
    ensures Directed(coords[0], IsEdgeDirForward(coords, 0, [])) == ReadFrom(coords[0], corners[0])
  {
    SpansAt(coords, corners, 0);
    SpansAt(coords, corners, 1);
  }

  // Every other edge leaves the corner that the points have come to.
  lemma LaterDirection(coords: seq<seq<Point>>, corners: seq<Point>, m: nat, pts: seq<Point>)
    requires Fits(coords, corners) && NonEmpty(coords)
    requires 0 < m < |coords| && pts != [] && pts[|pts| - 1] == corners[m]
    ensures Directed(coords[m], IsEdgeDirForward(coords, m, pts)) == ReadFrom(coords[m], corners[m])
  {
    SpansAt(coords, corners, m);
  }

  lemma JoinedEnd(a: seq<Point>, b: seq<Point>)
    requires b != [] && (a != [] ==> |b| >= 2)
    ensures Joined(a, b) != [] && Joined(a, b)[|Joined(a, b)| - 1] == b[|b| - 1]
  {
  }

  // NextCorner m edges the points are the first m paths joined, and end at the next corner.
  ghost predicate RebuiltTo(coords: seq<seq<Point>>, corners: seq<Point>, m: nat)
    requires Fits(coords, corners) && NonEmpty(coords) && 0 < m <= |coords|
  {
    && Rebuilt(coords, m) == JoinAll(AllReadFrom(coords, corners)[..m])
    && Rebuilt(coords, m)[|Rebuilt(coords, m)| - 1] == corners[NextCorner(|corners|, m - 1)]
  }

  lemma RebuiltToParts(coords: seq<seq<Point>>, corners: seq<Point>, m: nat)
    requires Fits(coords, corners) && NonEmpty(coords) && 0 < m <= |coords|
    ensures RebuiltTo(coords, corners, m) <==>
      && Rebuilt(coords, m) == JoinAll(AllReadFrom(coords, corners)[..m])
      && Rebuilt(coords, m)[|Rebuilt(coords, m)| - 1] == corners[NextCorner(|corners|, m - 1)]
  {
    hide Rebuilt;
    hide Fits;
    hide NonEmpty;
    hide AllReadFrom;
    hide JoinAll;
  }

  // Edge m, read away from its corner.
  lemma ReadAt(coords: seq<seq<Point>>, corners: seq<Point>, m: nat)
    requires Fits(coords, corners) && NonEmpty(coords) && m < |coords|
    ensures |coords| == |corners| && coords[m] != []
    ensures AllReadFrom(coords, corners)[m] == ReadFrom(coords[m], corners[m])
    ensures |ReadFrom(coords[m], corners[m])| >= 2 && NoRepeats(ReadFrom(coords[m], corners[m]))
    ensures ReadFrom(coords[m], corners[m])[0] == corners[m]
    ensures ReadFrom(coords[m], corners[m])[|coords[m]| - 1] == corners[NextCorner(|corners|, m)]
  {
    SpansAt(coords, corners, m);
    ReadEnds(coords[m], corners[m], corners[NextCorner(|corners|, m)]);
  }

  lemma FirstPath(coords: seq<seq<Point>>, corners: seq<Point>)
    requires Fits(coords, corners) && NonEmpty(coords) && |coords| == |corners| >= 2
    requires |coords| >= 3 || coords[0][0] == corners[0]
    ensures Rebuilt(coords, 1) == AllReadFrom(coords, corners)[0]
  {
    hide *;
    var p := AllReadFrom(coords, corners)[0];
    ReadAt(coords, corners, 0);
    FirstDirection(coords, corners);
    RebuiltFirst(coords);
    AddAllNoRepeats([], p);
    assert [] + p == p;
  }

  lemma RebuiltBase(coords: seq<seq<Point>>, corners: seq<Point>)
    requires Fits(coords, corners) && NonEmpty(coords) && |coords| == |corners| >= 2
    requires |coords| >= 3 || coords[0][0] == corners[0]
    ensures RebuiltTo(coords, corners, 1)
  {
    hide *;
    var p := AllReadFrom(coords, corners)[0];
    ReadAt(coords, corners, 0);
    FirstPath(coords, corners);
    assert AllReadFrom(coords, corners)[..0] == [];
    JoinStep(AllReadFrom(coords, corners), 0);
    JoinedNothing(p);
    RebuiltToParts(coords, corners, 1);
  }

  lemma RebuiltStep(coords: seq<seq<Point>>, corners: seq<Point>, m: nat)
    requires Fits(coords, corners) && NonEmpty(coords) && 0 < m < |coords| && |coords| == |corners|
    requires RebuiltTo(coords, corners, m)
    ensures RebuiltTo(coords, corners, m + 1)
  {
    hide *;
    var pts, p := Rebuilt(coords, m), AllReadFrom(coords, corners)[m];
    RebuiltToParts(coords, corners, m);
    ReadAt(coords, corners, m);
    NextCornerBefore(|corners|, m);
    LaterDirection(coords, corners, m, pts);
    RebuiltNext(coords, m);
    AddAllJoins(pts, p);
    JoinStep(AllReadFrom(coords, corners), m);
    JoinedTail(pts, p);
    JoinedEnd(pts, p);
    RebuiltToParts(coords, corners, m + 1);
  }

  /** Rebuilding joins the edges in ring order, each read away from its corner. */
  lemma {:induction false} RebuiltReads(coords: seq<seq<Point>>, corners: seq<Point>, m: nat)
    requires Fits(coords, corners) && NonEmpty(coords) && 0 < m <= |coords|
    requires |coords| >= 3 || coords[0][0] == corners[0]
    ensures RebuiltTo(coords, corners, m)
  {
    hide Rebuilt;
    if m == 1 {
      RebuiltBase(coords, corners);
    } else {
      RebuiltReads(coords, corners, m - 1);
      RebuiltStep(coords, corners, m - 1);
    }
  }

  lemma NextCornerBefore(k: nat, m: nat)
    requires 0 < m < k
    ensures NextCorner(k, m - 1) == m
  {
  }

  lemma JoinedTail(a: seq<Point>, b: seq<Point>)
    requires a != [] && b != []
    ensures Joined(a, b) == a + b[1..]
  {
  }

  lemma RebuiltFirst(coords: seq<seq<Point>>)
    requires |coords| > 0 && NonEmpty(coords)
    ensures Rebuilt(coords, 1) == AddAll([], Directed(coords[0], IsEdgeDirForward(coords, 0, [])))
  {
    assert Rebuilt(coords, 0) == [];
  }

  lemma RebuiltNext(coords: seq<seq<Point>>, m: nat)
    requires 0 < m < |coords| && NonEmpty(coords)
    ensures Rebuilt(coords, m + 1) ==
      AddAll(Rebuilt(coords, m), Directed(coords[m], IsEdgeDirForward(coords, m, Rebuilt(coords, m))))
  {
  }

  // ---- The round trip

  function Corners(ring: seq<Point>, cuts: seq<nat>): (ps: seq<Point>)
    requires Rising(ring, cuts)
    ensures |ps| == |cuts| && forall m :: 0 <= m < |cuts| ==> ps[m] == ring[cuts[m]]
  {
    seq(|cuts|, m requires 0 <= m < |cuts| => ring[cuts[m]])
  }

  lemma SectionNoRepeats(ring: seq<Point>, s: nat, e: nat)
    requires SimpleRing(ring) && s < |ring| - 1 && e < |ring| - 1
    ensures NoRepeats(Section(ring, s, e))
  {
    var q := Section(ring, s, e);
    forall k | 0 < k < |q| ensures q[k - 1] != q[k] {
      SectionAt(ring, s, e, k - 1);
      SectionAt(ring, s, e, k);
      BothNeighbours(ring, PlaceOf(ring, s, k - 1));
    }
  }

  lemma NoRepeatsReversed(c: seq<Point>)
    requires NoRepeats(c)
    ensures NoRepeats(Reversed(c))
  {
    var r := Reversed(c);
    forall k | 0 < k < |r| ensures r[k - 1] != r[k] {
      var j := |c| - k;
      assert c[j - 1] != c[j];
    }
  }

  // A piece between two cuts, stored either way, spans its corners and is found again along it.
  lemma PieceSpans(ring: seq<Point>, s: nat, e: nat, c: seq<Point>)
    requires SimpleRing(ring) && s < |ring| - 1 && e < |ring| - 1 && s != e
    requires c == Section(ring, s, e) || c == Reversed(Section(ring, s, e))
    ensures Spans(c, ring[s], ring[e]) && Spans(c, ring[e], ring[s])
    ensures ReadFrom(c, ring[s]) == Section(ring, s, e) && ReadFrom(c, ring[e]) == Reversed(Section(ring, s, e))
  {
    var q := Section(ring, s, e);
    SectionNoRepeats(ring, s, e);
    NoRepeatsReversed(q);
    SectionAt(ring, s, e, 0);
    SectionAt(ring, s, e, |q| - 1);
    ReversedTwice(q);
  }

  // The edges are those of the pieces, in either direction.
  predicate Stored(ring: seq<Point>, cuts: seq<nat>, coords: seq<seq<Point>>)
    requires Rising(ring, cuts)
  {
    && |coords| == |Pieces(ring, cuts)|
    && forall m {:trigger coords[m]} :: 0 <= m < |coords| ==> SameEdge(Pieces(ring, cuts)[m], coords[m], cuts == [])
  }

  lemma StoredFrom(ring: seq<Point>, cuts: seq<nat>, coords: seq<seq<Point>>)
    requires Rising(ring, cuts) && |coords| == |Pieces(ring, cuts)|
    requires forall m :: 0 <= m < |coords| ==> coords[m] != [] && SameEdge(Pieces(ring, cuts)[m], coords[m], cuts == [])
    ensures Stored(ring, cuts, coords) && NonEmpty(coords)
  {
    hide SameEdge;
    hide Pieces;
  }

  lemma StoredAt(ring: seq<Point>, cuts: seq<nat>, coords: seq<seq<Point>>, m: nat)
    requires SimpleRing(ring) && Rising(ring, cuts) && Stored(ring, cuts, coords) && |cuts| >= 2 && m < |cuts|
    ensures |coords| == |cuts| && coords[m] != [] && cuts[m] != EndOf(cuts, m) && EndOf(cuts, m) < |ring| - 1
    ensures Spans(coords[m], ring[cuts[m]], ring[EndOf(cuts, m)])
    ensures Spans(coords[m], ring[EndOf(cuts, m)], ring[cuts[m]])
    ensures ReadFrom(coords[m], ring[cuts[m]]) == Pieces(ring, cuts)[m]
    ensures ReadFrom(coords[m], ring[EndOf(cuts, m)]) == Reversed(Pieces(ring, cuts)[m])
  {
    PieceAt(ring, cuts, m);
    PieceSpans(ring, cuts[m], EndOf(cuts, m), coords[m]);
  }

  lemma StoredCorner(ring: seq<Point>, cuts: seq<nat>, coords: seq<seq<Point>>, m: nat)
    requires SimpleRing(ring) && Rising(ring, cuts) && Stored(ring, cuts, coords) && |cuts| >= 2 && m < |cuts|
    ensures |coords| == |cuts| == |Pieces(ring, cuts)| && coords[m] != []
    ensures Spans(coords[m], Corners(ring, cuts)[m], Corners(ring, cuts)[NextCorner(|cuts|, m)])
    ensures ReadFrom(coords[m], Corners(ring, cuts)[m]) == Pieces(ring, cuts)[m]
  {
    StoredAt(ring, cuts, coords, m);
    hide Spans;
    hide ReadFrom;
    hide Pieces;
    hide Stored;
    hide SimpleRing;
  }

  lemma CornersDistinct(ring: seq<Point>, cuts: seq<nat>)
    requires SimpleRing(ring) && Rising(ring, cuts)
    ensures forall i, j :: 0 <= i < j < |cuts| ==> Corners(ring, cuts)[i] != Corners(ring, cuts)[j]
  {
    forall i, j | 0 <= i < j < |cuts| ensures Corners(ring, cuts)[i] != Corners(ring, cuts)[j] {
      assert cuts[i] < cuts[j];
    }
  }

  lemma FitsFrom(coords: seq<seq<Point>>, corners: seq<Point>, ps: seq<seq<Point>>)
    requires |coords| == |corners| == |ps| >= 2 && NonEmpty(coords)
    requires forall i, j :: 0 <= i < j < |corners| ==> corners[i] != corners[j]
    requires forall m :: 0 <= m < |coords| ==> Spans(coords[m], corners[m], corners[NextCorner(|corners|, m)])
    requires forall m :: 0 <= m < |coords| ==> ReadFrom(coords[m], corners[m]) == ps[m]
    ensures Fits(coords, corners) && AllReadFrom(coords, corners) == ps
  {
    hide Spans;
    hide ReadFrom;
    hide NextCorner;
  }

  lemma StoredFits(ring: seq<Point>, cuts: seq<nat>, coords: seq<seq<Point>>)
    requires SimpleRing(ring) && Rising(ring, cuts) && Stored(ring, cuts, coords) && |cuts| >= 2
    ensures Fits(coords, Corners(ring, cuts)) && NonEmpty(coords)
    ensures AllReadFrom(coords, Corners(ring, cuts)) == Pieces(ring, cuts)
  {
    StoredCorner(ring, cuts, coords, 0);
    hide Stored;
    hide SimpleRing;
    hide Rising;
    hide Spans;
    hide ReadFrom;
    hide Pieces;
    hide Fits;
    hide Corners;
    CornersDistinct(ring, cuts);
    forall m | 0 <= m < |coords|
      ensures coords[m] != [] && Spans(coords[m], Corners(ring, cuts)[m], Corners(ring, cuts)[NextCorner(|cuts|, m)])
      ensures ReadFrom(coords[m], Corners(ring, cuts)[m]) == Pieces(ring, cuts)[m]
    {
      StoredCorner(ring, cuts, coords, m);
    }
    FitsFrom(coords, Corners(ring, cuts), Pieces(ring, cuts));
  }

  /** With three edges or more, or a first edge stored in ring direction, the ring comes back in its direction. */
  lemma RoundTripForward(ring: seq<Point>, cuts: seq<nat>, coords: seq<seq<Point>>)
    requires SimpleRing(ring) && Rising(ring, cuts) && Stored(ring, cuts, coords) && |cuts| >= 2 && NonEmpty(coords)
    requires |cuts| >= 3 || coords[0][0] == ring[cuts[0]]
    ensures Rebuilt(coords, |coords|) == Section(ring, cuts[0], cuts[0])
  {
    var ps := Pieces(ring, cuts);
    assert ps[..|ps|] == ps;
    hide *;
    StoredCorner(ring, cuts, coords, 0);
    StoredFits(ring, cuts, coords);
    RebuiltReads(coords, Corners(ring, cuts), |coords|);
    RebuiltToParts(coords, Corners(ring, cuts), |coords|);
    PiecesJoin(ring, cuts);
  }

  lemma ReversedParts(p: seq<Point>, a: nat)
    requires a <= |p|
    ensures Reversed(p) == Reversed(p[a..]) + Reversed(p[..a])
  {
  }

  lemma JoinReversed(a: seq<Point>, b: seq<Point>)
    requires a != [] && b != [] && a[|a| - 1] == b[0]
    ensures Reversed(Joined(a, b)) == Joined(Reversed(b), Reversed(a))
  {
    var n := |a| - 1;
    assert Joined(a, b) == a[..n] + b;
    ReversedParts(a[..n] + b, n);
    assert (a[..n] + b)[n..] == b && (a[..n] + b)[..n] == a[..n];
    ReversedParts(a, n);
    assert a[n..] == [a[n]];
    assert Reversed(a)[1..] == Reversed(a[..n]);
  }

  lemma JoinTwo(ring: seq<Point>, c0: nat, c1: nat)
    requires c0 < c1 < |ring| - 1
    ensures Joined(Section(ring, c1, c0), Section(ring, c0, c1)) == Section(ring, c1, c1)
  {
    assert Section(ring, c0, c1)[1..] == ring[c0 + 1..c1 + 1];
    assert ring[1..c0 + 1] + ring[c0 + 1..c1 + 1] == ring[1..c1 + 1];
  }

  /** With two edges, the first stored against the ring, the ring comes back reversed. */
  lemma RoundTripTwo(ring: seq<Point>, cuts: seq<nat>, coords: seq<seq<Point>>)
    requires SimpleRing(ring) && Rising(ring, cuts) && Stored(ring, cuts, coords) && |cuts| == 2 && NonEmpty(coords)
    requires |coords| == 2 && coords[0][0] != ring[cuts[0]]
    ensures Rebuilt(coords, 2) == Reversed(Section(ring, cuts[1], cuts[1]))
  {
    hide *;
    TwoReversed(ring, cuts, coords);
    var p, q := Section(ring, cuts[0], cuts[1]), Section(ring, cuts[1], cuts[0]);
    SectionsMeet(ring, cuts[0], cuts[1]);
    RebuiltReads(coords, [ring[cuts[1]], ring[cuts[0]]], 2);
    RebuiltToParts(coords, [ring[cuts[1]], ring[cuts[0]]], 2);
    assert [Reversed(p), Reversed(q)][..2] == [Reversed(p), Reversed(q)];
    JoinPair(Reversed(p), Reversed(q));
    JoinReversed(q, p);
    JoinTwo(ring, cuts[0], cuts[1]);
  }

  lemma SectionsMeet(ring: seq<Point>, c0: nat, c1: nat)
    requires SimpleRing(ring) && c0 < c1 < |ring| - 1
    ensures Section(ring, c0, c1) != [] && Section(ring, c1, c0) != []
    ensures Section(ring, c1, c0)[|Section(ring, c1, c0)| - 1] == Section(ring, c0, c1)[0]
  {
    SectionAt(ring, c0, c1, 0);
    SectionAt(ring, c1, c0, |Section(ring, c1, c0)| - 1);
  }

  lemma NextCornerOfTwo()
    ensures NextCorner(2, 0) == 1 && NextCorner(2, 1) == 0
  {
  }

  lemma TwoStored(ring: seq<Point>, cuts: seq<nat>, coords: seq<seq<Point>>)
    requires SimpleRing(ring) && Rising(ring, cuts) && Stored(ring, cuts, coords) && |cuts| == 2
    requires |coords| == 2 && NonEmpty(coords) && coords[0][0] != ring[cuts[0]]
    ensures cuts[0] < cuts[1] < |ring| - 1 && coords[0][0] == ring[cuts[1]] && ring[cuts[0]] != ring[cuts[1]]
    ensures coords[0] != [] && coords[1] != []
    ensures Spans(coords[0], ring[cuts[1]], ring[cuts[0]]) && Spans(coords[1], ring[cuts[0]], ring[cuts[1]])
    ensures ReadFrom(coords[0], ring[cuts[1]]) == Reversed(Section(ring, cuts[0], cuts[1]))
    ensures ReadFrom(coords[1], ring[cuts[0]]) == Reversed(Section(ring, cuts[1], cuts[0]))
  {
    StoredAt(ring, cuts, coords, 0);
    StoredAt(ring, cuts, coords, 1);
    PieceAt(ring, cuts, 0);
    PieceAt(ring, cuts, 1);
    hide Stored;
    hide Section;
    hide Pieces;
    hide Reversed;
    hide NonEmpty;
  }

  // Two edges, the first against the ring: they fit the corners taken the other way.
  lemma TwoReversed(ring: seq<Point>, cuts: seq<nat>, coords: seq<seq<Point>>)
    requires SimpleRing(ring) && Rising(ring, cuts) && Stored(ring, cuts, coords) && |cuts| == 2 && NonEmpty(coords)
    requires |coords| == 2 && coords[0][0] != ring[cuts[0]]
    ensures cuts[0] < cuts[1] < |ring| - 1 && coords[0][0] == ring[cuts[1]]
    ensures Fits(coords, [ring[cuts[1]], ring[cuts[0]]])
    ensures AllReadFrom(coords, [ring[cuts[1]], ring[cuts[0]]])
         == [Reversed(Section(ring, cuts[0], cuts[1])), Reversed(Section(ring, cuts[1], cuts[0]))]
  {
    hide *;
    TwoStored(ring, cuts, coords);
    var corners := [ring[cuts[1]], ring[cuts[0]]];
    assert NextCorner(2, 0) == 1 && NextCorner(2, 1) == 0 by { NextCornerOfTwo(); }
    FitsFrom(coords, corners, [Reversed(Section(ring, cuts[0], cuts[1])), Reversed(Section(ring, cuts[1], cuts[0]))]);
  }

  lemma JoinPair(a: seq<Point>, b: seq<Point>)
    ensures JoinAll([a, b]) == Joined(a, b)
  {
    var ps := [a, b];
    JoinStep(ps, 1);
    JoinStep(ps, 0);
    assert ps[..2] == ps;
    assert ps[..0] == [];
    JoinedNothing(a);
  }

  lemma RebuiltSingle(coords: seq<seq<Point>>)
    requires |coords| == 1 && NonEmpty(coords) && NoRepeats(coords[0])
    ensures Rebuilt(coords, 1) == coords[0]
  {
    RebuiltFirst(coords);
    AddAllNoRepeats([], coords[0]);
    assert [] + coords[0] == coords[0];
  }

  lemma SimpleNoRepeats(ring: seq<Point>)
    requires SimpleRing(ring)
    ensures NoRepeats(ring)
  {
    assert Section(ring, 0, 0) == ring;
    SectionNoRepeats(ring, 0, 0);
  }

  lemma RoundTripOne(ring: seq<Point>, cuts: seq<nat>, coords: seq<seq<Point>>)
    requires SimpleRing(ring) && Rising(ring, cuts) && Stored(ring, cuts, coords) && |cuts| <= 1 && NonEmpty(coords)
    requires cuts == [] ==> SimpleRing(coords[0])
    ensures |coords| == 1 && SameCycle(ring, Rebuilt(coords, 1))
  {
    assert SameEdge(Pieces(ring, cuts)[0], coords[0], cuts == []);
    if cuts == [] {
      SimpleNoRepeats(coords[0]);
      RebuiltSingle(coords);
      SegmentsMakeCycle(ring, coords[0]);
    } else {
      PieceAt(ring, cuts, 0);
      var q := Section(ring, cuts[0], cuts[0]);
      SectionNoRepeats(ring, cuts[0], cuts[0]);
      NoRepeatsReversed(q);
      RebuiltSingle(coords);
      ReversedTwice(q);
    }
  }

  /**
   Splitting a ring and rebuilding it gives back the ring: up to its start, and up to its
   direction only when it has no more than two edges.
   */
  lemma RoundTrip(ring: seq<Point>, cuts: seq<nat>, coords: seq<seq<Point>>)
    requires SimpleRing(ring) && Rising(ring, cuts) && Stored(ring, cuts, coords) && NonEmpty(coords)
    requires cuts == [] ==> SimpleRing(coords[0])
    ensures SameCycle(ring, Rebuilt(coords, |coords|))
    ensures |coords| >= 3 ==> Rotated(ring, Rebuilt(coords, |coords|))
  {
    hide Rebuilt;
    hide Stored;
    if |cuts| <= 1 {
      RoundTripOne(ring, cuts, coords);
    } else {
      StoredAt(ring, cuts, coords, 0);
      if |cuts| >= 3 || coords[0][0] == ring[cuts[0]] {
        RoundTripForward(ring, cuts, coords);
      } else {
        RoundTripTwo(ring, cuts, coords);
        ReversedTwice(Section(ring, cuts[1], cuts[1]));
      }
    }
  }
}
