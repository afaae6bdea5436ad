/**
 The signed area of a ring rebuilt from edges with new points is the sum of what its edges
 contribute, each as the ring runs along it.
 */
module RebuiltAreas {
  import opened Planar
  import opened CoordinateLists
  import opened CoverageRings
  import opened CoverageSections
  import opened CoverageKeys
  import CoverageEdges
  import opened RingSplits
  import opened RingRebuilds
  import opened CoverageAreas
  import Runs = SimplifyRuns

  lemma {:induction false} ReversedSum(p: seq<Point>)
    ensures Runs.PathSum(Reversed(p)) == -Runs.PathSum(p)
  {
    if |p| >= 2 {
      ReversedSum(p[1..]);
      assert Reversed(p) == Reversed(p[1..]) + [p[0]];
      Runs.PathSumJoin(Reversed(p[1..]), [p[0]]);
    }
  }

  lemma JoinedSum(a: seq<Point>, b: seq<Point>)
    requires a != [] && b != [] && a[|a| - 1] == b[0]
    ensures Runs.PathSum(Joined(a, b)) == Runs.PathSum(a) + Runs.PathSum(b)
  {
    if |b| == 1 {
      assert Joined(a, b) == a;
    } else {
      Runs.PathSumJoin(a, b[1..]);
      assert b == [b[0]] + b[1..];
      Runs.PathSumJoin([b[0]], b[1..]);
    }
  }

  function Sums(ps: seq<seq<Point>>): (xs: seq<real>)
    ensures |xs| == |ps| && forall m :: 0 <= m < |ps| ==> xs[m] == Runs.PathSum(ps[m])
  {
    seq(|ps|, m requires 0 <= m < |ps| => Runs.PathSum(ps[m]))
  }

  // Each path starts where the one before ends.
  predicate Chained(ps: seq<seq<Point>>) {
    && (forall m :: 0 <= m < |ps| ==> |ps[m]| >= 2)
    && (forall m {:trigger ps[m]} :: 0 < m < |ps| ==> MeetsBefore(ps, m))
  }

  predicate MeetsBefore(ps: seq<seq<Point>>, m: nat)
    requires 0 < m < |ps|
  {
    |ps[m - 1]| > 0 && |ps[m]| > 0 && ps[m - 1][|ps[m - 1]| - 1] == ps[m][0]
  }

  lemma {:induction false} JoinAllSum(ps: seq<seq<Point>>, n: nat)
    requires Chained(ps) && 0 < n <= |ps|
    ensures Runs.PathSum(JoinAll(ps[..n])) == Sum(Sums(ps)[..n])
    ensures JoinAll(ps[..n]) != [] && JoinAll(ps[..n])[|JoinAll(ps[..n])| - 1] == ps[n - 1][|ps[n - 1]| - 1]
  {
    var m := n - 1;
    JoinStep(ps, m);
    assert Sums(ps)[..n][..m] == Sums(ps)[..m];
    if m == 0 {
      assert ps[..0] == [];
      JoinedNothing(ps[0]);
    } else {
      JoinAllSum(ps, m);
      assert MeetsBefore(ps, m);
      hide JoinAll;
      hide Sum;
      JoinedSum(JoinAll(ps[..m]), ps[m]);
      JoinedEnd(JoinAll(ps[..m]), ps[m]);
    }
  }

  // ---- New points for the edges of a ring

  // New points between the same ends.
  predicate Refit(stored: seq<Point>, current: seq<Point>) {
    && |stored| >= 2 && |current| >= 2 && NoRepeats(current)
    && current[0] == stored[0] && current[|current| - 1] == stored[|stored| - 1]
  }

  predicate AllRefit(olds: seq<seq<Point>>, news: seq<seq<Point>>) {
    |olds| == |news| && forall m {:trigger news[m]} :: 0 <= m < |news| ==> Refit(olds[m], news[m])
  }

  // What the edges contribute to the area of the ring.
  function Parts(ring: seq<Point>, olds: seq<seq<Point>>, news: seq<seq<Point>>): (xs: seq<real>)
    requires |olds| == |news|
    ensures |xs| == |olds| && forall m :: 0 <= m < |xs| ==> xs[m] == Sign(ring, olds[m]) * Runs.PathSum(news[m])
  {
    seq(|olds|, m requires 0 <= m < |olds| => Sign(ring, olds[m]) * Runs.PathSum(news[m]))
  }

  lemma StepIsForward(ring: seq<Point>, x: nat)
    requires SimpleRing(ring) && x < |ring| - 1
    ensures (ring[x], ring[NextIndex(ring, x)]) in DirectedSegments(ring)
    ensures (ring[PrevIndex(ring, x)], ring[x]) in DirectedSegments(ring)
  {
    assert StepOf(ring, x) in DirectedSegments(ring);
    var p := PrevIndex(ring, x);
    assert StepOf(ring, p) in DirectedSegments(ring);
  }

  lemma SectionSign(ring: seq<Point>, s: nat, e: nat)
    requires SimpleRing(ring) && s < |ring| - 1 && e < |ring| - 1
    ensures Sign(ring, Section(ring, s, e)) == 1.0 && Sign(ring, Reversed(Section(ring, s, e))) == -1.0
  {
    var q := Section(ring, s, e);
    CoverageEdges.SectionBeside(ring, s, e);
    StepIsForward(ring, s);
    StepIsForward(ring, e);
    BothNeighbours(ring, e);
    var p := ring[PrevIndex(ring, e)];
    RunsOneWay(ring, ring[e], p);
    var r := Reversed(q);
    assert r[0] == ring[e] && r[1] == p;
  }

  // New points of an edge between two corners, read away from either of them.
  lemma PartRead(ring: seq<Point>, s: nat, e: nat, stored: seq<Point>, current: seq<Point>)
    requires SimpleRing(ring) && s < |ring| - 1 && e < |ring| - 1 && s != e && Refit(stored, current)
    requires stored == Section(ring, s, e) || stored == Reversed(Section(ring, s, e))
    ensures Spans(current, ring[s], ring[e]) && Spans(current, ring[e], ring[s])
    ensures Runs.PathSum(ReadFrom(current, ring[s])) == Sign(ring, stored) * Runs.PathSum(current)
    ensures Runs.PathSum(ReadFrom(current, ring[e])) == -(Sign(ring, stored) * Runs.PathSum(current))
  {
    var q := Section(ring, s, e);
    SectionSign(ring, s, e);
    CoverageEdges.SectionBeside(ring, s, e);
    ReversedSum(current);
    assert ring[s] != ring[e];
    hide Sign;
    hide Runs.PathSum;
    hide Section;
    hide SimpleRing;
    hide NoRepeats;
  }

  lemma RefitPart(ring: seq<Point>, cuts: seq<nat>, olds: seq<seq<Point>>, news: seq<seq<Point>>, m: nat)
    requires SimpleRing(ring) && Rising(ring, cuts) && Stored(ring, cuts, olds) && AllRefit(olds, news) && |cuts| >= 2
    requires m < |cuts|
    ensures |news| == |cuts| && |olds| == |cuts| && news[m] != [] && Refit(olds[m], news[m])
    ensures cuts[m] < |ring| - 1 && EndOf(cuts, m) < |ring| - 1 && cuts[m] != EndOf(cuts, m)
    ensures olds[m] == Section(ring, cuts[m], EndOf(cuts, m)) ||
      olds[m] == Reversed(Section(ring, cuts[m], EndOf(cuts, m)))
  {
    StoredAt(ring, cuts, olds, m);
    PieceAt(ring, cuts, m);
    hide Section;
    hide Spans;
    hide NoRepeats;
    assert Refit(olds[m], news[m]);
    assert SameEdge(Pieces(ring, cuts)[m], olds[m], cuts == []);
  }

  lemma RefitAt(ring: seq<Point>, cuts: seq<nat>, olds: seq<seq<Point>>, news: seq<seq<Point>>, m: nat)
    requires SimpleRing(ring) && Rising(ring, cuts) && Stored(ring, cuts, olds) && AllRefit(olds, news) && |cuts| >= 2
    requires m < |cuts|
    ensures |news| == |cuts| && |olds| == |cuts| && news[m] != [] && EndOf(cuts, m) < |ring| - 1 && cuts[m] < |ring| - 1
    ensures Spans(news[m], ring[cuts[m]], ring[EndOf(cuts, m)]) && Spans(news[m], ring[EndOf(cuts, m)], ring[cuts[m]])
    ensures Runs.PathSum(ReadFrom(news[m], ring[cuts[m]])) == Parts(ring, olds, news)[m]
    ensures Runs.PathSum(ReadFrom(news[m], ring[EndOf(cuts, m)])) == -Parts(ring, olds, news)[m]
  {
    hide *;
    RefitPart(ring, cuts, olds, news, m);
    PartRead(ring, cuts[m], EndOf(cuts, m), olds[m], news[m]);
  }

  lemma RefitCorner(ring: seq<Point>, cuts: seq<nat>, olds: seq<seq<Point>>, news: seq<seq<Point>>, m: nat)
    requires SimpleRing(ring) && Rising(ring, cuts) && Stored(ring, cuts, olds) && AllRefit(olds, news) && |cuts| >= 2
    requires m < |cuts|
    ensures |news| == |cuts| && |olds| == |cuts| && news[m] != []
    ensures Spans(news[m], Corners(ring, cuts)[m], Corners(ring, cuts)[NextCorner(|cuts|, m)])
    ensures Runs.PathSum(ReadFrom(news[m], Corners(ring, cuts)[m])) == Parts(ring, olds, news)[m]
  {
    RefitAt(ring, cuts, olds, news, m);
    hide Spans;
    hide ReadFrom;
    hide Parts;
    hide Stored;
    hide SimpleRing;
  }

  lemma RefitFits(ring: seq<Point>, cuts: seq<nat>, olds: seq<seq<Point>>, news: seq<seq<Point>>)
    requires SimpleRing(ring) && Rising(ring, cuts) && Stored(ring, cuts, olds) && AllRefit(olds, news) && |cuts| >= 2
    ensures |news| == |cuts| && |olds| == |cuts|
    ensures Fits(news, Corners(ring, cuts)) && NonEmpty(news)
    ensures Sums(AllReadFrom(news, Corners(ring, cuts))) == Parts(ring, olds, news)
  {
    hide *;
    var corners := Corners(ring, cuts);
    RefitCorner(ring, cuts, olds, news, 0);
    CornersDistinct(ring, cuts);
    forall m | 0 <= m < |news|
      ensures news[m] != [] && Spans(news[m], corners[m], corners[NextCorner(|corners|, m)])
      ensures Runs.PathSum(ReadFrom(news[m], corners[m])) == Parts(ring, olds, news)[m]
    {
      RefitCorner(ring, cuts, olds, news, m);
    }
    FitsOnly(news, corners);
    SumsAre(news, corners, Parts(ring, olds, news));
  }

  lemma FitsOnly(coords: seq<seq<Point>>, corners: seq<Point>)
    requires |coords| == |corners| >= 2
    requires forall i, j :: 0 <= i < j < |corners| ==> corners[i] != corners[j]
    requires forall m ::
      0 <= m < |coords| ==> coords[m] != [] && Spans(coords[m], corners[m], corners[NextCorner(|corners|, m)])
    ensures Fits(coords, corners) && NonEmpty(coords)
  {
    hide Spans;
  }

  lemma SumsAre(coords: seq<seq<Point>>, corners: seq<Point>, xs: seq<real>)
    requires Fits(coords, corners) && NonEmpty(coords) && |xs| == |coords|
    requires forall m :: 0 <= m < |coords| ==> Runs.PathSum(ReadFrom(coords[m], corners[m])) == xs[m]
    ensures Sums(AllReadFrom(coords, corners)) == xs
  {
    hide ReadFrom;
    hide Runs.PathSum;
    hide Spans;
  }

  lemma ReadChained(coords: seq<seq<Point>>, corners: seq<Point>)
    requires Fits(coords, corners) && NonEmpty(coords)
    ensures Chained(AllReadFrom(coords, corners))
  {
    var ps := AllReadFrom(coords, corners);
    hide Fits;
    hide ReadFrom;
    forall m | 0 <= m < |ps| ensures |ps[m]| >= 2 && (m > 0 ==> MeetsBefore(ps, m)) {
      ReadAt(coords, corners, m);
      if m > 0 {
        ReadAt(coords, corners, m - 1);
        NextCornerBefore(|corners|, m);
      }
    }
  }

  // The rebuilt path sums up the edges along its corners.
  lemma FitsSum(coords: seq<seq<Point>>, corners: seq<Point>)
    requires Fits(coords, corners) && NonEmpty(coords) && |coords| >= 2
    requires |coords| >= 3 || (|corners| > 0 && coords[0][0] == corners[0])
    ensures Runs.PathSum(Rebuilt(coords, |coords|)) == Sum(Sums(AllReadFrom(coords, corners)))
  {
    var ps := AllReadFrom(coords, corners);
    assert ps[..|ps|] == ps && Sums(ps)[..|ps|] == Sums(ps);
    assert |ps| == |coords|;
    hide *;
    RebuiltReads(coords, corners, |coords|);
    RebuiltToParts(coords, corners, |coords|);
    ReadChained(coords, corners);
    JoinAllSum(ps, |ps|);
  }

  lemma RefitForward(ring: seq<Point>, cuts: seq<nat>, olds: seq<seq<Point>>, news: seq<seq<Point>>)
    requires SimpleRing(ring) && Rising(ring, cuts) && Stored(ring, cuts, olds) && AllRefit(olds, news) && |cuts| >= 2
    requires NonEmpty(news) && (|cuts| >= 3 || (news != [] && news[0][0] == ring[cuts[0]]))
    ensures |olds| == |news| && Runs.PathSum(Rebuilt(news, |news|)) == Sum(Parts(ring, olds, news))
  {
    assert Corners(ring, cuts)[0] == ring[cuts[0]];
    hide *;
    RefitFits(ring, cuts, olds, news);
    FitsSum(news, Corners(ring, cuts));
  }

  lemma SumTwo(xs: seq<real>)
    requires |xs| == 2
    ensures Sum(xs) == xs[0] + xs[1]
  {
    var one := xs[..1];
    assert one[..0] == [];
    assert Sum(one) == Sum(one[..0]) + one[0];
  }

  lemma RefitTwo(ring: seq<Point>, cuts: seq<nat>, olds: seq<seq<Point>>, news: seq<seq<Point>>)
    requires SimpleRing(ring) && Rising(ring, cuts) && Stored(ring, cuts, olds) && AllRefit(olds, news) && |cuts| == 2
    requires NonEmpty(news) && |news| == 2 && news[0][0] != ring[cuts[0]]
    ensures |olds| == |news| && Runs.PathSum(Rebuilt(news, |news|)) == -Sum(Parts(ring, olds, news))
  {
    hide *;
    TwoRefit(ring, cuts, olds, news);
    var corners := [ring[cuts[1]], ring[cuts[0]]];
    var xs := Parts(ring, olds, news);
    NextCornerOfTwo();
    FitsOnly(news, corners);
    SumsAre(news, corners, [-xs[0], -xs[1]]);
    FitsSum(news, corners);
    SumTwo(xs);
    SumTwo([-xs[0], -xs[1]]);
  }

  // Two edges, the first one now read against the ring.
  lemma TwoRefit(ring: seq<Point>, cuts: seq<nat>, olds: seq<seq<Point>>, news: seq<seq<Point>>)
    requires SimpleRing(ring) && Rising(ring, cuts) && Stored(ring, cuts, olds) && AllRefit(olds, news) && |cuts| == 2
    requires NonEmpty(news) && |news| == 2 && news[0][0] != ring[cuts[0]]
    ensures |olds| == 2 && cuts[0] < cuts[1] < |ring| - 1 && ring[cuts[0]] != ring[cuts[1]]
    ensures news[0] != [] && news[1] != [] && news[0][0] == ring[cuts[1]]
    ensures Spans(news[0], ring[cuts[1]], ring[cuts[0]]) && Spans(news[1], ring[cuts[0]], ring[cuts[1]])
    ensures Runs.PathSum(ReadFrom(news[0], ring[cuts[1]])) == -Parts(ring, olds, news)[0]
    ensures Runs.PathSum(ReadFrom(news[1], ring[cuts[0]])) == -Parts(ring, olds, news)[1]
  {
    RefitAt(ring, cuts, olds, news, 0);
    RefitAt(ring, cuts, olds, news, 1);
    assert EndOf(cuts, 0) == cuts[1] && EndOf(cuts, 1) == cuts[0];
    hide Parts;
    hide Runs.PathSum;
    hide ReadFrom;
    hide Stored;
    hide AllRefit;
  }

  lemma SignTwice(ring: seq<Point>, stored: seq<Point>, x: real)
    ensures Sign(ring, stored) * (Sign(ring, stored) * x) == x
  {
    hide DirectedSegments;
  }

  lemma SumOne(xs: seq<real>)
    requires |xs| == 1
    ensures Sum(xs) == xs[0]
  {
    assert xs[..0] == [];
  }

  lemma RefitOne(ring: seq<Point>, olds: seq<seq<Point>>, news: seq<seq<Point>>)
    requires |olds| == |news| == 1 && NonEmpty(news) && NoRepeats(news[0])
    ensures Runs.PathSum(Rebuilt(news, 1)) == Sign(ring, olds[0]) * Sum(Parts(ring, olds, news))
  {
    hide *;
    RebuiltSingle(news);
    SumOne(Parts(ring, olds, news));
    SignTwice(ring, olds[0], Runs.PathSum(news[0]));
  }

  // The first of two edges starts at the ring's first corner exactly when the ring runs along it.
  lemma FirstOfTwo(ring: seq<Point>, cuts: seq<nat>, olds: seq<seq<Point>>, news: seq<seq<Point>>)
    requires SimpleRing(ring) && Rising(ring, cuts) && Stored(ring, cuts, olds) && AllRefit(olds, news) && |cuts| == 2
    ensures |olds| == |news| == 2 && news[0] != []
    ensures Sign(ring, olds[0]) == if news[0][0] == ring[cuts[0]] then 1.0 else -1.0
  {
    RefitPart(ring, cuts, olds, news, 0);
    var s, e := cuts[0], EndOf(cuts, 0);
    SectionSign(ring, s, e);
    CoverageEdges.SectionBeside(ring, s, e);
    assert ring[s] != ring[e];
    hide Sign;
    hide Section;
    hide SimpleRing;
    hide Stored;
  }

  // What new points of a ring's edges must keep: the ends of paths between two nodes.
  predicate Replaces(cuts: seq<nat>, olds: seq<seq<Point>>, news: seq<seq<Point>>) {
    && |olds| == |news| && NonEmpty(news)
    && if |cuts| >= 2 then AllRefit(olds, news) else forall m :: 0 <= m < |news| ==> NoRepeats(news[m])
  }

  // The direction a rebuilt ring has: its own with three edges or more, else that of its first edge.
  function TurnFactor(ring: seq<Point>, olds: seq<seq<Point>>): real {
    if |olds| >= 3 || olds == [] then 1.0 else Sign(ring, olds[0])
  }

  /**
   The area of a ring rebuilt from its edges with new points between the same ends is what
   the edges contribute; a ring of one or two edges runs as its first edge was stored.
   */
  lemma RefitArea(ring: seq<Point>, cuts: seq<nat>, olds: seq<seq<Point>>, news: seq<seq<Point>>)
    requires SimpleRing(ring) && Rising(ring, cuts) && Stored(ring, cuts, olds) && Replaces(cuts, olds, news)
    requires NonEmpty(news)
    ensures |olds| == |news|
    ensures Runs.PathSum(Rebuilt(news, |news|)) == TurnFactor(ring, olds) * Sum(Parts(ring, olds, news))
  {
    hide *;
    ReplacesParts(cuts, olds, news);
    StoredCount(ring, cuts, olds);
    TurnIs(ring, olds, Sum(Parts(ring, olds, news)));
    if |cuts| >= 2 { RefitPart(ring, cuts, olds, news, 0); }
    if |cuts| <= 1 {
      RefitOne(ring, olds, news);
    } else {
      if |cuts| == 2 { FirstOfTwo(ring, cuts, olds, news); }
      if |cuts| >= 3 || news[0][0] == ring[cuts[0]] {
        RefitForward(ring, cuts, olds, news);
      } else {
        RefitTwo(ring, cuts, olds, news);
      }
    }
  }

  lemma StoredCount(ring: seq<Point>, cuts: seq<nat>, olds: seq<seq<Point>>)
    requires Rising(ring, cuts) && Stored(ring, cuts, olds)
    ensures |olds| == if cuts == [] then 1 else |cuts|
  {
  }

  lemma TurnIs(ring: seq<Point>, olds: seq<seq<Point>>, b: real)
    ensures |olds| >= 3 ==> TurnFactor(ring, olds) * b == b
    ensures 0 < |olds| < 3 ==> TurnFactor(ring, olds) == Sign(ring, olds[0])
    ensures TurnFactor(ring, olds) == 1.0 ==> TurnFactor(ring, olds) * b == b
    ensures TurnFactor(ring, olds) == -1.0 ==> TurnFactor(ring, olds) * b == -b
  {
    hide Sign;
  }

  lemma ReplacesParts(cuts: seq<nat>, olds: seq<seq<Point>>, news: seq<seq<Point>>)
    requires Replaces(cuts, olds, news)
    ensures |olds| == |news| && (|cuts| >= 2 ==> AllRefit(olds, news))
    ensures |cuts| < 2 ==> forall m :: 0 <= m < |news| ==> NoRepeats(news[m])
  {
  }

  // ---- The area of the ring as given

  lemma RotatedSum(ring: seq<Point>, s: nat)
    requires SimpleRing(ring) && s < |ring| - 1
    ensures Runs.PathSum(Section(ring, s, s)) == Runs.PathSum(ring)
  {
    var a, b := ring[..s + 1], ring[s..];
    assert ring == Joined(a, b) by { assert ring == ring[..s + 1] + ring[s + 1..]; }
    assert Section(ring, s, s) == Joined(b, a);
    JoinedSum(a, b);
    JoinedSum(b, a);
  }

  lemma SignedSection(ring: seq<Point>, s: nat, e: nat, stored: seq<Point>)
    requires SimpleRing(ring) && s < |ring| - 1 && e < |ring| - 1
    requires stored == Section(ring, s, e) || stored == Reversed(Section(ring, s, e))
    ensures Sign(ring, stored) * Runs.PathSum(stored) == Runs.PathSum(Section(ring, s, e))
  {
    SectionSign(ring, s, e);
    ReversedSum(Section(ring, s, e));
  }

  lemma PieceEnds(ring: seq<Point>, cuts: seq<nat>, m: nat)
    requires SimpleRing(ring) && Rising(ring, cuts) && m < |cuts|
    ensures cuts[m] < |ring| && EndOf(cuts, m) < |ring| && |Pieces(ring, cuts)| == |cuts|
    ensures var q := Pieces(ring, cuts)[m]; |q| >= 2 && q[0] == ring[cuts[m]] && q[|q| - 1] == ring[EndOf(cuts, m)]
  {
    PieceAt(ring, cuts, m);
    CoverageEdges.SectionBeside(ring, cuts[m], EndOf(cuts, m));
  }

  lemma PieceMeets(ring: seq<Point>, cuts: seq<nat>, ps: seq<seq<Point>>, m: nat)
    requires SimpleRing(ring) && Rising(ring, cuts) && 0 < m < |cuts| && ps == Pieces(ring, cuts) && |ps| == |cuts|
    ensures MeetsBefore(ps, m)
  {
    hide *;
    PieceEnds(ring, cuts, m);
    PieceEnds(ring, cuts, m - 1);
    RingLength(ring);
    CutsRise(ring, cuts, m);
    MeetsFrom(ps, m);
  }

  lemma RingLength(ring: seq<Point>)
    requires SimpleRing(ring)
    ensures |ring| >= 2
  {
  }

  lemma MeetsFrom(ps: seq<seq<Point>>, m: nat)
    requires 0 < m < |ps| && |ps[m - 1]| > 0 && |ps[m]| > 0 && ps[m - 1][|ps[m - 1]| - 1] == ps[m][0]
    ensures MeetsBefore(ps, m)
  {
  }

  lemma PiecesChained(ring: seq<Point>, cuts: seq<nat>)
    requires SimpleRing(ring) && Rising(ring, cuts) && |cuts| >= 1
    ensures Chained(Pieces(ring, cuts))
  {
    var ps := Pieces(ring, cuts);
    assert |ps| == |cuts|;
    hide SimpleRing;
    hide Rising;
    hide Pieces;
    hide MeetsBefore;
    hide EndOf;
    forall m | 0 <= m < |ps| ensures |ps[m]| >= 2 { PieceEnds(ring, cuts, m); }
    forall m | 0 < m < |ps| ensures MeetsBefore(ps, m) { PieceMeets(ring, cuts, ps, m); }
  }

  lemma StoredPiece(ring: seq<Point>, cuts: seq<nat>, olds: seq<seq<Point>>, m: nat)
    requires SimpleRing(ring) && Rising(ring, cuts) && Stored(ring, cuts, olds) && |cuts| >= 1 && m < |cuts|
    ensures |olds| == |cuts| == |Pieces(ring, cuts)| && cuts[m] < |ring| - 1 && EndOf(cuts, m) < |ring| - 1
    ensures Pieces(ring, cuts)[m] == Section(ring, cuts[m], EndOf(cuts, m))
    ensures olds[m] == Section(ring, cuts[m], EndOf(cuts, m)) ||
      olds[m] == Reversed(Section(ring, cuts[m], EndOf(cuts, m)))
  {
    PieceAt(ring, cuts, m);
    assert SameEdge(Pieces(ring, cuts)[m], olds[m], cuts == []);
    hide Section;
    hide SimpleRing;
    hide Reversed;
  }

  lemma PartIsPiece(ring: seq<Point>, cuts: seq<nat>, olds: seq<seq<Point>>, m: nat)
    requires SimpleRing(ring) && Rising(ring, cuts) && Stored(ring, cuts, olds) && |cuts| >= 1 && m < |cuts|
    ensures |olds| == |cuts| == |Pieces(ring, cuts)|
    ensures Parts(ring, olds, olds)[m] == Runs.PathSum(Pieces(ring, cuts)[m])
  {
    hide *;
    StoredPiece(ring, cuts, olds, m);
    SignedSection(ring, cuts[m], EndOf(cuts, m), olds[m]);
  }

  lemma PartsArePieces(ring: seq<Point>, cuts: seq<nat>, olds: seq<seq<Point>>, ps: seq<seq<Point>>)
    requires SimpleRing(ring) && Rising(ring, cuts) && Stored(ring, cuts, olds) && |cuts| >= 1
    requires ps == Pieces(ring, cuts)
    ensures Parts(ring, olds, olds) == Sums(ps) && |ps| == |cuts|
  {
    hide *;
    PartIsPiece(ring, cuts, olds, 0);
    forall m | 0 <= m < |ps| ensures Parts(ring, olds, olds)[m] == Sums(ps)[m] {
      PartIsPiece(ring, cuts, olds, m);
    }
    assert Parts(ring, olds, olds) == Sums(ps);
  }

  lemma SplitArea(ring: seq<Point>, cuts: seq<nat>, olds: seq<seq<Point>>, ps: seq<seq<Point>>)
    requires SimpleRing(ring) && Rising(ring, cuts) && Stored(ring, cuts, olds) && |cuts| >= 1
    requires ps == Pieces(ring, cuts)
    requires cuts[0] < |ring| - 1
    ensures Sum(Parts(ring, olds, olds)) == Runs.PathSum(ring)
  {
    hide *;
    assert ps[..|ps|] == ps && Sums(ps)[..|ps|] == Sums(ps);
    PiecesJoin(ring, cuts);
    PiecesChained(ring, cuts);
    PartsArePieces(ring, cuts, olds, ps);
    JoinAllSum(ps, |ps|);
    RotatedSum(ring, cuts[0]);
  }

  lemma CycleArea(ring: seq<Point>, stored: seq<Point>)
    requires SimpleRing(ring) && SameCycle(ring, stored)
    ensures Sign(ring, stored) * Runs.PathSum(stored) == Runs.PathSum(ring)
  {
    var s: nat :| s < |ring| - 1 && (stored == Section(ring, s, s) || Reversed(stored) == Section(ring, s, s));
    ReversedTwice(stored);
    SignedSection(ring, s, s, stored);
    RotatedSum(ring, s);
  }

  /** With the edges as they were split off, their contributions make up the ring's area. */
  lemma OriginalArea(ring: seq<Point>, cuts: seq<nat>, olds: seq<seq<Point>>)
    requires SimpleRing(ring) && Rising(ring, cuts) && Stored(ring, cuts, olds)
    requires cuts == [] ==> |olds| == 1 && SimpleRing(olds[0])
    ensures Sum(Parts(ring, olds, olds)) == Runs.PathSum(ring)
  {
    hide Runs.PathSum;
    hide Sign;
    if cuts == [] {
      assert SameEdge(Pieces(ring, cuts)[0], olds[0], true);
      SegmentsMakeCycle(ring, olds[0]);
      CycleArea(ring, olds[0]);
      var xs := Parts(ring, olds, olds);
      assert xs[..0] == [];
      assert Sum(xs) == xs[0];
    } else {
      SplitArea(ring, cuts, olds, Pieces(ring, cuts));
    }
  }
}
