/**
 A ring rebuilt from edges that touch only at their ends is simple, and its segments are
 those of the edges.
 */
module RebuiltRings {
  import opened Planar
  import opened CoordinateLists
  import opened CoverageRings
  import opened CoverageSections
  import opened CoverageKeys
  import opened CoveragePlanarity
  import opened RingSplits
  import opened RingRebuilds

  // ---- Segments

  lemma JoinedSegments(a: seq<Point>, b: seq<Point>)
    requires a != [] && b != [] && a[|a| - 1] == b[0]
    ensures Segments(Joined(a, b)) == Segments(a) + Segments(b)
  {
    var c, n := Joined(a, b), |a| - 1;
    forall t | 0 <= t < n ensures SegmentOf(c, t) == SegmentOf(a, t) {}
    forall t | 0 <= t < |b| - 1 ensures SegmentOf(c, n + t) == SegmentOf(b, t) {}
    forall s | s in Segments(c) ensures s in Segments(a) + Segments(b) {
      var t :| 0 <= t < |c| - 1 && SegmentOf(c, t) == s;
      if t < n { assert SegmentOf(a, t) in Segments(a); } else { assert SegmentOf(b, t - n) in Segments(b); }
    }
    forall s | s in Segments(a) ensures s in Segments(c) {
      var t :| 0 <= t < |a| - 1 && SegmentOf(a, t) == s;
      assert SegmentOf(c, t) in Segments(c);
    }
    forall s | s in Segments(b) ensures s in Segments(c) {
      var t :| 0 <= t < |b| - 1 && SegmentOf(b, t) == s;
      assert SegmentOf(c, n + t) in Segments(c);
    }
  }

  function AllSegments(ps: seq<seq<Point>>): set<(Point, Point)> {
    if ps == [] then {} else AllSegments(ps[..|ps| - 1]) + Segments(ps[|ps| - 1])
  }

  lemma {:induction false} InAllSegments(ps: seq<seq<Point>>, s: (Point, Point))
    ensures s in AllSegments(ps) <==> exists m :: 0 <= m < |ps| && s in Segments(ps[m])
  {
    if ps != [] {
      var n := |ps| - 1;
      InAllSegments(ps[..n], s);
      if s in AllSegments(ps[..n]) {
        var m :| 0 <= m < n && s in Segments(ps[..n][m]);
        assert s in Segments(ps[m]);
      }
      if exists m :: 0 <= m < |ps| && s in Segments(ps[m]) {
        var m :| 0 <= m < |ps| && s in Segments(ps[m]);
        if m < n { assert s in Segments(ps[..n][m]); }
      }
    }
  }

  // ---- Closed chains of paths

  predicate VisitsOnce(p: seq<Point>) {
    forall x, y :: 0 <= x < y < |p| ==> p[x] != p[y]
  }

  predicate IsEndIndex(p: seq<Point>, x: nat) {
    x == 0 || x + 1 == |p|
  }

  // Paths p and q have at most ends in common.
  predicate TouchAtEnds(p: seq<Point>, q: seq<Point>) {
    forall x, y :: 0 <= x < |p| && 0 <= y < |q| && p[x] == q[y] ==> IsEndIndex(p, x) && IsEndIndex(q, y)
  }

  // Path m runs from corner m to the next, without repeating a point.
  predicate PathAt(ps: seq<seq<Point>>, corners: seq<Point>, m: nat) {
    && m < |ps| == |corners| && |ps[m]| >= 2 && VisitsOnce(ps[m])
    && ps[m][0] == corners[m] && ps[m][|ps[m]| - 1] == corners[NextCorner(|corners|, m)]
  }

  predicate PathCycle(ps: seq<seq<Point>>, corners: seq<Point>) {
    && |ps| == |corners| >= 2 && VisitsOnce(corners)
    && (forall m {:trigger ps[m]} :: 0 <= m < |ps| ==> PathAt(ps, corners, m))
    && (forall m, n :: 0 <= m < n < |ps| ==> TouchAtEnds(ps[m], ps[n]))
  }

  // The first n paths joined: a path itself, made of their points.
  ghost predicate JoinedPath(ps: seq<seq<Point>>, corners: seq<Point>, n: nat, j: seq<Point>) {
    && 0 < n < |corners| && |ps| == |corners| && |j| > n
    && VisitsOnce(j) && j[0] == corners[0] && j[|j| - 1] == corners[n]
    && (forall v :: v in j ==> exists m :: 0 <= m < n && v in ps[m])
    && Segments(j) == AllSegments(ps[..n])
  }

  // A point of path n, its start apart, is on no earlier path unless it is where the cycle closes.
  lemma NewPoint(ps: seq<seq<Point>>, corners: seq<Point>, n: nat, y: nat, m: nat)
    requires PathCycle(ps, corners) && m < n < |ps| && 0 < y < |ps[n]| && ps[n][y] in ps[m]
    ensures n + 1 == |ps| && y + 1 == |ps[n]|
  {
    var x :| 0 <= x < |ps[m]| && ps[m][x] == ps[n][y];
    assert PathAt(ps, corners, m) && PathAt(ps, corners, n);
    assert TouchAtEnds(ps[m], ps[n]);
    assert IsEndIndex(ps[m], x) && IsEndIndex(ps[n], y);
  }

  lemma VisitsOnceAppend(a: seq<Point>, b: seq<Point>)
    requires VisitsOnce(a) && VisitsOnce(b) && forall v :: v in a ==> v !in b
    ensures VisitsOnce(a + b)
  {
    var c := a + b;
    forall x, y | 0 <= x < y < |c| ensures c[x] != c[y] {
      if x < |a| <= y { assert a[x] in a && b[y - |a|] in b; }
    }
  }

  lemma VisitsOncePart(p: seq<Point>, i: nat, k: nat)
    requires VisitsOnce(p) && i <= k <= |p|
    ensures VisitsOnce(p[i..k])
  {
  }

  // The inner points of path n, and its end unless the cycle closes, are new.
  lemma TailIsNew(ps: seq<seq<Point>>, corners: seq<Point>, n: nat, j: seq<Point>, k: nat)
    requires PathCycle(ps, corners) && JoinedPath(ps, corners, n, j) && n < |ps| && 1 <= k <= |ps[n]|
    requires n + 1 == |ps| ==> k < |ps[n]|
    ensures VisitsOnce(j + ps[n][1..k])
  {
    var p := ps[n];
    assert PathAt(ps, corners, n);
    VisitsOncePart(p, 1, k);
    forall v | v in j ensures v !in p[1..k] {
      if v in p[1..k] {
        var y :| 0 <= y < k - 1 && p[1..k][y] == v;
        assert p[y + 1] == v;
        var m :| 0 <= m < n && v in ps[m];
        NewPoint(ps, corners, n, y + 1, m);
      }
    }
    hide *;
    VisitsOnceAppend(j, p[1..k]);
  }

  lemma FirstJoined(ps: seq<seq<Point>>, corners: seq<Point>)
    requires PathCycle(ps, corners)
    ensures JoinedPath(ps, corners, 1, JoinAll(ps[..1]))
  {
    hide *;
    CycleSize(ps, corners);
    PathEnds(ps, corners, 0);
    JoinOne(ps);
    AllSegmentsStep(ps, 0);
    FirstPathJoined(ps, corners);
  }

  lemma FirstPathJoined(ps: seq<seq<Point>>, corners: seq<Point>)
    requires |ps| == |corners| >= 2 && |ps[0]| >= 2 && VisitsOnce(ps[0])
    requires ps[0][0] == corners[0] && ps[0][|ps[0]| - 1] == corners[1] && Segments(ps[0]) == AllSegments(ps[..1])
    ensures JoinedPath(ps, corners, 1, ps[0])
  {
    forall v | v in ps[0] ensures exists m :: 0 <= m < 1 && v in ps[m] {
      assert 0 <= 0 < 1 && v in ps[0];
    }
    hide Segments;
    hide AllSegments;
    hide VisitsOnce;
  }

  lemma NextJoined(ps: seq<seq<Point>>, corners: seq<Point>, n: nat, j: seq<Point>)
    requires PathCycle(ps, corners) && JoinedPath(ps, corners, n, j) && n + 1 < |ps|
    ensures JoinedPath(ps, corners, n + 1, Joined(j, ps[n]))
  {
    var p := ps[n];
    assert PathAt(ps, corners, n);
    JoinedTail(j, p);
    assert p[1..|p|] == p[1..];
    TailIsNew(ps, corners, n, j, |p|);
    JoinedSegments(j, p);
    assert ps[..n + 1][..n] == ps[..n];
    var j' := j + p[1..];
    hide Segments;
    hide VisitsOnce;
    hide TouchAtEnds;
    forall v | v in j' ensures exists m :: 0 <= m < n + 1 && v in ps[m] {
      if v in j {
        var m :| 0 <= m < n && v in ps[m];
      } else {
        assert v in p[1..];
        InTail(p, v);
      }
    }
  }

  lemma InTail(p: seq<Point>, v: Point)
    requires |p| >= 1 && v in p[1..]
    ensures v in p
  {
  }

  lemma {:induction false} JoinedUpTo(ps: seq<seq<Point>>, corners: seq<Point>, n: nat)
    requires PathCycle(ps, corners) && 0 < n < |ps|
    ensures JoinedPath(ps, corners, n, JoinAll(ps[..n]))
  {
    if n == 1 {
      FirstJoined(ps, corners);
    } else {
      hide *;
      JoinedUpTo(ps, corners, n - 1);
      JoinStep(ps, n - 1);
      NextJoined(ps, corners, n - 1, JoinAll(ps[..n - 1]));
    }
  }

  lemma AllSegmentsStep(ps: seq<seq<Point>>, n: nat)
    requires n < |ps|
    ensures AllSegments(ps[..n + 1]) == AllSegments(ps[..n]) + Segments(ps[n]) && AllSegments(ps[..0]) == {}
  {
    assert ps[..n + 1][..n] == ps[..n];
  }

  lemma CycleSize(ps: seq<seq<Point>>, corners: seq<Point>)
    requires PathCycle(ps, corners)
    ensures |ps| == |corners| >= 2
  {
  }

  lemma PathEnds(ps: seq<seq<Point>>, corners: seq<Point>, n: nat)
    requires PathCycle(ps, corners) && n < |ps|
    ensures |ps| == |corners| >= 2 && |ps[n]| >= 2 && VisitsOnce(ps[n])
    ensures ps[n][0] == corners[n] && ps[n][|ps[n]| - 1] == corners[if n + 1 < |ps| then n + 1 else 0]
  {
    assert PathAt(ps, corners, n);
  }

  lemma JoinedParts(ps: seq<seq<Point>>, corners: seq<Point>, n: nat, j: seq<Point>)
    requires JoinedPath(ps, corners, n, j)
    ensures 0 < n < |corners| == |ps| && |j| > n && j[0] == corners[0] && j[|j| - 1] == corners[n]
    ensures Segments(j) == AllSegments(ps[..n])
  {
  }

  lemma JoinOne(ps: seq<seq<Point>>)
    requires ps != []
    ensures JoinAll(ps[..1]) == ps[0]
  {
    JoinStep(ps, 0);
    assert ps[..0] == [];
    JoinedNothing(ps[0]);
  }

  /** A closed chain of paths joins to a simple ring with the segments of the paths. */
  lemma CycleIsSimple(ps: seq<seq<Point>>, corners: seq<Point>)
    requires PathCycle(ps, corners) && (|ps| == 2 ==> |ps[0]| >= 3 || |ps[1]| >= 3)
    ensures SimpleRing(JoinAll(ps)) && Segments(JoinAll(ps)) == AllSegments(ps)
  {
    hide *;
    CycleSize(ps, corners);
    var n := |ps| - 1;
    var j, p := JoinAll(ps[..n]), ps[n];
    PathEnds(ps, corners, n);
    JoinedUpTo(ps, corners, n);
    JoinedParts(ps, corners, n, j);
    JoinStep(ps, n);
    assert ps[..n + 1] == ps;
    JoinedTail(j, p);
    TailIsNew(ps, corners, n, j, |p| - 1);
    JoinedSegments(j, p);
    AllSegmentsStep(ps, n);
    JoinOne(ps);
    RingFromPath(j, p);
  }

  lemma RingFromPath(j: seq<Point>, p: seq<Point>)
    requires |j| >= 1 && |p| >= 2 && |j| + |p| >= 5 && p[|p| - 1] == j[0] && VisitsOnce(j + p[1..|p| - 1])
    ensures SimpleRing(j + p[1..])
  {
    var ring, path := j + p[1..], j + p[1..|p| - 1];
    forall x, y | 0 <= x < y < |ring| - 1 ensures ring[x] != ring[y] {
      assert path[x] == ring[x] && path[y] == ring[y];
    }
  }

  // ---- Edges that fit the corners of a ring

  lemma ReadDistinct(c: seq<Point>, a: Point, b: Point)
    requires Spans(c, a, b) && OnceExceptEnds(c)
    ensures VisitsOnce(ReadFrom(c, a)) && Segments(ReadFrom(c, a)) == Segments(c)
  {
    SegmentsReversed(c);
    ReversedOnce(c);
    ReadEnds(c, a, b);
    hide Segments;
  }

  lemma TouchReversed(p: seq<Point>, q: seq<Point>)
    requires TouchAtEnds(p, q)
    ensures TouchAtEnds(q, p) && TouchAtEnds(Reversed(p), q)
  {
    var r := Reversed(p);
    forall x, y | 0 <= x < |r| && 0 <= y < |q| && r[x] == q[y] ensures IsEndIndex(r, x) && IsEndIndex(q, y) {
      assert p[|p| - 1 - x] == q[y];
    }
    forall x, y | 0 <= x < |q| && 0 <= y < |p| && q[x] == p[y] ensures IsEndIndex(q, x) && IsEndIndex(p, y) {
      assert p[y] == q[x];
    }
  }

  lemma TouchRead(c: seq<Point>, a: Point, d: seq<Point>, b: Point)
    requires c != [] && d != [] && TouchAtEnds(c, d)
    ensures TouchAtEnds(ReadFrom(c, a), ReadFrom(d, b))
  {
    TouchReversed(c, d);
    hide TouchAtEnds;
    TouchReversed(d, c);
    TouchReversed(d, ReadFrom(c, a)) by { if c[0] != a { TouchReversed(Reversed(c), d); } }
    TouchReversed(ReadFrom(d, b), ReadFrom(c, a));
  }

  // The edges repeat no point, except that one may close, and touch each other at ends only.
  predicate TouchingEdges(coords: seq<seq<Point>>) {
    && (forall m :: 0 <= m < |coords| ==> OnceExceptEnds(coords[m]))
    && (forall m, n :: 0 <= m < n < |coords| ==> TouchAtEnds(coords[m], coords[n]))
  }

  lemma EdgeTouches(coords: seq<seq<Point>>, m: nat, n: nat)
    requires TouchingEdges(coords) && m < |coords| && n < |coords|
    ensures OnceExceptEnds(coords[m]) && (m < n ==> TouchAtEnds(coords[m], coords[n]))
  {
    hide OnceExceptEnds;
    hide TouchAtEnds;
  }

  lemma ReadPathAt(coords: seq<seq<Point>>, corners: seq<Point>, m: nat)
    requires Fits(coords, corners) && NonEmpty(coords) && TouchingEdges(coords) && m < |coords|
    ensures PathAt(AllReadFrom(coords, corners), corners, m)
    ensures Segments(AllReadFrom(coords, corners)[m]) == Segments(coords[m])
    ensures |AllReadFrom(coords, corners)[m]| == |coords[m]|
  {
    hide TouchingEdges;
    hide Segments;
    ReadAt(coords, corners, m);
    SpansAt(coords, corners, m);
    EdgeTouches(coords, m, m);
    hide Spans;
    hide OnceExceptEnds;
    hide Fits;
    hide VisitsOnce;
    ReadDistinct(coords[m], corners[m], corners[NextCorner(|corners|, m)]);
  }

  lemma ReadCycle(coords: seq<seq<Point>>, corners: seq<Point>)
    requires Fits(coords, corners) && NonEmpty(coords) && TouchingEdges(coords)
    ensures PathCycle(AllReadFrom(coords, corners), corners)
    ensures forall s :: s in AllSegments(AllReadFrom(coords, corners)) <==>
      exists m :: 0 <= m < |coords| && s in Segments(coords[m])
  {
    var ps := AllReadFrom(coords, corners);
    assert |ps| == |coords| == |corners| >= 2 && VisitsOnce(corners);
    hide *;
    forall m | 0 <= m < |ps| ensures PathAt(ps, corners, m) && Segments(ps[m]) == Segments(coords[m]) {
      ReadPathAt(coords, corners, m);
    }
    forall m, n | 0 <= m < n < |ps| ensures TouchAtEnds(ps[m], ps[n]) {
      ReadAt(coords, corners, m);
      ReadAt(coords, corners, n);
      EdgeTouches(coords, m, n);
      TouchRead(coords[m], corners[m], coords[n], corners[n]);
    }
    CycleFrom(ps, corners);
    forall s ensures s in AllSegments(ps) <==> exists m :: 0 <= m < |coords| && s in Segments(coords[m]) {
      InAllSegments(ps, s);
    }
  }

  lemma CycleFrom(ps: seq<seq<Point>>, corners: seq<Point>)
    requires |ps| == |corners| >= 2 && VisitsOnce(corners)
    requires forall m :: 0 <= m < |ps| ==> PathAt(ps, corners, m)
    requires forall m, n :: 0 <= m < n < |ps| ==> TouchAtEnds(ps[m], ps[n])
    ensures PathCycle(ps, corners)
  {
    hide PathAt;
    hide TouchAtEnds;
    hide VisitsOnce;
  }

  // s is a segment of one of the edges.
  ghost predicate InSome(coords: seq<seq<Point>>, s: (Point, Point)) {
    exists m :: 0 <= m < |coords| && s in Segments(coords[m])
  }

  /** Edges that fit the corners of a ring and touch at ends only rebuild to a simple ring. */
  lemma RebuiltIsSimple(coords: seq<seq<Point>>, corners: seq<Point>)
    requires Fits(coords, corners) && NonEmpty(coords) && TouchingEdges(coords) && |coords| == |corners| >= 2
    requires |coords| >= 3 || (coords[0][0] == corners[0] && (|coords[0]| >= 3 || |coords[1]| >= 3))
    ensures SimpleRing(Rebuilt(coords, |coords|))
    ensures forall s :: s in Segments(Rebuilt(coords, |coords|)) <==> InSome(coords, s)
  {
    var ps, k := AllReadFrom(coords, corners), |coords|;
    assert ps[..k] == ps;
    hide Rebuilt;
    hide Fits;
    hide TouchingEdges;
    hide Segments;
    hide SimpleRing;
    RebuiltReads(coords, corners, k);
    ReadCycle(coords, corners);
    ReadPathAt(coords, corners, 0);
    ReadPathAt(coords, corners, 1);
    hide AllReadFrom;
    hide PathCycle;
    CycleIsSimple(ps, corners);
  }
}
