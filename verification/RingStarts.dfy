/**
 Where the line of an isolated ring starts: with a segment that some input line starts with,
 and with the least vertex among those.
 */
module RingStarts {
  import opened Planar
  import opened HalfEdges
  import opened RotationSystems
  import opened Chains
  import opened DissolvedLines
  import opened Dissolving

  // ---- On half-edges

  // The least start edge of a ring begins it; of an edge flagged both ways, only one end need count.
  ghost predicate StartsWell(r: Rotation, starts: set<HalfEdge>, c: seq<HalfEdge>)
    requires Paired(r)
  {
    RingLine(r, c) ==>
      |c| > 0 && c[0] in starts && forall f :: f in Both(r, c) && f in starts ==> NotBefore(r, starts, c[0], f)
  }

  ghost predicate NotBefore(r: Rotation, starts: set<HalfEdge>, s: HalfEdge, f: HalfEdge)
    requires f in r.sym
  {
    CompareTo(s.orig, f.orig) <= 0 || (r.sym[f] in starts && CompareTo(s.orig, r.sym[f].orig) <= 0)
  }

  ghost predicate AllStartWell(r: Rotation, starts: set<HalfEdge>, covers: seq<seq<HalfEdge>>) {
    Paired(r) && forall i :: 0 <= i < |covers| ==> StartsWell(r, starts, covers[i])
  }

  lemma OneMoreStartsWell(r: Rotation, starts: set<HalfEdge>, covers: seq<seq<HalfEdge>>, c: seq<HalfEdge>)
    requires AllStartWell(r, starts, covers) && Paired(r) && StartsWell(r, starts, c)
    ensures AllStartWell(r, starts, covers + [c])
  {
    hide StartsWell;
    hide Paired;
  }

  /** A ring drawn from the best start edge along it starts well. */
  lemma BestStartsWell(r: Rotation, starts: set<HalfEdge>, es: seq<HalfEdge>, cs: seq<HalfEdge>)
    requires Paired(r) && Good(r) && |cs| > 0 && BestStart(r, starts, es, cs[0])
    requires RingLine(r, es) && RingLine(r, cs) && cs[0] in Both(r, es)
    ensures StartsWell(r, starts, cs)
  {
    hide Good;
    hide RingLine;
    SameRing(r, es, cs);
    forall f | f in Both(r, cs) && f in starts ensures NotBefore(r, starts, cs[0], f) {
      var e := BothOneWay(r, es, f);
      assert r.sym[r.sym[f]] == f;
      assert StartOf(r, starts, e) in starts;
    }
  }

  // A line that ends at a node is no ring.
  lemma NodeStartsWell(r: Rotation, starts: set<HalfEdge>, es: seq<HalfEdge>)
    requires Paired(r) && |es| > 0 && es[|es| - 1] in r.sym && !Passes(r, es[|es| - 1])
    ensures StartsWell(r, starts, es)
  {
  }

  lemma NoneStart(r: Rotation, starts: set<HalfEdge>)
    requires Paired(r)
    ensures AllStartWell(r, starts, [])
  {
  }

  // ---- On points

  ghost function StartPairs(r: Rotation, starts: set<HalfEdge>): set<(Point, Point)> {
    set e | e in starts && e in r.sym :: (e.orig, r.sym[e].orig)
  }

  // The first segment of a line that has length.
  function FirstSegment(line: seq<Point>): set<(Point, Point)> {
    if |line| < 2 then {}
    else
      var n := |line| - 1;
      var s := FirstSegment(line[..n]);
      if s != {} || line[n - 1] == line[n] then s else {(line[n - 1], line[n])}
  }

  function FirstSegments(lines: seq<seq<Point>>): set<(Point, Point)> {
    if lines == [] then {} else FirstSegments(lines[..|lines| - 1]) + FirstSegment(lines[|lines| - 1])
  }

  // v is to the left of p, or upright with it and no higher.
  predicate NotAfter(v: Point, p: Point) {
    v.x < p.x || (v.x == p.x && v.y <= p.y)
  }

  // The ring starts with a first segment, at a vertex no greater than other first segments of it allow.
  predicate StartsLeast(starts: set<(Point, Point)>, line: seq<Point>) {
    && |line| >= 2 && (line[0], line[1]) in starts
    && forall s :: s in starts && s in LineSegments(line) ==> AtMost(starts, line[0], s)
  }

  predicate AtMost(starts: set<(Point, Point)>, v: Point, s: (Point, Point)) {
    NotAfter(v, s.0) || ((s.1, s.0) in starts && NotAfter(v, s.1))
  }

  lemma {:induction false} SegmentIndex(line: seq<Point>, s: (Point, Point)) returns (i: nat)
    requires s in LineSegments(line)
    ensures i + 1 < |line| && (s == (line[i], line[i + 1]) || s == (line[i + 1], line[i]))
  {
    var n := |line| - 1;
    if s in SegmentPair(line[n - 1], line[n]) {
      i := n - 1;
    } else {
      i := SegmentIndex(line[..n], s);
    }
  }

  lemma PathSegment(r: Rotation, es: seq<HalfEdge>, i: nat)
    requires Paired(r) && Good(r) && Chain(r, es) && i < |es|
    ensures forall e :: e in es ==> e in r.sym
    ensures PathOf(r, es)[i] == es[i].orig && PathOf(r, es)[i + 1] == r.sym[es[i]].orig
  {
    PathPoint(r, es, i);
    assert es[i] in es;
    if i + 1 < |es| {
      PathPoint(r, es, i + 1);
      ChainJoins(r, es, i + 1);
      EdgeFacts(r, es[i]);
    }
    hide Good;
    hide PathOf;
  }

  // A start edge whose segment the path has is an edge of the path, one way or the other.
  lemma StartOnPath(r: Rotation, es: seq<HalfEdge>, f: HalfEdge)
    requires Paired(r) && Good(r) && Chain(r, es) && f in r.sym && (forall e :: e in es ==> e in r.sym)
    requires (f.orig, r.sym[f].orig) in LineSegments(PathOf(r, es))
    ensures f in Both(r, es)
  {
    var i := SegmentIndex(PathOf(r, es), (f.orig, r.sym[f].orig));
    PathSegment(r, es, i);
    var e := es[i];
    assert e in es;
    assert r.sym[r.sym[e]] == e;
    if f.orig == e.orig {
      assert Parallel(r, f, e);
    } else {
      assert Parallel(r, f, r.sym[e]);
    }
  }

  /** A ring that starts well on half-edges does so on points. */
  lemma RingStartsLeast(r: Rotation, starts: set<HalfEdge>, c: seq<HalfEdge>)
    requires Paired(r) && Good(r) && RingLine(r, c) && StartsWell(r, starts, c) && forall e :: e in c ==> e in r.sym
    ensures StartsLeast(StartPairs(r, starts), PathOf(r, c))
  {
    var line, pairs := PathOf(r, c), StartPairs(r, starts);
    hide Good;
    PathSegment(r, c, 0);
    assert c[0] in c;
    assert (c[0].orig, r.sym[c[0]].orig) in pairs;
    forall s | s in pairs && s in LineSegments(line) ensures AtMost(pairs, line[0], s) {
      var f :| f in starts && f in r.sym && (f.orig, r.sym[f].orig) == s;
      StartOnPath(r, c, f);
      assert NotBefore(r, starts, c[0], f);
      if r.sym[f] in starts { assert (r.sym[f].orig, r.sym[r.sym[f]].orig) in pairs; }
    }
  }
}
