/**
 Rings rebuilt from edges whose simplified lines touch only at their ends: they are again a
 planar coverage of simple rings, with the same edges between the same rings.
 */
module SimplifiedCoverages {
  import opened Planar
  import opened CoordinateLists
  import opened CoverageRings
  import opened CoverageSections
  import opened CoverageKeys
  import opened RingSplits
  import opened RingRebuilds
  import opened EdgeTables
  import opened CoverageAreas
  import opened RebuiltAreas
  import opened CoverageTotals
  import opened CoveragePlanarity
  import opened RebuiltRings
  import P = Pasch
  import A = Arrangement
  import T = TpvwSimplifier
  import Tpvw

  // ---- One line of an arranged set

  function Drawing(ls: seq<A.Line>, a: nat): seq<Point>
    requires a < |ls|
  {
    Tpvw.Output(ls[a])
  }

  lemma DrawingIs(ls: seq<A.Line>, a: nat)
    requires A.Arranged(ls) && a < |ls|
    ensures ls[a].closed ==> |ls[a].pts| >= 3 && Drawing(ls, a) == ls[a].pts + [ls[a].pts[0]]
    ensures !ls[a].closed ==> |ls[a].pts| >= 2 && Drawing(ls, a) == ls[a].pts
  {
    T.OutputIsLine(ls, a);
    assert A.WellFormed(ls[a]);
    hide A.SegmentsApart;
    hide A.VerticesApart;
    hide Tpvw.Output;
  }

  // The slot of the line that a point of its drawing comes from.
  function SlotOf(l: A.Line, x: nat): nat {
    if l.closed && x == |l.pts| then 0 else x
  }

  lemma DrawingPoint(ls: seq<A.Line>, a: nat, x: nat)
    requires A.Arranged(ls) && a < |ls| && x < |Drawing(ls, a)|
    ensures A.Slot(ls, a, SlotOf(ls[a], x)) && Drawing(ls, a)[x] == A.At(ls, a, SlotOf(ls[a], x))
    ensures A.FixedSlot(ls[a], SlotOf(ls[a], x)) ==> IsEndIndex(Drawing(ls, a), x)
    ensures |Drawing(ls, a)| == if ls[a].closed then |ls[a].pts| + 1 else |ls[a].pts|
  {
    DrawingIs(ls, a);
    hide A.Arranged;
    hide Drawing;
  }

  // Points at different slots are the same only when both are fixed.
  lemma SlotsDiffer(ls: seq<A.Line>, a: nat, k: nat, b: nat, m: nat)
    requires A.Arranged(ls) && A.Slot(ls, a, k) && A.Slot(ls, b, m) && (a, k) != (b, m)
    requires A.At(ls, a, k) == A.At(ls, b, m)
    ensures A.FixedSlot(ls[a], k) && A.FixedSlot(ls[b], m)
  {
    hide A.SegmentsApart;
    hide A.FixedSlot;
  }

  lemma FixedOnce(ls: seq<A.Line>, a: nat, k: nat, m: nat)
    requires A.Arranged(ls) && A.Slot(ls, a, k) && A.Slot(ls, a, m) && A.FixedSlot(ls[a], k) && A.FixedSlot(ls[a], m)
    requires A.At(ls, a, k) == A.At(ls, a, m)
    ensures k == m
  {
    assert A.WellFormed(ls[a]);
    hide A.SegmentsApart;
    hide A.VerticesApart;
  }

  lemma SlotsOnce(ls: seq<A.Line>, a: nat, k: nat, m: nat)
    requires A.Arranged(ls) && A.Slot(ls, a, k) && A.Slot(ls, a, m) && A.At(ls, a, k) == A.At(ls, a, m)
    ensures k == m
  {
    if k != m {
      SlotsDiffer(ls, a, k, a, m);
      FixedOnce(ls, a, k, m);
    }
  }

  /** A drawn line visits no point twice, except that it closes; a closed one is a simple ring. */
  lemma DrawnOnce(ls: seq<A.Line>, a: nat)
    requires A.Arranged(ls) && a < |ls|
    ensures |Drawing(ls, a)| >= 2 && OnceExceptEnds(Drawing(ls, a))
    ensures Drawing(ls, a)[0] == Drawing(ls, a)[|Drawing(ls, a)| - 1] <==> ls[a].closed
    ensures ls[a].closed ==> SimpleRing(Drawing(ls, a))
  {
    var d, l := Drawing(ls, a), ls[a];
    DrawingIs(ls, a);
    hide A.Arranged;
    hide Drawing;
    forall x, y | 0 <= x < y < |d| && d[x] == d[y] ensures x == 0 && y == |d| - 1 && l.closed {
      DrawingPoint(ls, a, x);
      DrawingPoint(ls, a, y);
      SlotsOnce(ls, a, SlotOf(l, x), SlotOf(l, y));
    }
  }

  /** Different drawn lines touch at ends only. */
  lemma DrawnTouch(ls: seq<A.Line>, a: nat, b: nat)
    requires A.Arranged(ls) && a < |ls| && b < |ls| && a != b
    ensures TouchAtEnds(Drawing(ls, a), Drawing(ls, b))
  {
    var d, e := Drawing(ls, a), Drawing(ls, b);
    hide A.Arranged;
    hide Drawing;
    forall x, y | 0 <= x < |d| && 0 <= y < |e| && d[x] == e[y] ensures IsEndIndex(d, x) && IsEndIndex(e, y) {
      DrawingPoint(ls, a, x);
      DrawingPoint(ls, b, y);
      SlotsDiffer(ls, a, SlotOf(ls[a], x), b, SlotOf(ls[b], y));
    }
  }

  // Segment t of the drawing is the segment of the line at slot t.
  lemma DrawingSegment(ls: seq<A.Line>, a: nat, t: nat)
    requires A.Arranged(ls) && a < |ls| && t + 1 < |Drawing(ls, a)|
    ensures A.Seg(ls, a, t) && A.At(ls, a, t) == Drawing(ls, a)[t] && A.SegEnd(ls, a, t) == Drawing(ls, a)[t + 1]
  {
    DrawingIs(ls, a);
    hide A.Arranged;
    hide Drawing;
  }

  lemma SlotSegmentsApart(ls: seq<A.Line>, a: nat, t: nat, b: nat, u: nat)
    requires A.Arranged(ls) && A.Seg(ls, a, t) && A.Seg(ls, b, u) && (a, t) != (b, u)
    ensures P.MeetOnlyAtEnds(A.At(ls, a, t), A.SegEnd(ls, a, t), A.At(ls, b, u), A.SegEnd(ls, b, u))
  {
    hide A.VerticesApart;
    hide P.MeetOnlyAtEnds;
  }

  lemma Midpoint(a: Point, b: Point)
    requires a != b
    ensures exists x :: OnSegment(x, a, b) && x != a && x != b
  {
    var x := Point((a.x + b.x) / 2.0, (a.y + b.y) / 2.0);
    assert OnSegment(x, a, b);
  }

  // A segment with two ends is not apart from itself.
  lemma NotApartFromItself(s: (Point, Point))
    requires s.0 != s.1
    ensures !Apart(s, s)
  {
    Midpoint(s.0, s.1);
  }

  /** Segments of drawn lines at different places are different, and apart. */
  lemma DrawnSegments(ls: seq<A.Line>, a: nat, t: nat, b: nat, u: nat)
    requires A.Arranged(ls) && a < |ls| && b < |ls| && t + 1 < |Drawing(ls, a)| && u + 1 < |Drawing(ls, b)|
    requires (a, t) != (b, u)
    ensures Apart(SegmentOf(Drawing(ls, a), t), SegmentOf(Drawing(ls, b), u))
    ensures SegmentOf(Drawing(ls, a), t) != SegmentOf(Drawing(ls, b), u)
  {
    var d, e := Drawing(ls, a), Drawing(ls, b);
    DrawingSegment(ls, a, t);
    DrawingSegment(ls, b, u);
    SlotSegmentsApart(ls, a, t, b, u);
    A.SegmentProper(ls, a, t);
    hide A.Arranged;
    hide Drawing;
    hide A.Seg;
    hide P.MeetOnlyAtEnds;
    ApartEitherWay(d[t], d[t + 1], e[u], e[u + 1]);
    NotApartFromItself(SegmentOf(d, t));
  }

  // Segments of two drawn lines are the same only in one place, and otherwise apart.
  lemma DrawnSegmentPair(ls: seq<A.Line>, a: nat, b: nat, s: (Point, Point), t: (Point, Point))
    requires A.Arranged(ls) && a < |ls| && b < |ls| && s in Segments(Drawing(ls, a)) && t in Segments(Drawing(ls, b))
    ensures s == t ==> a == b
    ensures s != t ==> Apart(s, t)
  {
    var d, e := Drawing(ls, a), Drawing(ls, b);
    var x :| 0 <= x < |d| - 1 && SegmentOf(d, x) == s;
    var y :| 0 <= y < |e| - 1 && SegmentOf(e, y) == t;
    hide *;
    if (a, x) != (b, y) { DrawnSegments(ls, a, x, b, y); }
  }

  // ---- The edges of a coverage, drawn

  ghost predicate DrawnAs(rec: Record, pts: seq<Point>, ls: seq<A.Line>, a: nat) {
    && a < |ls| && pts == Drawing(ls, a)
    && |rec.pts| >= 2 && (ls[a].closed <==> rec.pts[0] == rec.pts[|rec.pts| - 1])
    && forall p :: p in pts ==> p in rec.pts
  }

  // Every edge has the points of a line of its own, closed when the edge was.
  ghost predicate Drawn(table: map<Key, Record>, cur: map<Key, seq<Point>>, ls: seq<A.Line>, at: map<Key, nat>) {
    && A.Arranged(ls) && cur.Keys == table.Keys && at.Keys == table.Keys
    && (forall k {:trigger cur[k]} :: k in table ==> DrawnAs(table[k], cur[k], ls, at[k]))
    && (forall k, k' :: k in table && k' in table && at[k] == at[k'] ==> k == k')
  }

  lemma DrawnAt(table: map<Key, Record>, cur: map<Key, seq<Point>>, ls: seq<A.Line>, at: map<Key, nat>, k: Key)
    requires Drawn(table, cur, ls, at) && k in table
    ensures A.Arranged(ls) && k in cur && k in at && at[k] < |ls| && cur[k] == Drawing(ls, at[k])
    ensures |table[k].pts| >= 2 && (ls[at[k]].closed <==> table[k].pts[0] == table[k].pts[|table[k].pts| - 1])
    ensures forall p :: p in cur[k] ==> p in table[k].pts
  {
    assert cur[k] == cur[k];
    hide A.Arranged;
    hide Drawing;
  }

  lemma DrawnApart(table: map<Key, Record>, cur: map<Key, seq<Point>>, ls: seq<A.Line>, at: map<Key, nat>, k: Key,
                   k': Key)
    requires Drawn(table, cur, ls, at) && k in table && k' in table
    ensures k in at && k' in at && (at[k] == at[k'] ==> k == k')
  {
    hide A.Arranged;
    hide DrawnAs;
  }

  /** Segments of the drawn edges: the same only on the same edge, and otherwise apart. */
  lemma EdgeSegmentPair(table: map<Key, Record>, cur: map<Key, seq<Point>>, ls: seq<A.Line>, at: map<Key, nat>,
                        k: Key, k': Key, s: (Point, Point), t: (Point, Point))
    requires Drawn(table, cur, ls, at) && k in table && k' in table && k in cur && k' in cur
    requires s in Segments(cur[k]) && t in Segments(cur[k'])
    ensures s == t ==> k == k'
    ensures s != t ==> Apart(s, t)
  {
    hide *;
    DrawnAt(table, cur, ls, at, k);
    DrawnAt(table, cur, ls, at, k');
    DrawnApart(table, cur, ls, at, k, k');
    DrawnSegmentPair(ls, at[k], at[k'], s, t);
  }

  // ---- One ring

  // The edges of ring n as they are now.
  ghost predicate RingEdges(c: Coverage, cuts: seq<seq<nat>>, keys: seq<seq<Key>>, table: map<Key, Record>,
                            cur: map<Key, seq<Point>>, n: nat, news: seq<seq<Point>>) {
    && Built(c, cuts, keys, table) && n < |c.rings| && n < |keys| && |news| == |keys[n]|
    && forall m :: 0 <= m < |news| ==> keys[n][m] in table && keys[n][m] in cur && news[m] == cur[keys[n][m]]
  }

  lemma TouchingNews(c: Coverage, cuts: seq<seq<nat>>, keys: seq<seq<Key>>, table: map<Key, Record>,
                     cur: map<Key, seq<Point>>, n: nat, news: seq<seq<Point>>, ls: seq<A.Line>, at: map<Key, nat>)
    requires RingEdges(c, cuts, keys, table, cur, n, news) && Drawn(table, cur, ls, at)
    ensures TouchingEdges(news)
  {
    forall m | 0 <= m < |news| ensures OnceExceptEnds(news[m]) {
      var k := keys[n][m];
      DrawnAt(table, cur, ls, at, k);
      hide *;
      DrawnOnce(ls, at[k]);
    }
    KeysDistinct(c, cuts, keys, table, n);
    forall m, m' | 0 <= m < m' < |news| ensures TouchAtEnds(news[m], news[m']) {
      var k, k' := keys[n][m], keys[n][m'];
      assert k != k';
      DrawnAt(table, cur, ls, at, k);
      DrawnAt(table, cur, ls, at, k');
      DrawnApart(table, cur, ls, at, k, k');
      hide *;
      DrawnTouch(ls, at[k], at[k']);
    }
    hide Drawn;
    hide Built;
  }

  lemma SegmentOfTwo(p: seq<Point>, q: seq<Point>)
    requires |p| == |q| == 2 && ((p[0] == q[0] && p[1] == q[1]) || (p[0] == q[1] && p[1] == q[0]))
    ensures SegmentOf(p, 0) in Segments(p) * Segments(q)
  {
    NormalizedIsUndirected(p[0], p[1], q[0], q[1]);
    assert SegmentOf(q, 0) in Segments(q);
  }

  // Two edges between the same corners are not both straight.
  lemma NotBothStraight(table: map<Key, Record>, cur: map<Key, seq<Point>>, ls: seq<A.Line>, at: map<Key, nat>, k: Key,
                        k': Key)
    requires Drawn(table, cur, ls, at) && k in table && k' in table && k != k' && k in cur && k' in cur
    requires |cur[k]| == 2 ==> |cur[k']| == 2 ==>
      (cur[k][0] == cur[k'][0] && cur[k][1] == cur[k'][1]) || (cur[k][0] == cur[k'][1] && cur[k][1] == cur[k'][0])
    ensures |cur[k]| != 2 || |cur[k']| != 2
  {
    hide Drawn;
    if |cur[k]| == 2 && |cur[k']| == 2 {
      SegmentOfTwo(cur[k], cur[k']);
      var s := SegmentOf(cur[k], 0);
      hide *;
      EdgeSegmentPair(table, cur, ls, at, k, k', s, s);
    }
  }

  // New edges of a ring fit its corners, taken from one end or the other when there are two.
  lemma SomeFit(ring: seq<Point>, cuts: seq<nat>, olds: seq<seq<Point>>, news: seq<seq<Point>>)
    returns (corners: seq<Point>)
    requires SimpleRing(ring) && Rising(ring, cuts) && Stored(ring, cuts, olds) && AllRefit(olds, news) && |cuts| >= 2
    ensures Fits(news, corners) && |news| == |corners| == |cuts| && NonEmpty(news)
    ensures |news| >= 3 || news[0][0] == corners[0]
  {
    hide *;
    RefitFits(ring, cuts, olds, news);
    corners := Corners(ring, cuts);
    RefitPart(ring, cuts, olds, news, 0);
    if |cuts| == 2 && news[0][0] != ring[cuts[0]] {
      TwoRefit(ring, cuts, olds, news);
      corners := [ring[cuts[1]], ring[cuts[0]]];
      NextCornerOfTwo();
      FitsOnly(news, corners);
    }
  }

  lemma TwoSpans(coords: seq<seq<Point>>, corners: seq<Point>)
    requires Fits(coords, corners) && |coords| == |corners| == 2
    ensures var p, q := coords[0], coords[1];
      |p| == 2 ==> |q| == 2 ==> (p[0] == q[0] && p[1] == q[1]) || (p[0] == q[1] && p[1] == q[0])
    ensures |coords[0]| >= 2 && |coords[1]| >= 2
  {
    assert Spans(coords[0], corners[0], corners[NextCorner(2, 0)]);
    assert Spans(coords[1], corners[1], corners[NextCorner(2, 1)]);
  }

  // A ring with one node, or none, is one closed edge.
  lemma OneEdgeCloses(ring: seq<Point>, cuts: seq<nat>, olds: seq<seq<Point>>)
    requires SimpleRing(ring) && Rising(ring, cuts) && Stored(ring, cuts, olds) && |cuts| <= 1
    requires cuts == [] ==> |olds| == 1 && SimpleRing(olds[0])
    ensures |olds| == 1 && |olds[0]| >= 2 && olds[0][0] == olds[0][|olds[0]| - 1]
  {
    if cuts != [] {
      StoredPiece(ring, cuts, olds, 0);
      assert EndOf(cuts, 0) == cuts[0];
      CoverageEdges.SectionBeside(ring, cuts[0], cuts[0]);
      hide Section;
      hide SimpleRing;
      hide Stored;
    }
  }

  // ring n built from its edges as they are now.
  function RingNow(keys: seq<Key>, cur: map<Key, seq<Point>>): seq<Point>
    requires (forall k :: k in keys ==> k in cur) && NonEmpty(PointsUnder(keys, cur))
  {
    Rebuilt(PointsUnder(keys, cur), |keys|)
  }

  lemma OneEdgeRing(table: map<Key, Record>, cur: map<Key, seq<Point>>, ls: seq<A.Line>, at: map<Key, nat>, k: Key)
    requires Drawn(table, cur, ls, at) && k in table && k in cur && |table[k].pts| >= 2
    requires table[k].pts[0] == table[k].pts[|table[k].pts| - 1]
    ensures SimpleRing(cur[k])
  {
    DrawnAt(table, cur, ls, at, k);
    hide *;
    DrawnOnce(ls, at[k]);
  }

  lemma SingleSome(coords: seq<seq<Point>>)
    requires |coords| == 1
    ensures forall s :: s in Segments(coords[0]) <==> InSome(coords, s)
  {
    hide Segments;
  }

  lemma RingEdgesFrom(c: Coverage, cuts: seq<seq<nat>>, keys: seq<seq<Key>>, table: map<Key, Record>,
                      cur: map<Key, seq<Point>>, n: nat)
    requires Built(c, cuts, keys, table) && Kept(table, cur) && n < |c.rings|
    ensures n < |keys| && (forall k :: k in keys[n] ==> k in cur && k in table)
    ensures NonEmpty(PointsUnder(keys[n], cur)) && RingEdges(c, cuts, keys, table, cur, n, PointsUnder(keys[n], cur))
  {
    hide Built;
    hide Kept;
    KeptCurrent(table, cur);
    OriginalsStored(c, cuts, keys, table, n);
    KeptReplaces(cuts[n], keys[n], table, cur);
    CurrentKeys(keys[n], table, cur);
    ReplacesNonEmpty(cuts[n], PointsUnder(keys[n], Original(table)), PointsUnder(keys[n], cur));
    hide Stored;
    hide SimpleRing;
    hide Rising;
    hide Original;
    forall m | 0 <= m < |keys[n]| ensures keys[n][m] in table && keys[n][m] in cur {
      assert keys[n][m] in keys[n];
    }
  }

  /** A ring rebuilt from its simplified edges is simple, and its segments are theirs. */
  lemma RingNowSimple(c: Coverage, cuts: seq<seq<nat>>, keys: seq<seq<Key>>, table: map<Key, Record>,
                      cur: map<Key, seq<Point>>, n: nat, ls: seq<A.Line>, at: map<Key, nat>)
    requires Built(c, cuts, keys, table) && Kept(table, cur) && Drawn(table, cur, ls, at) && n < |c.rings|
    ensures n < |keys| && (forall k :: k in keys[n] ==> k in cur && k in table) && NonEmpty(PointsUnder(keys[n], cur))
    ensures SimpleRing(RingNow(keys[n], cur))
    ensures forall s :: s in Segments(RingNow(keys[n], cur)) <==> InSome(PointsUnder(keys[n], cur), s)
  {
    hide *;
    RingEdgesFrom(c, cuts, keys, table, cur, n);
    var olds, news := OldPoints(c, cuts, keys, table, n), PointsUnder(keys[n], cur);
    OriginalsStored(c, cuts, keys, table, n);
    TouchingNews(c, cuts, keys, table, cur, n, news, ls, at);
    KeptReplaces(cuts[n], keys[n], table, cur);
    ReplacesParts(cuts[n], olds, news);
    if |cuts[n]| <= 1 {
      OneEdgeCloses(c.rings[n], cuts[n], olds);
      OldAt(c, cuts, keys, table, n, 0);
      OneEdgeRing(table, cur, ls, at, keys[n][0]);
      RebuiltSingle(news);
      SingleSome(news);
    } else {
      var corners := SomeFit(c.rings[n], cuts[n], olds, news);
      if |news| == 2 {
        TwoSpans(news, corners);
        KeysDistinct(c, cuts, keys, table, n);
        NotBothStraight(table, cur, ls, at, keys[n][0], keys[n][1]);
      }
      RebuiltIsSimple(news, corners);
    }
    RingNowIs(keys[n], cur);
  }

  lemma RingNowIs(keys: seq<Key>, cur: map<Key, seq<Point>>)
    requires (forall k :: k in keys ==> k in cur) && NonEmpty(PointsUnder(keys, cur))
    ensures RingNow(keys, cur) == Rebuilt(PointsUnder(keys, cur), |PointsUnder(keys, cur)|)
  {
  }

  ghost function OldPoints(c: Coverage, cuts: seq<seq<nat>>, keys: seq<seq<Key>>, table: map<Key, Record>,
                           n: nat): (r: seq<seq<Point>>)
    requires Built(c, cuts, keys, table) && n < |c.rings|
    ensures (forall k :: k in keys[n] ==> k in Original(table)) && r == PointsUnder(keys[n], Original(table))
  {
    OriginalsStored(c, cuts, keys, table, n);
    PointsUnder(keys[n], Original(table))
  }

  lemma OldAt(c: Coverage, cuts: seq<seq<nat>>, keys: seq<seq<Key>>, table: map<Key, Record>, n: nat, m: nat)
    requires Built(c, cuts, keys, table) && n < |c.rings| && n < |keys| && m < |keys[n]|
    ensures |OldPoints(c, cuts, keys, table, n)| == |keys[n]| && keys[n][m] in table
    ensures OldPoints(c, cuts, keys, table, n)[m] == table[keys[n][m]].pts
  {
    assert keys[n][m] in keys[n];
    hide Built;
  }

  // ---- The whole coverage

  // All rings, built from their edges as they are now.
  ghost predicate BuiltNow(keys: seq<seq<Key>>, cur: map<Key, seq<Point>>, rings: seq<seq<Point>>) {
    && |rings| == |keys|
    && forall n {:trigger rings[n]} :: 0 <= n < |rings| ==>
         (forall k :: k in keys[n] ==> k in cur) && NonEmpty(PointsUnder(keys[n], cur)) &&
         rings[n] == RingNow(keys[n], cur)
  }

  // Segment s of a rebuilt ring lies on one of the ring's edges.
  lemma OnSomeEdge(c: Coverage, cuts: seq<seq<nat>>, keys: seq<seq<Key>>, table: map<Key, Record>,
                   cur: map<Key, seq<Point>>,
                   ls: seq<A.Line>, at: map<Key, nat>, rings: seq<seq<Point>>, n: nat, s: (Point, Point))
    returns (k: Key)
    requires Built(c, cuts, keys, table) && Kept(table, cur) && Drawn(table, cur, ls, at) && BuiltNow(keys, cur, rings)
    requires |rings| == |c.rings| && n < |rings| && s in Segments(rings[n])
    ensures n < |keys| && k in keys[n] && k in table && k in cur && s in Segments(cur[k])
  {
    BuiltNowAt(keys, cur, rings, n);
    hide *;
    RingNowSimple(c, cuts, keys, table, cur, n, ls, at);
    k := InSomeKey(keys[n], cur, s);
  }

  lemma InSomeKey(keys: seq<Key>, cur: map<Key, seq<Point>>, s: (Point, Point)) returns (k: Key)
    requires (forall k :: k in keys ==> k in cur) && InSome(PointsUnder(keys, cur), s)
    ensures k in keys && s in Segments(cur[k])
  {
    var ps := PointsUnder(keys, cur);
    var m :| 0 <= m < |ps| && s in Segments(ps[m]);
    k := keys[m];
  }

  lemma KeyInSome(keys: seq<Key>, cur: map<Key, seq<Point>>, s: (Point, Point), k: Key)
    requires (forall k :: k in keys ==> k in cur) && k in keys && s in Segments(cur[k])
    ensures InSome(PointsUnder(keys, cur), s)
  {
    var m :| 0 <= m < |keys| && keys[m] == k;
    assert s in Segments(PointsUnder(keys, cur)[m]);
  }

  lemma BuiltNowAt(keys: seq<seq<Key>>, cur: map<Key, seq<Point>>, rings: seq<seq<Point>>, n: nat)
    requires BuiltNow(keys, cur, rings) && n < |rings|
    ensures |keys| == |rings| && (forall k :: k in keys[n] ==> k in cur) && NonEmpty(PointsUnder(keys[n], cur))
    ensures rings[n] == RingNow(keys[n], cur)
  {
    assert rings[n] == rings[n];
    hide RingNow;
    hide NonEmpty;
  }

  // A simplified coverage, with everything it came from.
  ghost predicate Simplified(c: Coverage, cuts: seq<seq<nat>>, keys: seq<seq<Key>>, table: map<Key, Record>,
                             cur: map<Key, seq<Point>>, ls: seq<A.Line>, at: map<Key, nat>, rings: seq<seq<Point>>) {
    && Built(c, cuts, keys, table) && Kept(table, cur) && Drawn(table, cur, ls, at) && BuiltNow(keys, cur, rings)
    && |rings| == |c.rings|
  }

  /** The rebuilt rings meet only at common ends of their segments. */
  lemma ResultIsPlanar(c: Coverage, cuts: seq<seq<nat>>, keys: seq<seq<Key>>, table: map<Key, Record>,
                       cur: map<Key, seq<Point>>, ls: seq<A.Line>, at: map<Key, nat>, rings: seq<seq<Point>>)
    requires Simplified(c, cuts, keys, table, cur, ls, at, rings)
    ensures PlanarCoverage(rings)
  {
    forall i, j, s, t | 0 <= i < |rings| && 0 <= j < |rings| && s in Segments(rings[i]) && t in Segments(rings[j]) &&
      s != t
      ensures Apart(s, t)
    {
      hide *;
      SimplifiedParts(c, cuts, keys, table, cur, ls, at, rings);
      var k := OnSomeEdge(c, cuts, keys, table, cur, ls, at, rings, i, s);
      var k' := OnSomeEdge(c, cuts, keys, table, cur, ls, at, rings, j, t);
      EdgeSegmentPair(table, cur, ls, at, k, k', s, t);
    }
  }

  lemma SimplifiedParts(c: Coverage, cuts: seq<seq<nat>>, keys: seq<seq<Key>>, table: map<Key, Record>,
                        cur: map<Key, seq<Point>>, ls: seq<A.Line>, at: map<Key, nat>, rings: seq<seq<Point>>)
    requires Simplified(c, cuts, keys, table, cur, ls, at, rings)
    ensures Built(c, cuts, keys, table) && Kept(table, cur) && Drawn(table, cur, ls, at) && BuiltNow(keys, cur, rings)
    ensures |rings| == |c.rings|
  {
  }

  // A rebuilt ring has a segment of an edge exactly when the ring was split into that edge.
  lemma HasSegment(c: Coverage, cuts: seq<seq<nat>>, keys: seq<seq<Key>>, table: map<Key, Record>,
                   cur: map<Key, seq<Point>>,
                   ls: seq<A.Line>, at: map<Key, nat>, rings: seq<seq<Point>>, k: Key, s: (Point, Point), n: nat)
    requires Simplified(c, cuts, keys, table, cur, ls, at, rings)
    requires k in table && k in cur && s in Segments(cur[k]) && n < |rings|
    ensures n < |keys| && (s in Segments(rings[n]) <==> k in keys[n])
  {
    SimplifiedParts(c, cuts, keys, table, cur, ls, at, rings);
    hide *;
    BuiltNowAt(keys, cur, rings, n);
    RingNowSimple(c, cuts, keys, table, cur, n, ls, at);
    if k in keys[n] { KeyInSome(keys[n], cur, s, k); }
    if s in Segments(rings[n]) {
      var k' := OnSomeEdge(c, cuts, keys, table, cur, ls, at, rings, n, s);
      EdgeSegmentPair(table, cur, ls, at, k, k', s, s);
    }
  }

  /** Every segment of a simplified edge is in as many rings as the edge was: one on the boundary, otherwise two. */
  lemma SameCount(c: Coverage, cuts: seq<seq<nat>>, keys: seq<seq<Key>>, table: map<Key, Record>,
                  cur: map<Key, seq<Point>>,
                  ls: seq<A.Line>, at: map<Key, nat>, rings: seq<seq<Point>>, k: Key, s: (Point, Point))
    requires Simplified(c, cuts, keys, table, cur, ls, at, rings)
    requires k in table && k in cur && s in Segments(cur[k])
    ensures SegmentRings(rings, s) == table[k].count && 1 <= table[k].count <= 2
  {
    hide *;
    SimplifiedParts(c, cuts, keys, table, cur, ls, at, rings);
    EdgeSegment(c, cuts, keys, table, k);
    var s0 := Normalized(table[k].pts[0], table[k].pts[1]);
    forall n | 0 <= n < |rings| ensures s in Segments(rings[n]) <==> s0 in Segments(c.rings[n]) {
      HasSegment(c, cuts, keys, table, cur, ls, at, rings, k, s, n);
      UsesEdge(c, cuts, keys, table, n, k);
      FirstSegment(c.rings[n], table[k].pts);
    }
    SameRingsWith(rings, c.rings, s, s0);
    BuiltTable(c, cuts, keys, table);
    FinalCount(c, table, k, s0);
  }

  lemma BuiltTable(c: Coverage, cuts: seq<seq<nat>>, keys: seq<seq<Key>>, table: map<Key, Record>)
    requires Built(c, cuts, keys, table)
    ensures TableOk(c, |c.rings|, {}, table)
  {
  }

  lemma SameRingsWith(rings: seq<seq<Point>>, others: seq<seq<Point>>, s: (Point, Point), t: (Point, Point))
    requires |rings| == |others|
    requires forall n :: 0 <= n < |rings| ==> (s in Segments(rings[n]) <==> t in Segments(others[n]))
    ensures SegmentRings(rings, s) == SegmentRings(others, t)
  {
    hide Segments;
    assert RingsWithSegment(rings, s) == RingsWithSegment(others, t);
  }

  /** The rebuilt rings are again a coverage of simple rings, no segment in more than two of them. */
  lemma ResultIsValid(c: Coverage, cuts: seq<seq<nat>>, keys: seq<seq<Key>>, table: map<Key, Record>,
                      cur: map<Key, seq<Point>>, ls: seq<A.Line>, at: map<Key, nat>, rings: seq<seq<Point>>)
    requires Simplified(c, cuts, keys, table, cur, ls, at, rings)
    ensures ValidCoverage(rings)
  {
    SimplifiedParts(c, cuts, keys, table, cur, ls, at, rings);
    hide Simplified;
    hide Built;
    hide Kept;
    hide Drawn;
    hide BuiltNow;
    hide SegmentRings;
    hide SimpleRing;
    forall n | 0 <= n < |rings| ensures SimpleRing(rings[n]) {
      BuiltNowAt(keys, cur, rings, n);
      RingNowSimple(c, cuts, keys, table, cur, n, ls, at);
    }
    forall s ensures SegmentRings(rings, s) <= 2 {
      if SegmentRings(rings, s) > 0 {
        var n := SomeRingWith(rings, s);
        var k := OnSomeEdge(c, cuts, keys, table, cur, ls, at, rings, n, s);
        SameCount(c, cuts, keys, table, cur, ls, at, rings, k, s);
      }
    }
  }

  lemma SomeRingWith(rings: seq<seq<Point>>, s: (Point, Point)) returns (n: nat)
    requires SegmentRings(rings, s) > 0
    ensures n < |rings| && s in Segments(rings[n])
  {
    n := CountFind(RingsWithSegment(rings, s));
  }

  // ---- Vertices

  // A point of a sequence of two or more has a segment there.
  lemma PointHasSegment(p: seq<Point>, v: Point) returns (s: (Point, Point))
    requires |p| >= 2 && v in p
    ensures s in Segments(p) && (s.0 == v || s.1 == v)
  {
    var x :| 0 <= x < |p| && p[x] == v;
    var t := if x + 1 < |p| then x else x - 1;
    SegmentAt(p, t);
    s := Normalized(p[t], p[t + 1]);
  }

  lemma SegmentHasPoints(p: seq<Point>, s: (Point, Point))
    requires s in Segments(p)
    ensures s.0 in p && s.1 in p
  {
    var t :| 0 <= t < |p| - 1 && SegmentOf(p, t) == s;
  }

  lemma SegmentsWithin(c: Coverage, cuts: seq<seq<nat>>, keys: seq<seq<Key>>, table: map<Key, Record>, n: nat, k: Key,
                       s: (Point, Point))
    requires Built(c, cuts, keys, table) && n < |c.rings| && n < |keys| && k in keys[n] && k in table
    requires s in Segments(table[k].pts)
    ensures s in Segments(c.rings[n])
  {
    BuiltAt(c, cuts, keys, table, n);
    hide *;
    DoneMeansHeld(c, n, cuts[n], keys[n], table, k, s);
  }

  /** A vertex of a rebuilt ring is a vertex of the ring it was split from. */
  lemma VertexIsOld(c: Coverage, cuts: seq<seq<nat>>, keys: seq<seq<Key>>, table: map<Key, Record>,
                    cur: map<Key, seq<Point>>,
                    ls: seq<A.Line>, at: map<Key, nat>, rings: seq<seq<Point>>, n: nat, v: Point)
    requires Simplified(c, cuts, keys, table, cur, ls, at, rings) && n < |rings| && n < |c.rings| && v in rings[n]
    ensures v in c.rings[n]
  {
    hide *;
    SimplifiedParts(c, cuts, keys, table, cur, ls, at, rings);
    BuiltNowAt(keys, cur, rings, n);
    RingNowSimple(c, cuts, keys, table, cur, n, ls, at);
    RingSize(rings[n]);
    var s := PointHasSegment(rings[n], v);
    var k := OnSomeEdge(c, cuts, keys, table, cur, ls, at, rings, n, s);
    SegmentHasPoints(cur[k], s);
    DrawnAt(table, cur, ls, at, k);
    var t := PointHasSegment(table[k].pts, v);
    SegmentsWithin(c, cuts, keys, table, n, k, t);
    SegmentHasPoints(c.rings[n], t);
  }

  // The edge of a ring that a segment of the ring went into.
  lemma HoldingEdge(c: Coverage, cuts: seq<seq<nat>>, keys: seq<seq<Key>>, table: map<Key, Record>, n: nat,
                    s: (Point, Point))
    returns (k: Key)
    requires Built(c, cuts, keys, table) && n < |c.rings| && s in Segments(c.rings[n])
    ensures n < |keys| && k in keys[n] && k in table && s in Segments(table[k].pts)
  {
    BuiltAt(c, cuts, keys, table, n);
    hide *;
    SplitCuts(c, n, cuts[n], keys[n], table);
    SplitPart(c, n, cuts[n], keys[n], table, 0);
    var m := PieceWith(c, n, cuts[n], s);
    SplitPart(c, n, cuts[n], keys[n], table, m);
    k := keys[n][m];
    SameEdgeSegments(Pieces(c.rings[n], cuts[n])[m], table[k].pts, NodeFree(c.rings[n], Nodes(c)));
  }

  lemma NodeOnEdge(ring: seq<Point>, nodes: set<Point>, p: seq<Point>, v: Point)
    requires IsEdge(ring, nodes, p) && v in p && v in nodes
    ensures !NodeFree(ring, nodes) && |p| >= 2 && (v == p[0] || v == p[|p| - 1])
  {
    var x :| 0 <= x < |p| && p[x] == v;
    EdgeWithin(ring, nodes, p);
    hide Segments;
  }

  // Nodes are ends of edges.
  lemma NodeIsEnd(c: Coverage, k: Key, rec: Record, v: Point)
    requires Entry(c, k, rec) && Ready(c) && v in rec.pts && v in Nodes(c)
    ensures !rec.free && |rec.pts| >= 2 && (v == rec.pts[0] || v == rec.pts[|rec.pts| - 1])
  {
    hide *;
    var i := EntryRing(c, k, rec);
    EdgeOfParts(c, i, rec.pts, k);
    NodeOnEdge(c.rings[i], Nodes(c), rec.pts, v);
  }

  lemma KeptEnds(table: map<Key, Record>, cur: map<Key, seq<Point>>, k: Key, v: Point)
    requires Kept(table, cur) && k in table && k in cur && !table[k].free && |table[k].pts| >= 2
    requires v == table[k].pts[0] || v == table[k].pts[|table[k].pts| - 1]
    ensures v in cur[k] && |cur[k]| >= 2
  {
    assert cur[k] == cur[k];
    hide NoRepeats;
  }

  /** A ring keeps its nodes. */
  lemma NodeStays(c: Coverage, cuts: seq<seq<nat>>, keys: seq<seq<Key>>, table: map<Key, Record>,
                  cur: map<Key, seq<Point>>,
                  ls: seq<A.Line>, at: map<Key, nat>, rings: seq<seq<Point>>, n: nat, v: Point)
    requires Simplified(c, cuts, keys, table, cur, ls, at, rings) && n < |rings| && n < |c.rings|
    requires Ready(c) && v in c.rings[n] && v in Nodes(c)
    ensures v in rings[n]
  {
    hide *;
    SimplifiedParts(c, cuts, keys, table, cur, ls, at, rings);
    ReadyRing(c, n);
    RingSize(c.rings[n]);
    var s := PointHasSegment(c.rings[n], v);
    var k := HoldingEdge(c, cuts, keys, table, n, s);
    SegmentHasPoints(table[k].pts, s);
    BuiltEntries(c, cuts, keys, table);
    EntryAt(c, table, k);
    NodeIsEnd(c, k, table[k], v);
    DrawnAt(table, cur, ls, at, k);
    KeptEnds(table, cur, k, v);
    var t := PointHasSegment(cur[k], v);
    HasSegment(c, cuts, keys, table, cur, ls, at, rings, k, t, n);
    SegmentHasPoints(rings[n], t);
  }

  // ---- The boundary

  lemma InnerOnlyAt(table: map<Key, Record>, cur: map<Key, seq<Point>>, k: Key)
    requires InnerOnly(table, Original(table), cur) && k in table && table[k].count != 2
    ensures k in cur && cur[k] == table[k].pts
  {
  }

  /** When only inner edges have changed, the segments in one ring only are the same as before. */
  lemma BoundaryStays(c: Coverage, cuts: seq<seq<nat>>, keys: seq<seq<Key>>, table: map<Key, Record>,
                      cur: map<Key, seq<Point>>,
                      ls: seq<A.Line>, at: map<Key, nat>, rings: seq<seq<Point>>, s: (Point, Point))
    requires Simplified(c, cuts, keys, table, cur, ls, at, rings) && InnerOnly(table, Original(table), cur)
    ensures SegmentRings(rings, s) == 1 <==> SegmentRings(c.rings, s) == 1
  {
    hide *;
    SimplifiedParts(c, cuts, keys, table, cur, ls, at, rings);
    BuiltTable(c, cuts, keys, table);
    if SegmentRings(rings, s) == 1 {
      var n := SomeRingWith(rings, s);
      var k := OnSomeEdge(c, cuts, keys, table, cur, ls, at, rings, n, s);
      SameCount(c, cuts, keys, table, cur, ls, at, rings, k, s);
      InnerOnlyAt(table, cur, k);
      FinalCount(c, table, k, s);
    }
    if SegmentRings(c.rings, s) == 1 {
      var n := SomeRingWith(c.rings, s);
      var k := HoldingEdge(c, cuts, keys, table, n, s);
      FinalCount(c, table, k, s);
      InnerOnlyAt(table, cur, k);
      SameCount(c, cuts, keys, table, cur, ls, at, rings, k, s);
    }
  }

  // ---- All together

  // The result is a planar coverage of simple rings again, over vertices of the given rings and with all nodes.
  ghost predicate SameTopology(c: Coverage, result: seq<seq<Point>>) {
    && Ready(c) && |result| == |c.rings| && ValidCoverage(result) && PlanarCoverage(result)
    && (forall n, v :: 0 <= n < |result| && v in result[n] ==> v in c.rings[n])
    && (forall n, v :: 0 <= n < |result| && v in c.rings[n] && v in Nodes(c) ==> v in result[n])
  }

  lemma TopologyKept(c: Coverage, cuts: seq<seq<nat>>, keys: seq<seq<Key>>, table: map<Key, Record>,
                     cur: map<Key, seq<Point>>, ls: seq<A.Line>, at: map<Key, nat>, rings: seq<seq<Point>>)
    requires Simplified(c, cuts, keys, table, cur, ls, at, rings) && Ready(c)
    ensures SameTopology(c, rings)
  {
    SimplifiedParts(c, cuts, keys, table, cur, ls, at, rings);
    ResultIsPlanar(c, cuts, keys, table, cur, ls, at, rings);
    ResultIsValid(c, cuts, keys, table, cur, ls, at, rings);
    hide Simplified;
    hide Built;
    hide Kept;
    hide Drawn;
    hide BuiltNow;
    hide ValidCoverage;
    hide PlanarCoverage;
    hide Ready;
    hide Nodes;
    forall n, v | 0 <= n < |rings| && v in rings[n] ensures v in c.rings[n] {
      VertexIsOld(c, cuts, keys, table, cur, ls, at, rings, n, v);
    }
    forall n, v | 0 <= n < |rings| && v in c.rings[n] && v in Nodes(c) ensures v in rings[n] {
      NodeStays(c, cuts, keys, table, cur, ls, at, rings, n, v);
    }
  }
}
