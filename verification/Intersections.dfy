/**
 Cutting corners never adds intersections, however the lines lie: a segment that no line
 crosses on its way through the corner meets the base only if it met a side.
 */
module Intersections {
  import opened Planar
  import opened Pasch
  import opened Arrangement
  import opened SimplifyRuns

  type Segment = (Point, Point)

  // The segments of a path, in order.
  function PathSegments(pts: seq<Point>): seq<Segment> {
    if |pts| < 2 then [] else [(pts[0], pts[1])] + PathSegments(pts[1..])
  }

  // The segment that closes a ring.
  function Closing(l: Line): seq<Segment> {
    if l.closed && |l.pts| > 0 then [(l.pts[|l.pts| - 1], l.pts[0])] else []
  }

  function SegmentsOfLine(l: Line): seq<Segment> {
    PathSegments(l.pts) + Closing(l)
  }

  ghost function MeetOne(s: Segment, t: Segment): nat {
    if Meet(s.0, s.1, t.0, t.1) then 1 else 0
  }

  // How many of the segments meet t.
  ghost function MeetCount(ss: seq<Segment>, t: Segment): nat {
    if ss == [] then 0 else MeetOne(ss[0], t) + MeetCount(ss[1..], t)
  }

  // How many pairs of the segments meet.
  ghost function PairCount(ss: seq<Segment>, ts: seq<Segment>): nat {
    if ts == [] then 0 else MeetCount(ss, ts[0]) + PairCount(ss, ts[1..])
  }

  lemma {:induction false} MeetCountJoin(ss: seq<Segment>, ts: seq<Segment>, t: Segment)
    ensures MeetCount(ss + ts, t) == MeetCount(ss, t) + MeetCount(ts, t)
  {
    if ss == [] {
      assert ss + ts == ts;
    } else {
      assert (ss + ts)[1..] == ss[1..] + ts;
      MeetCountJoin(ss[1..], ts, t);
    }
  }

  lemma MeetCountOne(s: Segment, t: Segment)
    ensures MeetCount([s], t) == MeetOne(s, t)
  {
    assert [s][1..] == [];
  }

  // Counting by the other list.
  lemma {:induction false} PairCountColumn(s: Segment, ss: seq<Segment>, ts: seq<Segment>)
    ensures PairCount([s] + ss, ts) == MeetCount(ts, s) + PairCount(ss, ts)
  {
    if ts != [] {
      PairCountColumn(s, ss, ts[1..]);
      assert ([s] + ss)[1..] == ss;
      MeetEither(s.0, s.1, ts[0].0, ts[0].1);
    }
  }

  lemma {:induction false} NoPairs(ts: seq<Segment>)
    ensures PairCount([], ts) == 0
  {
    if ts != [] { NoPairs(ts[1..]); }
  }

  lemma {:induction false} PairCountSwaps(ss: seq<Segment>, ts: seq<Segment>)
    ensures PairCount(ss, ts) == PairCount(ts, ss)
  {
    if ss == [] {
      NoPairs(ts);
    } else {
      assert ss == [ss[0]] + ss[1..];
      PairCountColumn(ss[0], ss[1..], ts);
      PairCountSwaps(ss[1..], ts);
    }
  }

  lemma {:induction false} PairCountFalls(ss: seq<Segment>, rs: seq<Segment>, ts: seq<Segment>)
    requires forall m :: 0 <= m < |ts| ==> MeetCount(rs, ts[m]) <= MeetCount(ss, ts[m])
    ensures PairCount(rs, ts) <= PairCount(ss, ts)
  {
    if ts != [] {
      assert MeetCount(rs, ts[0]) <= MeetCount(ss, ts[0]);
      forall m | 0 <= m < |ts[1..]| ensures MeetCount(rs, ts[1..][m]) <= MeetCount(ss, ts[1..][m]) {
        assert ts[1..][m] == ts[m + 1];
      }
      PairCountFalls(ss, rs, ts[1..]);
    }
  }

  // How many pairs among the segments meet.
  ghost function PairsWithin(ss: seq<Segment>): nat {
    if ss == [] then 0 else MeetCount(ss[1..], ss[0]) + PairsWithin(ss[1..])
  }

  lemma {:induction false} PairsWithinJoin(ss: seq<Segment>, ts: seq<Segment>)
    ensures PairsWithin(ss + ts) == PairsWithin(ss) + PairsWithin(ts) + PairCount(ss, ts)
  {
    if ss == [] {
      assert ss + ts == ts;
      NoPairs(ts);
    } else {
      assert (ss + ts)[1..] == ss[1..] + ts;
      assert ss == [ss[0]] + ss[1..];
      MeetCountJoin(ss[1..], ts, ss[0]);
      PairCountColumn(ss[0], ss[1..], ts);
      PairsWithinJoin(ss[1..], ts);
    }
  }

  lemma {:induction false} PairCountJoin(ss: seq<Segment>, rs: seq<Segment>, ts: seq<Segment>)
    ensures PairCount(ss + rs, ts) == PairCount(ss, ts) + PairCount(rs, ts)
  {
    if ts != [] {
      MeetCountJoin(ss, rs, ts[0]);
      PairCountJoin(ss, rs, ts[1..]);
    }
  }

  // ---- One cut

  lemma {:induction false} PathSegmentsJoin(s: seq<Point>, t: seq<Point>)
    requires |s| > 0 && |t| > 0
    ensures PathSegments(s + t) == PathSegments(s) + [(s[|s| - 1], t[0])] + PathSegments(t)
  {
    if |s| == 1 {
      assert (s + t)[1..] == t;
    } else {
      assert (s + t)[1..] == s[1..] + t;
      PathSegmentsJoin(s[1..], t);
    }
  }

  lemma {:induction false} PathSegmentEnds(pts: seq<Point>, t: Segment)
    requires t in PathSegments(pts)
    ensures t.0 in pts && t.1 in pts
  {
    if t != (pts[0], pts[1]) { PathSegmentEnds(pts[1..], t); }
  }

  lemma LineEnds(l: Line, t: Segment)
    requires t in SegmentsOfLine(l)
    ensures t.0 in l.pts && t.1 in l.pts
  {
    if t in PathSegments(l.pts) { PathSegmentEnds(l.pts, t); }
  }

  // The base instead of the two sides, in the middle of the other segments.
  lemma SidesCount(p: seq<Segment>, a: Point, b: Point, c: Point, q: seq<Segment>, t: Segment)
    requires !Blocks(t.0, a, b, c) && !Blocks(t.1, a, b, c)
    ensures MeetCount(p + [(a, c)] + q, t) <= MeetCount(p + [(a, b), (b, c)] + q, t)
  {
    BaseCount(a, b, c, t);
    MeetCountJoin(p + [(a, c)], q, t);
    MeetCountJoin(p, [(a, c)], t);
    MeetCountJoin(p + [(a, b), (b, c)], q, t);
    MeetCountJoin(p, [(a, b), (b, c)], t);
    MeetCountJoin([(a, b)], [(b, c)], t);
    assert [(a, b)] + [(b, c)] == [(a, b), (b, c)];
    MeetCountOne((a, b), t);
    MeetCountOne((b, c), t);
    MeetCountOne((a, c), t);
  }

  lemma BaseCount(a: Point, b: Point, c: Point, t: Segment)
    requires !Blocks(t.0, a, b, c) && !Blocks(t.1, a, b, c)
    ensures MeetOne((a, c), t) <= MeetOne((a, b), t) + MeetOne((b, c), t)
  {
    if Meet(a, c, t.0, t.1) { BaseMeetsOnlyWhatSidesMeet(a, b, c, t.0, t.1); }
  }

  lemma PathSegmentsFrom(pts: seq<Point>, k: nat)
    requires k + 1 < |pts|
    ensures PathSegments(pts[k..]) == [(pts[k], pts[k + 1])] + PathSegments(pts[k + 1..])
  {
    assert pts[k..][1..] == pts[k + 1..];
  }

  lemma TwoThenRest(p: seq<Segment>, s: Segment, t: Segment, q: seq<Segment>)
    ensures p + [s] + ([t] + q) == p + [s, t] + q
  {
  }

  // The segments around an inner vertex.
  lemma InnerSegments(pts: seq<Point>, k: nat)
    requires 0 < k < |pts| - 1
    ensures PathSegments(pts) ==
            PathSegments(pts[..k]) + [(pts[k - 1], pts[k]), (pts[k], pts[k + 1])] + PathSegments(pts[k + 1..])
    ensures PathSegments(pts[..k] + pts[k + 1..]) ==
            PathSegments(pts[..k]) + [(pts[k - 1], pts[k + 1])] + PathSegments(pts[k + 1..])
  {
    hide *;
    assert pts == pts[..k] + pts[k..];
    PathSegmentsJoin(pts[..k], pts[k..]);
    PathSegmentsFrom(pts, k);
    TwoThenRest(PathSegments(pts[..k]), (pts[k - 1], pts[k]), (pts[k], pts[k + 1]), PathSegments(pts[k + 1..]));
    PathSegmentsJoin(pts[..k], pts[k + 1..]);
  }

  lemma InnerCount(pts: seq<Point>, k: nat, t: Segment)
    requires 0 < k < |pts| - 1
    requires !Blocks(t.0, pts[k - 1], pts[k], pts[k + 1]) && !Blocks(t.1, pts[k - 1], pts[k], pts[k + 1])
    ensures MeetCount(PathSegments(pts[..k] + pts[k + 1..]), t) <= MeetCount(PathSegments(pts), t)
  {
    InnerSegments(pts, k);
    SidesCount(PathSegments(pts[..k]), pts[k - 1], pts[k], pts[k + 1], PathSegments(pts[k + 1..]), t);
  }

  lemma PathSegmentsEnd(s: seq<Point>, b: Point)
    requires |s| > 0
    ensures PathSegments(s + [b]) == PathSegments(s) + [(s[|s| - 1], b)]
  {
    PathSegmentsJoin(s, [b]);
  }

  lemma OneThenOne(p: seq<Segment>, s: Segment, t: Segment)
    ensures p + [s] + [t] == p + [s, t] + []
  {
  }

  lemma LastSegments(pts: seq<Point>)
    requires |pts| >= 2
    ensures var n := |pts|;
      PathSegments(pts) + [(pts[n - 1], pts[0])] ==
      PathSegments(pts[..n - 1]) + [(pts[n - 2], pts[n - 1]), (pts[n - 1], pts[0])] + []
  {
    hide *;
    var n := |pts|;
    assert pts == pts[..n - 1] + [pts[n - 1]];
    PathSegmentsEnd(pts[..n - 1], pts[n - 1]);
    OneThenOne(PathSegments(pts[..n - 1]), (pts[n - 2], pts[n - 1]), (pts[n - 1], pts[0]));
  }

  // Cutting the last vertex of a ring.
  lemma LastCount(pts: seq<Point>, t: Segment)
    requires |pts| >= 2
    requires !Blocks(t.0, pts[|pts| - 2], pts[|pts| - 1], pts[0])
    requires !Blocks(t.1, pts[|pts| - 2], pts[|pts| - 1], pts[0])
    ensures MeetCount(PathSegments(pts[..|pts| - 1]) + [(pts[|pts| - 2], pts[0])], t) <=
            MeetCount(PathSegments(pts) + [(pts[|pts| - 1], pts[0])], t)
  {
    hide *;
    var p, a, b, c := PathSegments(pts[..|pts| - 1]), pts[|pts| - 2], pts[|pts| - 1], pts[0];
    LastSegments(pts);
    SidesCount(p, a, b, c, [], t);
    assert p + [(a, c)] + [] == p + [(a, c)];
  }

  // Cutting the first vertex of a ring.
  lemma FirstCount(pts: seq<Point>, t: Segment)
    requires |pts| >= 3
    requires var n := |pts|; !Blocks(t.0, pts[n - 1], pts[0], pts[1]) && !Blocks(t.1, pts[n - 1], pts[0], pts[1])
    ensures var n := |pts|;
      MeetCount(PathSegments(pts[1..]) + [(pts[n - 1], pts[1])], t) <=
      MeetCount(PathSegments(pts) + [(pts[n - 1], pts[0])], t)
  {
    var p, a, b, c := PathSegments(pts[1..]), pts[|pts| - 1], pts[0], pts[1];
    BaseCount(a, b, c, t);
    MeetCountJoin(p, [(a, c)], t);
    MeetCountJoin(PathSegments(pts), [(a, b)], t);
    MeetCountJoin([(b, c)], p, t);
    MeetCountOne((a, b), t);
    MeetCountOne((b, c), t);
    MeetCountOne((a, c), t);
  }

  // The line that is left when vertex k is taken out.
  lemma CutLine(l: Line, k: nat)
    requires WellFormed(l) && k < |l.pts| && !FixedSlot(l, k)
    ensures var pts, n, r := l.pts, |l.pts|, WithoutVertex(l, k);
      && (l.closed || 0 < k < n - 1)
      && (l.closed ==> Closing(l) == [(pts[n - 1], pts[0])])
      && (0 < k < n - 1 ==> r.pts == pts[..k] + pts[k + 1..] && Closing(r) == Closing(l))
      && (k == 0 ==> r.pts == pts[1..] && Closing(r) == [(pts[n - 1], pts[1])])
      && (0 < k == n - 1 ==> r.pts == pts[..n - 1] && Closing(r) == [(pts[n - 2], pts[0])])
  {
  }

  lemma SegmentsAre(l: Line)
    ensures SegmentsOfLine(l) == PathSegments(l.pts) + Closing(l)
  {
  }

  lemma CornerSlots(l: Line, k: nat)
    requires WellFormed(l) && k < |l.pts| && !FixedSlot(l, k)
    ensures |l.pts| >= 2 && (l.closed ==> |l.pts| >= 3)
    ensures Preceding(l, k) == if k == 0 then |l.pts| - 1 else k - 1
    ensures Following(l, k) == if k + 1 == |l.pts| then 0 else k + 1
  {
  }

  /** Taking a vertex out of a line leaves no more of its segments meeting t. */
  lemma CutCount(l: Line, k: nat, t: Segment)
    requires WellFormed(l) && k < |l.pts| && !FixedSlot(l, k)
    requires !Blocks(t.0, l.pts[Preceding(l, k)], l.pts[k], l.pts[Following(l, k)])
    requires !Blocks(t.1, l.pts[Preceding(l, k)], l.pts[k], l.pts[Following(l, k)])
    ensures MeetCount(SegmentsOfLine(WithoutVertex(l, k)), t) <= MeetCount(SegmentsOfLine(l), t)
  {
    CornerSlots(l, k);
    CutLine(l, k);
    hide *;
    var pts, r := l.pts, WithoutVertex(l, k);
    SegmentsAre(l);
    SegmentsAre(r);
    if 0 < k < |pts| - 1 {
      InnerCount(pts, k, t);
      MeetCountJoin(PathSegments(pts), Closing(l), t);
      MeetCountJoin(PathSegments(r.pts), Closing(l), t);
    } else if k == 0 {
      FirstCount(pts, t);
    } else {
      LastCount(pts, t);
    }
  }

  // No end of the segments blocks the corner.
  ghost predicate NoneBlocks(ts: seq<Segment>, a: Point, b: Point, c: Point) {
    forall t :: t in ts ==> !Blocks(t.0, a, b, c) && !Blocks(t.1, a, b, c)
  }

  lemma BasePairs(ts: seq<Segment>, a: Point, b: Point, c: Point)
    requires NoneBlocks(ts, a, b, c)
    ensures PairCount([(a, c)], ts) <= PairCount([(a, b), (b, c)], ts)
    ensures PairCount(ts, [(a, c)]) <= PairCount(ts, [(a, b), (b, c)])
  {
    forall m | 0 <= m < |ts| ensures MeetCount([(a, c)], ts[m]) <= MeetCount([(a, b), (b, c)], ts[m]) {
      SidesCount([], a, b, c, [], ts[m]);
      assert [] + [(a, c)] + [] == [(a, c)];
      assert [] + [(a, b), (b, c)] + [] == [(a, b), (b, c)];
    }
    PairCountFalls([(a, b), (b, c)], [(a, c)], ts);
    PairCountSwaps([(a, c)], ts);
    PairCountSwaps([(a, b), (b, c)], ts);
  }

  lemma OnesWithin(s: Segment)
    ensures PairsWithin([s]) == 0
  {
    assert [s][1..] == [];
  }

  lemma SidesMeet(a: Point, b: Point, c: Point)
    ensures PairsWithin([(a, b), (b, c)]) == 1 && PairsWithin([(a, c)]) == 0
    ensures MeetOne((a, b), (b, c)) == 1
  {
    MeetAt(b, c, a, b, b);
    MeetAt(a, b, b, c, b);
    var two := [(a, b), (b, c)];
    assert two[0] == (a, b) && two[1..] == [(b, c)];
    assert PairsWithin(two) == MeetCount(two[1..], two[0]) + PairsWithin(two[1..]);
    MeetCountOne((b, c), (a, b));
    OnesWithin((b, c));
    OnesWithin((a, c));
  }

  // The base instead of the two sides: one pair fewer at least, for the sides met.
  lemma SidesWithin(p: seq<Segment>, a: Point, b: Point, c: Point, q: seq<Segment>)
    requires NoneBlocks(p, a, b, c) && NoneBlocks(q, a, b, c)
    ensures PairsWithin(p + [(a, c)] + q) + 1 <= PairsWithin(p + [(a, b), (b, c)] + q)
  {
    var one, two := [(a, c)], [(a, b), (b, c)];
    BasePairs(p, a, b, c);
    BasePairs(q, a, b, c);
    SidesMeet(a, b, c);
    hide *;
    PairsWithinJoin(p + one, q);
    PairsWithinJoin(p, one);
    PairCountJoin(p, one, q);
    PairsWithinJoin(p + two, q);
    PairsWithinJoin(p, two);
    PairCountJoin(p, two, q);
  }

  // The same when the sides are the last and the first segment.
  lemma OuterWithin(p: seq<Segment>, a: Point, b: Point, c: Point)
    requires NoneBlocks(p, a, b, c)
    ensures PairsWithin(p + [(a, c)]) + 1 <= PairsWithin([(b, c)] + p + [(a, b)])
  {
    var ab, bc := [(a, b)], [(b, c)];
    BasePairs(p, a, b, c);
    SidesMeet(a, b, c);
    assert ab + bc == [(a, b), (b, c)];
    PairCountSwaps(p, ab + bc);
    PairCountSwaps(p, ab);
    PairCountJoin(ab, bc, p);
    PairCountJoin(bc, p, ab);
    OnePair(bc[0], ab[0]);
    MeetEither(b, c, a, b);
    PairsWithinJoin(p, [(a, c)]);
    PairsWithinJoin(bc + p, ab);
    PairsWithinJoin(bc, p);
    OnesWithin(bc[0]);
    OnesWithin(ab[0]);
  }

  lemma OnePair(s: Segment, t: Segment)
    ensures PairCount([s], [t]) == MeetOne(s, t)
  {
    assert [t][1..] == [];
    MeetCountOne(s, t);
  }

  // Own segments do not block a corner either.
  lemma OwnClear(l: Line, a: Point, b: Point, c: Point)
    requires forall m :: 0 <= m < |l.pts| ==> !Blocks(l.pts[m], a, b, c)
    ensures NoneBlocks(SegmentsOfLine(l), a, b, c)
  {
    forall t | t in SegmentsOfLine(l) ensures !Blocks(t.0, a, b, c) && !Blocks(t.1, a, b, c) {
      LineEnds(l, t);
    }
  }

  lemma PartsClear(p: seq<Segment>, m: seq<Segment>, q: seq<Segment>, a: Point, b: Point, c: Point)
    requires NoneBlocks(p + m + q, a, b, c)
    ensures NoneBlocks(p, a, b, c) && NoneBlocks(q, a, b, c) && NoneBlocks(m, a, b, c)
  {
    forall t | t in p || t in q || t in m ensures t in p + m + q {}
  }

  /** Taking a vertex out of a line, at least one pair of its segments fewer meets. */
  lemma CutWithin(l: Line, k: nat)
    requires WellFormed(l) && k < |l.pts| && !FixedSlot(l, k)
    requires forall m :: 0 <= m < |l.pts| ==>
      !Blocks(l.pts[m], l.pts[Preceding(l, k)], l.pts[k], l.pts[Following(l, k)])
    ensures PairsWithin(SegmentsOfLine(WithoutVertex(l, k))) + 1 <= PairsWithin(SegmentsOfLine(l))
  {
    CornerSlots(l, k);
    CutLine(l, k);
    hide *;
    var pts, r, n := l.pts, WithoutVertex(l, k), |l.pts|;
    var a, b, c := pts[Preceding(l, k)], pts[k], pts[Following(l, k)];
    SegmentsAre(l);
    SegmentsAre(r);
    OwnClear(l, a, b, c);
    if 0 < k < n - 1 {
      InnerSegments(pts, k);
      var p, q := PathSegments(pts[..k]), PathSegments(pts[k + 1..]) + Closing(l);
      assert SegmentsOfLine(l) == p + [(a, b), (b, c)] + q;
      assert SegmentsOfLine(r) == p + [(a, c)] + q;
      PartsClear(p, [(a, b), (b, c)], q, a, b, c);
      SidesWithin(p, a, b, c, q);
    } else if k == 0 {
      PathSegmentsFrom(pts, 0);
      assert pts[0..] == pts && pts[0 + 1..] == pts[1..];
      var p := PathSegments(pts[1..]);
      PartsClear([(b, c)], p, [(a, b)], a, b, c);
      OuterWithin(p, a, b, c);
    } else {
      LastSegments(pts);
      var p := PathSegments(pts[..n - 1]);
      PartsClear(p, [(a, b), (b, c)], [], a, b, c);
      SidesWithin(p, a, b, c, []);
      assert p + [(a, c)] + [] == SegmentsOfLine(r);
    }
  }

  // ---- Whole runs

  // Lines a and b meet no more often than before. Of the pairs within one line, each vertex taken out takes
  // one of neighbours with it, and the others are no more than before.
  ghost predicate NoMorePairs(ls: seq<Line>, after: seq<Line>, a: nat, b: nat) {
    && a < |ls| == |after| && b < |ls|
    && if a == b then
         PairsWithin(SegmentsOfLine(after[a])) + |ls[a].pts| <= PairsWithin(SegmentsOfLine(ls[a])) + |after[a].pts|
       else
         PairCount(SegmentsOfLine(after[a]), SegmentsOfLine(after[b])) <=
         PairCount(SegmentsOfLine(ls[a]), SegmentsOfLine(ls[b]))
  }

  ghost predicate NoMoreIntersections(ls: seq<Line>, after: seq<Line>) {
    |after| == |ls| && forall a: nat, b: nat :: a < |ls| && b < |ls| ==> NoMorePairs(ls, after, a, b)
  }

  lemma CutPairs(ls: seq<Line>, i: nat, k: nat, b: nat)
    requires i < |ls| && WellFormed(ls[i]) && Cuttable(ls, i, k) && Removable(ls, i, k) && b < |ls| && b != i
    ensures NoMorePairs(ls, Cut(ls, i, k), i, b) && NoMorePairs(ls, Cut(ls, i, k), b, i)
  {
    var ss, rs, ts := SegmentsOfLine(ls[i]), SegmentsOfLine(WithoutVertex(ls[i], k)), SegmentsOfLine(ls[b]);
    assert LineClear(ls[b], b == i, CornerPrev(ls, i, k), At(ls, i, k), CornerNext(ls, i, k));
    forall m | 0 <= m < |ts| ensures MeetCount(rs, ts[m]) <= MeetCount(ss, ts[m]) {
      LineEnds(ls[b], ts[m]);
      CutCount(ls[i], k, ts[m]);
    }
    PairCountFalls(ss, rs, ts);
    PairCountSwaps(ss, ts);
    PairCountSwaps(rs, ts);
  }

  lemma CutOwnPairs(ls: seq<Line>, i: nat, k: nat)
    requires i < |ls| && WellFormed(ls[i]) && Cuttable(ls, i, k) && Removable(ls, i, k)
    ensures NoMorePairs(ls, Cut(ls, i, k), i, i)
  {
    assert LineClear(ls[i], true, CornerPrev(ls, i, k), At(ls, i, k), CornerNext(ls, i, k));
    CutWithin(ls[i], k);
  }

  /** A cut adds no intersection, of two lines or within one. */
  lemma CutAddsNone(ls: seq<Line>, i: nat, k: nat)
    requires i < |ls| && WellFormed(ls[i]) && Cuttable(ls, i, k) && Removable(ls, i, k)
    ensures NoMoreIntersections(ls, Cut(ls, i, k))
  {
    forall a: nat, b: nat | a < |ls| && b < |ls| ensures NoMorePairs(ls, Cut(ls, i, k), a, b) {
      if a == i == b {
        CutOwnPairs(ls, i, k);
      } else if a == i {
        CutPairs(ls, i, k, b);
      } else if b == i {
        CutPairs(ls, i, k, a);
      }
    }
  }

  lemma NoMoreTrans(ls: seq<Line>, mid: seq<Line>, after: seq<Line>)
    requires NoMoreIntersections(ls, mid) && NoMoreIntersections(mid, after)
    ensures NoMoreIntersections(ls, after)
  {
    forall a: nat, b: nat | a < |ls| && b < |ls| ensures NoMorePairs(ls, after, a, b) {
      assert NoMorePairs(ls, mid, a, b) && NoMorePairs(mid, after, a, b);
    }
  }

  lemma NoMoreSelf(ls: seq<Line>)
    ensures NoMoreIntersections(ls, ls)
  {
  }

  /** Whatever the lines, crossing ones included, a run of allowed cuts adds no intersection. */
  lemma {:induction false} RunAddsNone(ls: seq<Line>, i: nat, cuts: seq<nat>, tolerance: real)
    requires i < |ls| && WellFormed(ls[i]) && Run(ls, i, cuts, tolerance)
    ensures NoMoreIntersections(ls, After(ls, i, cuts, tolerance))
    decreases |cuts|
  {
    if cuts == [] {
      NoMoreSelf(ls);
    } else {
      CutAddsNone(ls, i, cuts[0]);
      CutBoundsArea(ls, i, cuts[0], tolerance);
      RunAddsNone(Cut(ls, i, cuts[0]), i, cuts[1..], tolerance);
      NoMoreTrans(ls, Cut(ls, i, cuts[0]), After(ls, i, cuts, tolerance));
    }
  }
}
