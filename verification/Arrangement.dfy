/**
 Sets of lines that touch only at their end points, and what cutting one corner
 does to them.  This is the state the simplifier works on, seen as values.
 */
module Arrangement {
  import opened Planar
  import opened Pasch

  // The live vertices of one edge, in order; a closed line does not repeat its first vertex.
  // A free line is a ring whose start vertex may be cut like any other.
  datatype Line = Line(pts: seq<Point>, closed: bool, free: bool)

  predicate Slot(ls: seq<Line>, i: nat, k: nat) {
    i < |ls| && k < |ls[i].pts|
  }

  function At(ls: seq<Line>, i: nat, k: nat): Point
    requires Slot(ls, i, k)
  {
    ls[i].pts[k]
  }

  // Slot k starts a segment of line i.
  predicate Seg(ls: seq<Line>, i: nat, k: nat) {
    Slot(ls, i, k) && (ls[i].closed || k + 1 < |ls[i].pts|)
  }

  function Following(l: Line, k: nat): nat
    requires k < |l.pts|
  {
    if k + 1 == |l.pts| then 0 else k + 1
  }

  function Preceding(l: Line, k: nat): nat
    requires k < |l.pts|
  {
    if k == 0 then |l.pts| - 1 else k - 1
  }

  function SegEnd(ls: seq<Line>, i: nat, k: nat): Point
    requires Seg(ls, i, k)
  {
    ls[i].pts[Following(ls[i], k)]
  }

  // The vertices that simplification must keep: the ends of a line, the start of a ring that is not free.
  predicate FixedSlot(l: Line, k: nat) {
    !l.free && (k == 0 || (!l.closed && k + 1 == |l.pts|))
  }

  predicate WellFormed(l: Line) {
    && (l.free ==> l.closed)
    && (l.closed ==> |l.pts| >= 3)
    && |l.pts| >= 2
  }

  // An open line does not end where it begins.
  predicate EndsDiffer(l: Line) {
    !l.closed && |l.pts| > 0 ==> l.pts[0] != l.pts[|l.pts| - 1]
  }

  predicate AllEndsDiffer(ls: seq<Line>) {
    forall i :: 0 <= i < |ls| ==> EndsDiffer(ls[i])
  }

  // No two segments meet except at a common end point.
  ghost predicate SegmentsApart(ls: seq<Line>) {
    forall i: nat, k: nat, j: nat, m: nat :: Seg(ls, i, k) && Seg(ls, j, m) && (i, k) != (j, m) ==>
      MeetOnlyAtEnds(At(ls, i, k), SegEnd(ls, i, k), At(ls, j, m), SegEnd(ls, j, m))
  }

  // Lines touch only at their fixed vertices.
  ghost predicate VerticesApart(ls: seq<Line>) {
    forall i: nat, k: nat, j: nat, m: nat :: Slot(ls, i, k) && Slot(ls, j, m) && (i, k) != (j, m) ==>
      At(ls, i, k) == At(ls, j, m) ==> FixedSlot(ls[i], k) && FixedSlot(ls[j], m)
  }

  ghost predicate Arranged(ls: seq<Line>) {
    && (forall i :: 0 <= i < |ls| ==> WellFormed(ls[i]))
    && AllEndsDiffer(ls)
    && SegmentsApart(ls)
    && VerticesApart(ls)
  }

  // ---- Cutting a corner

  // Slot k of line i is a corner with room to be cut.
  predicate Cuttable(ls: seq<Line>, i: nat, k: nat) {
    && Slot(ls, i, k)
    && !FixedSlot(ls[i], k)
    && |ls[i].pts| > (if ls[i].closed then 3 else 2)
  }

  function CornerPrev(ls: seq<Line>, i: nat, k: nat): Point
    requires Slot(ls, i, k)
  {
    At(ls, i, Preceding(ls[i], k))
  }

  function CornerNext(ls: seq<Line>, i: nat, k: nat): Point
    requires Slot(ls, i, k)
  {
    At(ls, i, Following(ls[i], k))
  }

  predicate IsBaseline(a: Point, c: Point, p0: Point, p1: Point) {
    (a == p0 && c == p1) || (a == p1 && c == p0)
  }

  // One line does not stand in the way of cutting the corner a, b, c: no live vertex of it
  // is in the corner triangle, and it is not another two-vertex line equal to the base.
  predicate LineClear(l: Line, own: bool, a: Point, b: Point, c: Point) {
    && (forall m :: 0 <= m < |l.pts| ==> !Blocks(l.pts[m], a, b, c))
    && (!own && |l.pts| == 2 ==> !IsBaseline(a, c, l.pts[0], l.pts[1]))
  }

  // No line stands in the way of cutting the corner a, b, c of line i.
  predicate CornerClear(ls: seq<Line>, i: nat, a: Point, b: Point, c: Point) {
    forall j :: 0 <= j < |ls| ==> LineClear(ls[j], j == i, a, b, c)
  }

  predicate Removable(ls: seq<Line>, i: nat, k: nat)
    requires Slot(ls, i, k)
  {
    CornerClear(ls, i, CornerPrev(ls, i, k), At(ls, i, k), CornerNext(ls, i, k))
  }

  function WithoutVertex(l: Line, k: nat): Line
    requires k < |l.pts|
  {
    l.(pts := l.pts[..k] + l.pts[k + 1..])
  }

  function Cut(ls: seq<Line>, i: nat, k: nat): seq<Line>
    requires Slot(ls, i, k)
  {
    ls[i := WithoutVertex(ls[i], k)]
  }

  // The slot that (j, m) had before slot (i, k) was cut.
  function OldSlot(i: nat, k: nat, j: nat, m: nat): nat {
    if j == i && m >= k then m + 1 else m
  }

  lemma CutSlot(ls: seq<Line>, i: nat, k: nat, j: nat, m: nat)
    requires Slot(ls, i, k) && Slot(Cut(ls, i, k), j, m)
    ensures var o := OldSlot(i, k, j, m);
      && Slot(ls, j, o) && (j, o) != (i, k)
      && At(ls, j, o) == At(Cut(ls, i, k), j, m)
  {
  }

  // A segment after the cut is an old segment, or the base of the corner.
  lemma CutSeg(ls: seq<Line>, i: nat, k: nat, j: nat, m: nat)
    requires Cuttable(ls, i, k) && WellFormed(ls[i])
    requires Seg(Cut(ls, i, k), j, m)
    ensures var o := OldSlot(i, k, j, m);
      && Seg(ls, j, o)
      && At(ls, j, o) == At(Cut(ls, i, k), j, m)
      && (if j == i && o == Preceding(ls[i], k)
          then SegEnd(Cut(ls, i, k), j, m) == CornerNext(ls, i, k)
          else SegEnd(Cut(ls, i, k), j, m) == SegEnd(ls, j, o) && (j, o) != (i, k))
  {
  }

  // Both sides of a cuttable corner are segments.
  lemma CornerSides(ls: seq<Line>, i: nat, k: nat)
    requires Cuttable(ls, i, k) && WellFormed(ls[i])
    ensures var p := Preceding(ls[i], k);
      && p != k && Seg(ls, i, p) && Seg(ls, i, k)
      && SegEnd(ls, i, p) == At(ls, i, k) && SegEnd(ls, i, k) == CornerNext(ls, i, k)
  {
  }

  lemma NeighboursDistinct(ls: seq<Line>, i: nat, k: nat)
    requires Arranged(ls) && Cuttable(ls, i, k)
    ensures CornerPrev(ls, i, k) != At(ls, i, k) && At(ls, i, k) != CornerNext(ls, i, k)
    ensures CornerPrev(ls, i, k) != CornerNext(ls, i, k)
    ensures MeetOnlyAtEnds(CornerPrev(ls, i, k), At(ls, i, k), At(ls, i, k), CornerNext(ls, i, k))
  {
    CornerSides(ls, i, k);
    OuterVerticesDistinct(CornerPrev(ls, i, k), At(ls, i, k), CornerNext(ls, i, k));
  }

  lemma SharedVertexFixed(ls: seq<Line>, i: nat, k: nat, j: nat, m: nat)
    requires Arranged(ls) && Slot(ls, i, k) && Slot(ls, j, m)
    requires At(ls, i, k) == At(ls, j, m)
    ensures (i, k) == (j, m) || (FixedSlot(ls[i], k) && FixedSlot(ls[j], m))
  {
  }

  // Every segment of an arranged set has two distinct ends.
  lemma SegmentProper(ls: seq<Line>, j: nat, m: nat)
    requires Arranged(ls) && Seg(ls, j, m)
    ensures At(ls, j, m) != SegEnd(ls, j, m)
  {
    var f := Following(ls[j], m);
    if At(ls, j, m) == At(ls, j, f) {
      SharedVertexFixed(ls, j, m, j, f);
      assert false;
    }
  }

  // No other segment joins the two ends of a removable corner's base.
  lemma BaseIsNew(ls: seq<Line>, i: nat, k: nat, j: nat, m: nat)
    requires Arranged(ls) && Cuttable(ls, i, k) && Removable(ls, i, k)
    requires Seg(ls, j, m) && (j, m) != (i, k) && (j, m) != (i, Preceding(ls[i], k))
    ensures !IsBaseline(CornerPrev(ls, i, k), CornerNext(ls, i, k), At(ls, j, m), SegEnd(ls, j, m))
  {
    var p, n, f := Preceding(ls[i], k), Following(ls[i], k), Following(ls[j], m);
    var a, c, d, e := At(ls, i, p), At(ls, i, n), At(ls, j, m), At(ls, j, f);
    if d == a && e == c {
      SharedVertexFixed(ls, j, m, i, p);
      SharedVertexFixed(ls, j, f, i, n);
      assert false;
    } else if d == c && e == a {
      SharedVertexFixed(ls, j, m, i, n);
      SharedVertexFixed(ls, j, f, i, p);
      assert false;
    }
  }

  lemma CutVerticesApart(ls: seq<Line>, i: nat, k: nat)
    requires Arranged(ls) && Cuttable(ls, i, k)
    ensures VerticesApart(Cut(ls, i, k))
  {
    var cut := Cut(ls, i, k);
    forall i1: nat, k1: nat, j1: nat, m1: nat
      | Slot(cut, i1, k1) && Slot(cut, j1, m1) && (i1, k1) != (j1, m1) && At(cut, i1, k1) == At(cut, j1, m1)
      ensures FixedSlot(cut[i1], k1) && FixedSlot(cut[j1], m1)
    {
      CutSlot(ls, i, k, i1, k1);
      CutSlot(ls, i, k, j1, m1);
      CutFixed(ls, i, k, i1, k1);
      CutFixed(ls, i, k, j1, m1);
    }
  }

  lemma CutFixed(ls: seq<Line>, i: nat, k: nat, j: nat, m: nat)
    requires Cuttable(ls, i, k) && WellFormed(ls[i]) && Slot(Cut(ls, i, k), j, m)
    ensures FixedSlot(Cut(ls, i, k)[j], m) == FixedSlot(ls[j], OldSlot(i, k, j, m))
  {
  }

  // The base against one old segment.
  lemma BaseApart(ls: seq<Line>, i: nat, k: nat, j: nat, m: nat)
    requires Arranged(ls) && Cuttable(ls, i, k) && Removable(ls, i, k)
    requires Seg(ls, j, m) && (j, m) != (i, k) && (j, m) != (i, Preceding(ls[i], k))
    ensures MeetOnlyAtEnds(CornerPrev(ls, i, k), CornerNext(ls, i, k), At(ls, j, m), SegEnd(ls, j, m))
  {
    var p, f := Preceding(ls[i], k), Following(ls[j], m);
    var a, b, c, d, e := CornerPrev(ls, i, k), At(ls, i, k), CornerNext(ls, i, k), At(ls, j, m), SegEnd(ls, j, m);
    CornerSides(ls, i, k);
    NeighboursDistinct(ls, i, k);
    SegmentProper(ls, j, m);
    BaseIsNew(ls, i, k, j, m);
    assert Slot(ls, j, m) && Slot(ls, j, f);
    assert d != b;
    assert e != b by { assert (j, f) != (i, k); }
    assert MeetOnlyAtEnds(a, b, d, e) by { assert (i, p) != (j, m); }
    assert MeetOnlyAtEnds(b, c, d, e);
    BaseMeetsOnlyAtEnds(a, b, c, d, e);
  }

  lemma CutSegmentsApart(ls: seq<Line>, i: nat, k: nat)
    requires Arranged(ls) && Cuttable(ls, i, k) && Removable(ls, i, k)
    ensures SegmentsApart(Cut(ls, i, k))
  {
    var cut, p := Cut(ls, i, k), Preceding(ls[i], k);
    forall i1: nat, k1: nat, j1: nat, m1: nat
      | Seg(cut, i1, k1) && Seg(cut, j1, m1) && (i1, k1) != (j1, m1)
      ensures MeetOnlyAtEnds(At(cut, i1, k1), SegEnd(cut, i1, k1), At(cut, j1, m1), SegEnd(cut, j1, m1))
    {
      CutSeg(ls, i, k, i1, k1);
      CutSeg(ls, i, k, j1, m1);
      var o1, o2 := OldSlot(i, k, i1, k1), OldSlot(i, k, j1, m1);
      if i1 == i && o1 == p {
        BaseApart(ls, i, k, j1, o2);
      } else if j1 == i && o2 == p {
        BaseApart(ls, i, k, i1, o1);
        MeetSwap(CornerPrev(ls, i, k), CornerNext(ls, i, k), At(ls, i1, o1), SegEnd(ls, i1, o1));
      }
    }
  }

  /** Cutting a removable corner keeps lines touching only at their fixed vertices. */
  lemma CutKeepsArranged(ls: seq<Line>, i: nat, k: nat)
    requires Arranged(ls) && Cuttable(ls, i, k) && Removable(ls, i, k)
    ensures Arranged(Cut(ls, i, k))
  {
    CutVerticesApart(ls, i, k);
    CutSegmentsApart(ls, i, k);
    var cut := Cut(ls, i, k);
    forall j | 0 <= j < |cut| ensures WellFormed(cut[j]) {
      assert WellFormed(ls[j]);
    }
  }
}
