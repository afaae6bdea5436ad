/**
 When the simplifier leaves small corners: never on a line that nothing stands in the way of,
 while two lines that reach into each other may keep a corner that could be cut.
 */
module SmallCorners {
  import opened Planar
  import opened CoordinateLists
  import opened Pasch
  import opened Arrangement
  import opened SimplifyRuns
  import opened LeastCorners
  import opened Tpvw
  import opened TpvwSimplifier

  // ---- Nothing stands in the way

  // The slots p, q, r follow one another along the line, around the start of a ring as well.
  predicate InLineOrder(l: Line, p: nat, q: nat, r: nat) {
    && p < |l.pts| && q < |l.pts| && r < |l.pts|
    && (p < q < r || (l.closed && (q < r < p || r < p < q)))
  }

  // Vertices p, q, r of line i would make a corner small enough to be cut.
  predicate SmallTriple(ls: seq<Line>, i: nat, p: nat, q: nat, r: nat, tolerance: real) {
    && i < |ls| && InLineOrder(ls[i], p, q, r)
    && TriangleArea(ls[i].pts[p], ls[i].pts[q], ls[i].pts[r]) <= tolerance
  }

  // No vertex of line j is in the triangle a, b, c, and a, c are not the ends of it as another open line.
  predicate KeepsClear(ls: seq<Line>, j: nat, i: nat, a: Point, b: Point, c: Point)
    requires j < |ls|
  {
    && (forall m :: 0 <= m < |ls[j].pts| ==> !Blocks(ls[j].pts[m], a, b, c))
    && (j != i && !ls[j].closed && |ls[j].pts| > 0 ==>
          !IsBaseline(a, c, ls[j].pts[0], ls[j].pts[|ls[j].pts| - 1]))
  }

  predicate TripleClear(ls: seq<Line>, j: nat, i: nat, p: nat, q: nat, r: nat, tolerance: real) {
    j < |ls| && SmallTriple(ls, i, p, q, r, tolerance) ==>
      KeepsClear(ls, j, i, ls[i].pts[p], ls[i].pts[q], ls[i].pts[r])
  }

  // Whatever vertices of line i are taken out, no line keeps a small corner of it from being cut.
  ghost predicate NeverInTheWay(ls: seq<Line>, i: nat, tolerance: real) {
    forall j: nat, p: nat, q: nat, r: nat :: TripleClear(ls, j, i, p, q, r, tolerance)
  }

  // Every line is a well formed part of the one it was.
  ghost predicate AllThinned(ls: seq<Line>, later: seq<Line>) {
    |later| == |ls| && forall j :: 0 <= j < |ls| ==> WellFormed(later[j]) && Thinned(later[j], ls[j])
  }

  lemma ThinnedSelf(ls: seq<Line>)
    requires forall j :: 0 <= j < |ls| ==> WellFormed(ls[j])
    ensures AllThinned(ls, ls)
  {
    forall j | 0 <= j < |ls| ensures Thinned(ls[j], ls[j]) {
      SubsequenceSelf(ls[j].pts);
    }
  }

  lemma RunAllThinned(ls: seq<Line>, before: seq<Line>, i: nat, cuts: seq<nat>, tolerance: real)
    requires AllThinned(ls, before) && i < |ls| && Run(before, i, cuts, tolerance)
    ensures AllThinned(ls, After(before, i, cuts, tolerance))
  {
    RunFrame(before, i, cuts, tolerance);
    RunThins(before, i, cuts, tolerance);
    var after := After(before, i, cuts, tolerance);
    ThinnedTrans(after[i], before[i], ls[i]);
    hide Thinned;
    hide WellFormed;
  }

  lemma {:induction false} ReachedThinned(ls: seq<Line>, after: seq<Line>, n: nat, tolerance: real)
    requires Reached(ls, after, n, tolerance) && n <= |ls| && forall j :: 0 <= j < |ls| ==> WellFormed(ls[j])
    ensures AllThinned(ls, after)
    decreases n
  {
    hide *;
    var before, cuts := ReachedBefore(ls, after, n, tolerance);
    if n == 0 {
      ThinnedSelf(ls);
    } else {
      var i := n - 1;
      RunLeadsParts(before, after, i, cuts, tolerance);
      ReachedThinned(ls, before, i, tolerance);
      RunAllThinned(ls, before, i, cuts, tolerance);
    }
  }

  // The places in the line that was of the corner at slot k.
  lemma CornerPlaces(later: Line, earlier: Line, k: nat) returns (p: nat, q: nat, r: nat)
    requires WellFormed(later) && Thinned(later, earlier) && k < |later.pts| && !FixedSlot(later, k)
    ensures InLineOrder(earlier, p, q, r)
    ensures earlier.pts[p] == later.pts[Preceding(later, k)] && earlier.pts[q] == later.pts[k]
    ensures earlier.pts[r] == later.pts[Following(later, k)]
  {
    var from :| PickedBy(later.pts, earlier.pts, from);
    p, q, r := from[Preceding(later, k)], from[k], from[Following(later, k)];
  }

  // What stands in the way of a corner later on did so before.
  lemma ClearLater(ls: seq<Line>, later: seq<Line>, j: nat, i: nat, a: Point, b: Point, c: Point)
    requires AllThinned(ls, later) && j < |ls| && i < |ls| && WellFormed(ls[j]) && KeepsClear(ls, j, i, a, b, c)
    ensures LineClear(later[j], j == i, a, b, c)
  {
    var from :| PickedBy(later[j].pts, ls[j].pts, from);
    forall m | 0 <= m < |later[j].pts| ensures !Blocks(later[j].pts[m], a, b, c) {
      assert later[j].pts[m] == ls[j].pts[from[m]];
    }
  }

  // A corner that nothing stands in the way of from the start is never found blocked.
  lemma NotBlockedInRun(ls: seq<Line>, before: seq<Line>, i: nat, cuts: seq<nat>, tolerance: real,
                        a: Point, b: Point, c: Point)
    requires AllThinned(ls, before) && i < |ls| && forall j :: 0 <= j < |ls| ==> WellFormed(ls[j])
    requires forall j: nat :: j < |ls| ==> KeepsClear(ls, j, i, a, b, c)
    ensures !Blocked(before, i, cuts, tolerance, a, b, c)
  {
    if t: nat :| BlockedAfter(before, i, cuts, tolerance, t, a, b, c) {
      var r := After(before, i, cuts[..t], tolerance);
      RunAllThinned(ls, before, i, cuts[..t], tolerance);
      hide *;
      ThinnedClear(ls, r, i, a, b, c);
      NotClear(before, i, cuts, tolerance, t, a, b, c);
      assert false;
    }
  }

  lemma NotClear(before: seq<Line>, i: nat, cuts: seq<nat>, tolerance: real, t: nat, a: Point, b: Point, c: Point)
    requires BlockedAfter(before, i, cuts, tolerance, t, a, b, c)
    ensures t <= |cuts| && Run(before, i, cuts[..t], tolerance)
    ensures !CornerClear(After(before, i, cuts[..t], tolerance), i, a, b, c)
  {
  }

  lemma ThinnedClear(ls: seq<Line>, later: seq<Line>, i: nat, a: Point, b: Point, c: Point)
    requires AllThinned(ls, later) && i < |ls| && forall j :: 0 <= j < |ls| ==> WellFormed(ls[j])
    requires forall j: nat :: j < |ls| ==> KeepsClear(ls, j, i, a, b, c)
    ensures CornerClear(later, i, a, b, c)
  {
    forall j | 0 <= j < |later| ensures LineClear(later[j], j == i, a, b, c) {
      ClearLater(ls, later, j, i, a, b, c);
    }
  }

  // Nothing is left of line i when its own run is done.
  lemma NothingLeftByRun(ls: seq<Line>, before: seq<Line>, i: nat, cuts: seq<nat>, k: nat, tolerance: real)
    requires AllThinned(ls, before) && i < |ls| && forall j :: 0 <= j < |ls| ==> WellFormed(ls[j])
    requires NeverInTheWay(ls, i, tolerance)
    requires Run(before, i, cuts, tolerance) && Exhausted(before, i, cuts, tolerance)
    requires Cuttable(After(before, i, cuts, tolerance), i, k)
    ensures CornerArea(After(before, i, cuts, tolerance), i, k) > tolerance
  {
    var r := After(before, i, cuts, tolerance);
    RunAllThinned(ls, before, i, cuts, tolerance);
    if CornerArea(r, i, k) <= tolerance {
      var x, y, z := CornerPlaces(r[i], ls[i], k);
      var a, b, c := CornerPrev(r, i, k), At(r, i, k), CornerNext(r, i, k);
      forall j: nat | j < |ls| ensures KeepsClear(ls, j, i, a, b, c) {
        assert TripleClear(ls, j, i, x, y, z, tolerance);
      }
      NotBlockedInRun(ls, before, i, cuts, tolerance, a, b, c);
      assert false;
    }
  }

  lemma SameLineSameCorner(before: seq<Line>, after: seq<Line>, i: nat, k: nat)
    requires i < |before| && i < |after| && before[i] == after[i] && Cuttable(after, i, k)
    ensures Cuttable(before, i, k) && CornerArea(before, i, k) == CornerArea(after, i, k)
  {
  }

  /** A line that nothing stands in the way of keeps no small corner, whatever the order of the cuts. */
  lemma {:induction false} NothingIsLeft(ls: seq<Line>, after: seq<Line>, n: nat, i: nat, k: nat, tolerance: real)
    requires Reached(ls, after, n, tolerance) && i < n <= |ls|
    requires forall j :: 0 <= j < |ls| ==> WellFormed(ls[j])
    requires NeverInTheWay(ls, i, tolerance) && Cuttable(after, i, k)
    ensures CornerArea(after, i, k) > tolerance
    decreases n
  {
    hide *;
    var m := n - 1;
    var before, cuts := ReachedBefore(ls, after, n, tolerance);
    RunLeadsParts(before, after, m, cuts, tolerance);
    ReachedThinned(ls, before, m, tolerance);
    if i == m {
      NothingLeftByRun(ls, before, i, cuts, k, tolerance);
    } else {
      RunLeavesOthers(ls, before, m, cuts, tolerance, i);
      SameLineSameCorner(before, after, i, k);
      NothingIsLeft(ls, before, m, i, k, tolerance);
    }
  }

  lemma RunLeavesOthers(ls: seq<Line>, before: seq<Line>, m: nat, cuts: seq<nat>, tolerance: real, i: nat)
    requires AllThinned(ls, before) && m < |ls| && i < |ls| && i != m && Run(before, m, cuts, tolerance)
    ensures var after := After(before, m, cuts, tolerance);
      i < |before| && i < |after| && after[i] == before[i]
  {
    RunFrame(before, m, cuts, tolerance);
    hide Run;
    hide After;
  }

  // ---- A small corner that is left, or not, by the order of the lines

  // The second line reaches into the only corner of the first one, which comes first.
  function TwoCorners(): seq<Line> {
    [Upper(), Lower()]
  }

  // The same two lines, with the one that reaches into the other first.
  function TwoCornersSwapped(): seq<Line> {
    [Lower(), Upper()]
  }

  function Upper(): Line {
    Line([Point(0.0, 0.0), Point(5.0, 1.0), Point(10.0, 0.0)], false, false)
  }

  function Lower(): Line {
    Line([Point(3.0, -5.0), Point(5.0, 0.5), Point(7.0, -5.0)], false, false)
  }

  function LowerCut(): Line {
    Line([Point(3.0, -5.0), Point(7.0, -5.0)], false, false)
  }

  function UpperCut(): Line {
    Line([Point(0.0, 0.0), Point(10.0, 0.0)], false, false)
  }

  lemma OnlyMiddleCuttable(ls: seq<Line>, i: nat, k: nat)
    requires i < |ls| && !ls[i].free && !ls[i].closed
    ensures |ls[i].pts| == 3 ==> (Cuttable(ls, i, k) <==> k == 1)
    ensures |ls[i].pts| == 2 ==> !Cuttable(ls, i, k)
  {
  }

  // Of the upper line and the lower one, cut or not, what stands in the way of which corner.
  lemma WhatIsClear()
    ensures var u, l := Upper().pts, Lower().pts;
      && !LineClear(Lower(), false, u[0], u[1], u[2])
      && LineClear(LowerCut(), false, u[0], u[1], u[2]) && LineClear(Upper(), true, u[0], u[1], u[2])
      && LineClear(Upper(), false, l[0], l[1], l[2]) && LineClear(Lower(), true, l[0], l[1], l[2])
    ensures Blocks(Lower().pts[1], Upper().pts[0], Upper().pts[1], Upper().pts[2])
  {
    var u, l := Upper().pts, Lower().pts;
    assert Blocks(l[1], u[0], u[1], u[2]);
    forall m | 0 <= m < 3 ensures !Blocks(u[m], l[0], l[1], l[2]) {
      if m == 1 { assert Orientation(l[0], l[1], u[1]) == 1; }
    }
    forall m | 0 <= m < 2 ensures !Blocks(LowerCut().pts[m], u[0], u[1], u[2]) {}
  }

  // The same for the states that simplifying them in turn goes through.
  lemma StatesClear()
    ensures var u, l := Upper().pts, Lower().pts;
      && !CornerClear([Upper(), Lower()], 0, u[0], u[1], u[2])
      && CornerClear([Upper(), Lower()], 1, l[0], l[1], l[2])
      && CornerClear([Upper(), LowerCut()], 0, u[0], u[1], u[2])
      && CornerClear([Lower(), Upper()], 0, l[0], l[1], l[2])
      && CornerClear([LowerCut(), Upper()], 1, u[0], u[1], u[2])
  {
    WhatIsClear();
    hide LineClear;
    assert [Upper(), Lower()][1] == Lower();
  }

  lemma Areas()
    ensures TriangleArea(Upper().pts[0], Upper().pts[1], Upper().pts[2]) == 5.0
    ensures TriangleArea(Lower().pts[0], Lower().pts[1], Lower().pts[2]) == 11.0
  {
  }

  // The only corner of a line of three vertices, where it can be cut and where it cannot.
  lemma OnlyCorner(ls: seq<Line>, i: nat, l: Line, k: nat, tolerance: real)
    requires i < |ls| && ls[i] == l && !l.free && !l.closed && |l.pts| == 3
    ensures CutAllowed(ls, i, k, tolerance) <==>
      k == 1 && CornerClear(ls, i, l.pts[0], l.pts[1], l.pts[2]) &&
      TriangleArea(l.pts[0], l.pts[1], l.pts[2]) <= tolerance
    ensures Cut(ls, i, 1)[i] == Line([l.pts[0], l.pts[2]], false, false)
  {
    OnlyMiddleCuttable(ls, i, k);
  }

  // Where the only corner is blocked, a run cuts nothing.
  lemma BlockedRun(ls: seq<Line>, i: nat, l: Line, cuts: seq<nat>, tolerance: real)
    requires i < |ls| && ls[i] == l && !l.free && !l.closed && |l.pts| == 3
    requires !CornerClear(ls, i, l.pts[0], l.pts[1], l.pts[2]) && Run(ls, i, cuts, tolerance)
    ensures After(ls, i, cuts, tolerance) == ls
  {
    if cuts != [] { OnlyCorner(ls, i, l, cuts[0], tolerance); }
  }

  // Where it is clear and small, an exhausted run cuts it and stops.
  lemma ClearRun(ls: seq<Line>, i: nat, l: Line, cuts: seq<nat>, tolerance: real)
    requires i < |ls| && ls[i] == l && !l.free && !l.closed && |l.pts| == 3
    requires CornerClear(ls, i, l.pts[0], l.pts[1], l.pts[2])
    requires TriangleArea(l.pts[0], l.pts[1], l.pts[2]) <= tolerance
    requires Run(ls, i, cuts, tolerance) && Exhausted(ls, i, cuts, tolerance)
    ensures After(ls, i, cuts, tolerance) == Cut(ls, i, 1)
  {
    OnlyCorner(ls, i, l, 1, tolerance);
    if cuts == [] {
      NothingToCut(ls, i, 1, tolerance);
      assert false;
    } else {
      OnlyCorner(ls, i, l, cuts[0], tolerance);
      if |cuts| > 1 { OnlyMiddleCuttable(Cut(ls, i, 1), i, cuts[1]); }
    }
  }

  // The runs that simplifying two lines in turn is made of.
  lemma TwoRuns(ls: seq<Line>, after: seq<Line>, tolerance: real)
    returns (mid: seq<Line>, first: seq<nat>, second: seq<nat>)
    requires Reached(ls, after, 2, tolerance)
    ensures RunLeads(ls, mid, 0, first, tolerance) && RunLeads(mid, after, 1, second, tolerance)
  {
    hide *;
    mid, second := ReachedBefore(ls, after, 2, tolerance);
    var start;
    start, first := ReachedBefore(ls, mid, 1, tolerance);
    var none, cuts := ReachedBefore(ls, start, 0, tolerance);
  }

  lemma CutFirst(l: Line, other: Line)
    requires !l.free && !l.closed && |l.pts| == 3
    ensures Cut([l, other], 0, 1) == [Line([l.pts[0], l.pts[2]], false, false), other]
    ensures Cut([other, l], 1, 1) == [other, Line([l.pts[0], l.pts[2]], false, false)]
  {
    assert l.pts[..1] + l.pts[2..] == [l.pts[0], l.pts[2]];
  }

  /** Simplified in turn, the lines are left with a corner that could now be cut: it is not tried again. */
  lemma CornerIsLeft(after: seq<Line>)
    requires Reached(TwoCorners(), after, 2, 16.0)
    ensures CutAllowed(after, 0, 1, 16.0)
  {
    var ls, u, l := [Upper(), Lower()], Upper(), Lower();
    assert TwoCorners() == ls && LowerCut() == Line([l.pts[0], l.pts[2]], false, false);
    StatesClear();
    Areas();
    hide *;
    var mid, first, second := TwoRuns(ls, after, 16.0);
    RunLeadsParts(ls, mid, 0, first, 16.0);
    RunLeadsParts(mid, after, 1, second, 16.0);
    BlockedRun(ls, 0, u, first, 16.0);
    ClearRun(ls, 1, l, second, 16.0);
    CutFirst(l, u);
    OnlyCorner(after, 0, u, 1, 16.0);
  }

  lemma LowerInTheWay()
    ensures !NeverInTheWay(TwoCornersSwapped(), 1, 16.0)
  {
    WhatIsClear();
    Areas();
    hide Blocks;
    hide LineClear;
    hide TriangleArea;
    var ls := TwoCornersSwapped();
    assert ls[0].pts[1] == Lower().pts[1];
    assert !TripleClear(ls, 0, 1, 0, 1, 2, 16.0);
  }

  lemma CutLinesAre()
    ensures LowerCut() == Line([Lower().pts[0], Lower().pts[2]], false, false)
    ensures UpperCut() == Line([Upper().pts[0], Upper().pts[2]], false, false)
  {
  }

  lemma SwappedResult(after: seq<Line>)
    requires Reached([Lower(), Upper()], after, 2, 16.0)
    ensures after == [LowerCut(), UpperCut()]
  {
    var ls, u, l := [Lower(), Upper()], Upper(), Lower();
    CutLinesAre();
    StatesClear();
    Areas();
    CutFirst(l, u);
    CutFirst(u, LowerCut());
    hide *;
    var mid, first, second := TwoRuns(ls, after, 16.0);
    RunLeadsParts(ls, mid, 0, first, 16.0);
    RunLeadsParts(mid, after, 1, second, 16.0);
    ClearRun(ls, 0, l, first, 16.0);
    ClearRun(mid, 1, u, second, 16.0);
  }

  lemma NothingCuttable(after: seq<Line>, i: nat, k: nat)
    requires after == [LowerCut(), UpperCut()]
    ensures !Cuttable(after, i, k)
  {
    if i < 2 { OnlyMiddleCuttable(after, i, k); }
  }

  /** In the other order nothing is left, although the lower line is in the way of the upper one all the same. */
  lemma NoCornerIsLeft(after: seq<Line>, i: nat, k: nat)
    requires Reached(TwoCornersSwapped(), after, 2, 16.0)
    ensures !NeverInTheWay(TwoCornersSwapped(), 1, 16.0) && !Cuttable(after, i, k)
  {
    assert TwoCornersSwapped() == [Lower(), Upper()];
    hide *;
    LowerInTheWay();
    SwappedResult(after);
    NothingCuttable(after, i, k);
  }

  // The only corner of a line of three vertices is tried once if it is small.
  lemma OnlyCandidate(s: State, i: nat, l: Line, k: nat, tolerance: real)
    requires Fits(s, i) && s.ls[i] == l && !l.free && !l.closed
    ensures |l.pts| == 2 ==> !Candidate(s, i, k, tolerance)
    ensures |l.pts| == 3 ==> (Candidate(s, i, k, tolerance) <==>
      k == 1 && CornerAt(s, i, 1) !in s.rejected && TriangleArea(l.pts[0], l.pts[1], l.pts[2]) <= tolerance)
  {
    hide TriangleArea;
    OnlyMiddleCuttable(s.ls, i, k);
  }

  lemma OnlyTried(ls: seq<Line>, i: nat, l: Line, tolerance: real)
    requires i < |ls| && ls[i] == l && !l.free && !l.closed && |l.pts| == 3
    ensures TriangleArea(l.pts[0], l.pts[1], l.pts[2]) > tolerance ==> LeastFirst(ls, i, tolerance, ls)
    ensures TriangleArea(l.pts[0], l.pts[1], l.pts[2]) <= tolerance ==>
      LeastFirst(ls, i, tolerance, if CornerClear(ls, i, l.pts[0], l.pts[1], l.pts[2]) then Cut(ls, i, 1) else ls)
  {
    var s := Start(ls, i);
    LeadsNone(s, i, tolerance);
    forall k: nat {
      OnlyCandidate(s, i, l, k, tolerance);
    }
    if TriangleArea(l.pts[0], l.pts[1], l.pts[2]) > tolerance {
      IsLeastFirst(ls, i, [], tolerance, s);
    } else {
      var t := Try(s, i, 1);
      NextTried(s, i, tolerance, t);
      TriedOnce(s, i, l, t, tolerance);
      IsLeastFirst(ls, i, [1], tolerance, t);
    }
  }

  lemma NextTried(s: State, i: nat, tolerance: real, t: State)
    requires Candidate(s, i, 1, tolerance) && forall k: nat :: Candidate(s, i, k, tolerance) ==> k == 1
    requires t == Try(s, i, 1)
    ensures Leads(s, i, [1], tolerance, t)
  {
    LeadsNone(s, i, tolerance);
    hide Candidate;
    hide Try;
    assert Step(s, i, 1, tolerance, t);
    LeadsOn(s, i, [], tolerance, s, 1, t);
    assert [] + [1] == [1];
  }

  lemma TriedOnce(s: State, i: nat, l: Line, t: State, tolerance: real)
    requires Fits(s, i) && s.ls[i] == l && !l.free && !l.closed && |l.pts| == 3 && t == Try(s, i, 1)
    ensures Finished(t, i, tolerance)
    ensures t.ls == if CornerClear(s.ls, i, l.pts[0], l.pts[1], l.pts[2]) then Cut(s.ls, i, 1) else s.ls
  {
    hide CornerClear;
    hide TriangleArea;
    forall k: nat ensures !Candidate(t, i, k, tolerance) {
      OnlyCandidate(t, i, t.ls[i], k, tolerance);
    }
  }

  // Both outcomes do come about.
  lemma BlockedLeads(ls: seq<Line>, i: nat, l: Line, tolerance: real)
    requires i < |ls| && ls[i] == l && !l.free && !l.closed && |l.pts| == 3
    requires !CornerClear(ls, i, l.pts[0], l.pts[1], l.pts[2])
    ensures RunLeads(ls, ls, i, [], tolerance)
  {
    OnlyTried(ls, i, l, tolerance);
    hide CornerClear;
    hide LeastFirst;
    BlockedNow(ls, i, [], tolerance, l.pts[0], l.pts[1], l.pts[2]);
    forall k: nat | Cuttable(ls, i, k) ensures k == 1 { OnlyMiddleCuttable(ls, i, k); }
    hide Blocked;
  }

  lemma ClearLeads(ls: seq<Line>, i: nat, l: Line, tolerance: real)
    requires i < |ls| && ls[i] == l && !l.free && !l.closed && |l.pts| == 3
    requires CornerClear(ls, i, l.pts[0], l.pts[1], l.pts[2])
    requires TriangleArea(l.pts[0], l.pts[1], l.pts[2]) <= tolerance
    ensures RunLeads(ls, Cut(ls, i, 1), i, [1], tolerance)
  {
    OnlyTried(ls, i, l, tolerance);
    hide LeastFirst;
    OnlyCorner(ls, i, l, 1, tolerance);
    var r := Cut(ls, i, 1);
    forall k: nat ensures !Cuttable(r, i, k) { OnlyMiddleCuttable(r, i, k); }
    hide CornerClear;
    hide TriangleArea;
    hide CutAllowed;
    hide Cut;
    hide Cuttable;
    assert [1][1..] == [];
    assert Run(r, i, [], tolerance);
  }

  lemma ReachedNext(ls: seq<Line>, before: seq<Line>, after: seq<Line>, i: nat, cuts: seq<nat>, tolerance: real)
    requires Reached(ls, before, i, tolerance) && RunLeads(before, after, i, cuts, tolerance)
    ensures Reached(ls, after, i + 1, tolerance)
  {
    hide RunLeads;
  }

  lemma ReachedNone(ls: seq<Line>, tolerance: real)
    ensures Reached(ls, ls, 0, tolerance)
  {
  }

  /** The two lines are simplified to these, in the one order and in the other. */
  lemma BothReached()
    ensures Reached(TwoCorners(), [Upper(), LowerCut()], 2, 16.0)
    ensures Reached(TwoCornersSwapped(), [LowerCut(), UpperCut()], 2, 16.0)
  {
    var u, l := Upper(), Lower();
    var first, swapped := [u, l], [l, u];
    assert TwoCorners() == first && TwoCornersSwapped() == swapped;
    StatesClear();
    Areas();
    CutLinesAre();
    CutFirst(l, u);
    CutFirst(u, LowerCut());
    hide *;
    ReachedNone(first, 16.0);
    BlockedLeads(first, 0, u, 16.0);
    ReachedNext(first, first, first, 0, [], 16.0);
    ClearLeads(first, 1, l, 16.0);
    ReachedNext(first, first, [u, LowerCut()], 1, [1], 16.0);
    ReachedNone(swapped, 16.0);
    ClearLeads(swapped, 0, l, 16.0);
    ReachedNext(swapped, swapped, [LowerCut(), u], 0, [1], 16.0);
    ClearLeads([LowerCut(), u], 1, u, 16.0);
    ReachedNext(swapped, [LowerCut(), u], [LowerCut(), UpperCut()], 1, [1], 16.0);
  }

  // ---- Why an open line has different ends

  lemma LineIsThere(ls: seq<Line>, after: seq<Line>, i: nat)
    requires AllThinned(ls, after) && i < |ls| && forall j :: 0 <= j < |ls| ==> WellFormed(ls[j])
    ensures WellFormed(ls[i])
  {
  }

  lemma OpenLineEnds(ls: seq<Line>, after: seq<Line>, i: nat)
    requires AllThinned(ls, after) && i < |ls| && WellFormed(ls[i]) && !ls[i].closed && EndsDiffer(ls[i])
    ensures i < |after| && !after[i].closed && |after[i].pts| > 0 && |ls[i].pts| > 0
    ensures var early, late := ls[i].pts, after[i].pts;
      late[0] == early[0] && late[|late| - 1] == early[|early| - 1] && early[0] != early[|early| - 1]
    ensures Output(after[i]) == AddAll([], after[i].pts)
  {
    hide Subsequence;
    hide AddAll;
  }

  /** An open line with different ends is written out with both of them, whatever else is left of it. */
  lemma OpenLineKeepsEnds(ls: seq<Line>, after: seq<Line>, n: nat, i: nat, tolerance: real)
    requires Reached(ls, after, n, tolerance) && n <= |ls| && i < |ls| && !ls[i].closed && EndsDiffer(ls[i])
    requires forall j :: 0 <= j < |ls| ==> WellFormed(ls[j])
    ensures i < |after| && |ls[i].pts| > 0
    ensures var r, pts := Output(after[i]), ls[i].pts;
      |r| >= 2 && r[0] == pts[0] && r[|r| - 1] == pts[|pts| - 1]
  {
    hide *;
    ReachedThinned(ls, after, n, tolerance);
    LineIsThere(ls, after, i);
    OpenLineEnds(ls, after, i);
    AddAllKeepsEnds(after[i].pts);
  }

  lemma StraightBack(a: Point, b: Point)
    ensures TriangleArea(a, b, a) == 0.0
    ensures CornerClear([Line([a, b, a], false, false)], 0, a, b, a)
  {
  }

  lemma BackCut(a: Point, b: Point)
    ensures var cut := Cut([Line([a, b, a], false, false)], 0, 1);
      |cut| == 1 && cut[0] == Line([a, a], false, false)
    ensures AddAll([], [a, a]) == [a]
  {
    assert [a, b, a][..1] + [a, b, a][2..] == [a, a];
    assert [a, a][..1] == [a];
    assert AddAll([], [a, a][..1]) == [a] by { assert [a][..0] == []; }
  }

  /** A line from a point and straight back is cut down to that one point, which makes no line. */
  lemma ThereAndBack(a: Point, b: Point, after: seq<Line>, tolerance: real)
    requires tolerance >= 0.0 && Reached([Line([a, b, a], false, false)], after, 1, tolerance)
    ensures |after| == 1 && Output(after[0]) == [a]
  {
    var l := Line([a, b, a], false, false);
    StraightBack(a, b);
    BackCut(a, b);
    hide *;
    var start, cuts := ReachedBefore([l], after, 1, tolerance);
    var none, nothing := ReachedBefore([l], start, 0, tolerance);
    RunLeadsParts([l], after, 0, cuts, tolerance);
    ClearRun([l], 0, l, cuts, tolerance);
    BackOutput(after[0], a);
  }

  lemma BackOutput(l: Line, a: Point)
    requires l == Line([a, a], false, false) && AddAll([], [a, a]) == [a]
    ensures Output(l) == [a]
  {
    hide AddAll;
  }
}
