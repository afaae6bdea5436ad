/**
 The simplifier over all its edges: build them, simplify each in turn against all
 the others and the constraint lines, and write the results out.
 */
module TpvwSimplifier {
  import opened Planar
  import opened CoordinateLists
  import opened LinkedLines
  import opened Arrangement
  import opened SimplifyRuns
  import opened LeastCorners
  import opened Intersections
  import opened Tpvw

  // A line or ring the edges can be built from; only rings are flagged free.
  predicate EdgeInput(pts: seq<Point>, free: bool) {
    && |pts| >= 2
    && (free ==> IsRing(pts))
  }

  ghost predicate Unsimplified(e: Edge)
    reads e.linkedLine
  {
    e.linkedLine.live == Identity(|e.linkedLine.next|)
  }

  // One simplified line: the earlier one with non-fixed vertices left out, its area hardly changed.
  ghost predicate SimplifiedFrom(later: Line, earlier: Line, tolerance: real) {
    && Thinned(later, earlier)
    && |later.pts| <= |earlier.pts|
    && Abs(LineSum(later) - LineSum(earlier)) <= Allowance(tolerance, |earlier.pts| - |later.pts|)
  }

  lemma RunSimplifies(ls: seq<Line>, i: nat, cuts: seq<nat>, tolerance: real)
    requires i < |ls| && WellFormed(ls[i]) && Run(ls, i, cuts, tolerance)
    ensures |After(ls, i, cuts, tolerance)| == |ls|
    ensures SimplifiedFrom(After(ls, i, cuts, tolerance)[i], ls[i], tolerance)
  {
    RunFrame(ls, i, cuts, tolerance);
    RunThins(ls, i, cuts, tolerance);
    RunBoundsArea(ls, i, cuts, tolerance);
  }

  // In an arranged set no point is repeated, so a line is written out as it stands.
  lemma OutputIsLine(ls: seq<Line>, i: nat)
    requires Arranged(ls) && i < |ls|
    ensures Output(ls[i]) == if ls[i].closed then ls[i].pts + [ls[i].pts[0]] else ls[i].pts
  {
    var pts := ls[i].pts;
    forall k | 0 < k < |pts| ensures pts[k - 1] != pts[k] {
      SegmentProper(ls, i, k - 1);
    }
    AddAllNoRepeats([], pts);
    if ls[i].closed {
      SegmentProper(ls, i, |pts| - 1);
    }
  }

  function LinesOf(lines: seq<seq<Point>>, free: seq<bool>): (r: seq<Line>)
    requires |free| == |lines|
    ensures |r| == |lines|
    ensures forall i :: 0 <= i < |r| ==> r[i] == LineOf(lines[i], free[i])
  {
    seq(|lines|, i requires 0 <= i < |lines| => LineOf(lines[i], free[i]))
  }

  // Built from line k of the input and not yet simplified.
  ghost predicate NewEdge(e: Edge, pts: seq<Point>, free: bool, tolerance: real)
    reads e.linkedLine, e.vertexIndex
  {
    e.Valid() && Unsimplified(e) && e.areaTolerance == tolerance && e.View() == LineOf(pts, free)
  }

  method CreateEdge(pts: seq<Point>, free: bool, tolerance: real) returns (edge: Edge)
    requires EdgeInput(pts, free)
    ensures fresh(edge) && fresh(edge.linkedLine) && fresh(edge.vertexIndex) && NewEdge(edge, pts, free, tolerance)
  {
    edge := new Edge(pts, free, tolerance);
  }

  lemma SeparateMore(edges: seq<Edge>, e: Edge)
    requires Separate(edges)
    requires forall i :: 0 <= i < |edges| ==>
      edges[i] != e && edges[i].linkedLine != e.linkedLine && edges[i].vertexIndex != e.vertexIndex
    ensures Separate(edges + [e])
  {
  }

  method CreateEdges(lines: seq<seq<Point>>, free: seq<bool>, tolerance: real) returns (edges: seq<Edge>)
    requires |free| == |lines| && forall i :: 0 <= i < |lines| ==> EdgeInput(lines[i], free[i])
    ensures |edges| == |lines| && Separate(edges)
    ensures forall k :: 0 <= k < |edges| ==>
      fresh(edges[k]) && fresh(edges[k].linkedLine) && fresh(edges[k].vertexIndex) &&
        NewEdge(edges[k], lines[k], free[k], tolerance)
  {
    hide NewEdge;
    edges := [];
    for i := 0 to |lines|
      invariant |edges| == i && Separate(edges)
      invariant forall k :: 0 <= k < i ==>
        fresh(edges[k]) && fresh(edges[k].linkedLine) && fresh(edges[k].vertexIndex) &&
          NewEdge(edges[k], lines[k], free[k], tolerance)
    {
      var edge := CreateEdge(lines[i], free[i], tolerance);
      SeparateMore(edges, edge);
      edges := edges + [edge];
    }
  }

  // An exhausted run on line i, least corners first, leads from one arrangement to the other.
  ghost predicate RunLeads(before: seq<Line>, after: seq<Line>, i: nat, cuts: seq<nat>, tolerance: real) {
    && Run(before, i, cuts, tolerance) && Exhausted(before, i, cuts, tolerance)
    && after == After(before, i, cuts, tolerance) && LeastFirst(before, i, tolerance, after)
  }

  // What running over the first n lines in turn leads to, each run setting out where the last one ended.
  ghost predicate Reached(ls: seq<Line>, after: seq<Line>, n: nat, tolerance: real)
    decreases n
  {
    if n == 0 then after == ls
    else
      var i := n - 1;
      exists before, cuts :: Reached(ls, before, i, tolerance) && RunLeads(before, after, i, cuts, tolerance)
  }

  // The first n lines have been thinned by runs in turn, the others are as they were.
  ghost predicate ThinnedUpTo(ls: seq<Line>, after: seq<Line>, n: nat, tolerance: real) {
    && |after| == |ls| && n <= |ls| && Reached(ls, after, n, tolerance)
    && (forall j :: 0 <= j < n ==> SimplifiedFrom(after[j], ls[j], tolerance))
    && (forall j :: n <= j < |ls| ==> after[j] == ls[j])
  }

  // And all lines touch only at their fixed vertices.
  ghost predicate SimplifiedUpTo(ls: seq<Line>, after: seq<Line>, n: nat, tolerance: real) {
    ThinnedUpTo(ls, after, n, tolerance) && Arranged(after)
  }

  lemma ReachedNext(ls: seq<Line>, before: seq<Line>, i: nat, cuts: seq<nat>, tolerance: real)
    requires Reached(ls, before, i, tolerance)
    requires Run(before, i, cuts, tolerance) && Exhausted(before, i, cuts, tolerance)
    requires LeastFirst(before, i, tolerance, After(before, i, cuts, tolerance))
    ensures Reached(ls, After(before, i, cuts, tolerance), i + 1, tolerance)
  {
    hide Exhausted;
    hide LeastFirst;
    assert RunLeads(before, After(before, i, cuts, tolerance), i, cuts, tolerance);
  }

  // The last of the runs in turn.
  lemma ReachedBefore(ls: seq<Line>, after: seq<Line>, n: nat, tolerance: real)
    returns (before: seq<Line>, cuts: seq<nat>)
    requires Reached(ls, after, n, tolerance)
    ensures n == 0 ==> after == ls
    ensures n > 0 ==> Reached(ls, before, n - 1, tolerance) && RunLeads(before, after, n - 1, cuts, tolerance)
  {
    hide RunLeads;
    before, cuts := ls, [];
    if n > 0 {
      var i := n - 1;
      before, cuts :| Reached(ls, before, i, tolerance) && RunLeads(before, after, i, cuts, tolerance);
    }
  }

  lemma RunLeadsParts(before: seq<Line>, after: seq<Line>, i: nat, cuts: seq<nat>, tolerance: real)
    requires RunLeads(before, after, i, cuts, tolerance)
    ensures Run(before, i, cuts, tolerance) && Exhausted(before, i, cuts, tolerance)
    ensures after == After(before, i, cuts, tolerance) && LeastFirst(before, i, tolerance, after)
  {
    hide LeastFirst;
    hide Exhausted;
    hide Run;
  }

  /** The lines and the tolerance alone decide what simplifying them in turn leads to. */
  lemma {:induction false} ReachedOnce(ls: seq<Line>, after: seq<Line>, other: seq<Line>, n: nat, tolerance: real)
    requires Reached(ls, after, n, tolerance) && Reached(ls, other, n, tolerance)
    ensures after == other
    decreases n
  {
    hide *;
    var b0, c0 := ReachedBefore(ls, after, n, tolerance);
    var b1, c1 := ReachedBefore(ls, other, n, tolerance);
    if n > 0 {
      var i := n - 1;
      ReachedOnce(ls, b0, b1, i, tolerance);
      RunLeadsParts(b0, after, i, c0, tolerance);
      RunLeadsParts(b1, other, i, c1, tolerance);
      OneResult(b0, i, tolerance, after, other);
    }
  }

  lemma ThinnedNone(ls: seq<Line>, tolerance: real)
    ensures ThinnedUpTo(ls, ls, 0, tolerance)
  {
  }

  /** An exhausted run on the next line thins that line too and leaves the others as they were. */
  lemma ThinnedNext(ls: seq<Line>, before: seq<Line>, i: nat, cuts: seq<nat>, tolerance: real)
    requires ThinnedUpTo(ls, before, i, tolerance) && i < |ls| && WellFormed(before[i])
    requires Run(before, i, cuts, tolerance) && Exhausted(before, i, cuts, tolerance)
    requires LeastFirst(before, i, tolerance, After(before, i, cuts, tolerance))
    ensures |After(before, i, cuts, tolerance)| == |ls| == |before|
    ensures ThinnedUpTo(ls, After(before, i, cuts, tolerance), i + 1, tolerance)
    ensures After(before, i, cuts, tolerance)[..i] == before[..i]
  {
    ThinnedReaches(ls, before, i, tolerance);
    RunFrame(before, i, cuts, tolerance);
    hide *;
    ReachedNext(ls, before, i, cuts, tolerance);
    RunSimplifies(before, i, cuts, tolerance);
    ThinnedMore(ls, before, After(before, i, cuts, tolerance), i, tolerance);
  }

  lemma ThinnedReaches(ls: seq<Line>, after: seq<Line>, n: nat, tolerance: real)
    requires ThinnedUpTo(ls, after, n, tolerance)
    ensures Reached(ls, after, n, tolerance) && n <= |ls| == |after|
  {
  }

  lemma ThinnedMore(ls: seq<Line>, before: seq<Line>, after: seq<Line>, i: nat, tolerance: real)
    requires ThinnedUpTo(ls, before, i, tolerance) && i < |ls| == |after|
    requires SimplifiedFrom(after[i], before[i], tolerance) && Reached(ls, after, i + 1, tolerance)
    requires forall j :: 0 <= j < |ls| && j != i ==> after[j] == before[j]
    ensures ThinnedUpTo(ls, after, i + 1, tolerance) && after[..i] == before[..i]
  {
    hide SimplifiedFrom;
    hide Reached;
  }

  lemma RunKeepsWellFormed(ls: seq<Line>, i: nat, cuts: seq<nat>, tolerance: real)
    requires i < |ls| && Run(ls, i, cuts, tolerance) && forall j :: 0 <= j < |ls| ==> WellFormed(ls[j])
    ensures var r := After(ls, i, cuts, tolerance); |r| == |ls| && forall j :: 0 <= j < |r| ==> WellFormed(r[j])
  {
    RunFrame(ls, i, cuts, tolerance);
  }

  /** Whatever the lines, crossing ones included, simplifying them in turn adds no intersection. */
  lemma {:induction false} ReachedAddsNone(ls: seq<Line>, after: seq<Line>, n: nat, tolerance: real)
    requires Reached(ls, after, n, tolerance) && n <= |ls| && forall j :: 0 <= j < |ls| ==> WellFormed(ls[j])
    ensures |after| == |ls| && forall j :: 0 <= j < |after| ==> WellFormed(after[j])
    ensures NoMoreIntersections(ls, after)
    decreases n
  {
    hide *;
    var before, cuts := ReachedBefore(ls, after, n, tolerance);
    if n == 0 {
      NoMoreSelf(ls);
    } else {
      var i := n - 1;
      RunLeadsParts(before, after, i, cuts, tolerance);
      ReachedAddsNone(ls, before, i, tolerance);
      RunAddsNone(before, i, cuts, tolerance);
      RunKeepsWellFormed(before, i, cuts, tolerance);
      NoMoreTrans(ls, before, after);
    }
  }

  /** Lines that touch only at their fixed vertices still do when they have been simplified in turn. */
  lemma {:induction false} ReachedArranged(ls: seq<Line>, after: seq<Line>, n: nat, tolerance: real)
    requires Reached(ls, after, n, tolerance) && Arranged(ls)
    ensures Arranged(after)
    decreases n
  {
    hide *;
    var before, cuts := ReachedBefore(ls, after, n, tolerance);
    if n > 0 {
      var i := n - 1;
      RunLeadsParts(before, after, i, cuts, tolerance);
      ReachedArranged(ls, before, i, tolerance);
      RunKeepsArranged(before, i, cuts, tolerance);
    }
  }

  function Outputs(ls: seq<Line>, n: nat): (r: seq<seq<Point>>)
    requires n <= |ls|
    ensures |r| == n && forall k :: 0 <= k < n ==> r[k] == Output(ls[k])
  {
    if n == 0 then [] else Outputs(ls, n - 1) + [Output(ls[n - 1])]
  }

  lemma {:induction false} OutputsSame(ls: seq<Line>, other: seq<Line>, n: nat)
    requires n <= |ls| && n <= |other| && ls[..n] == other[..n]
    ensures Outputs(ls, n) == Outputs(other, n)
  {
    if n > 0 {
      assert ls[n - 1] == ls[..n][n - 1] == other[..n][n - 1] == other[n - 1];
      assert ls[..n - 1] == ls[..n][..n - 1] == other[..n - 1];
      OutputsSame(ls, other, n - 1);
    }
  }

  lemma OutputsNext(before: seq<Line>, after: seq<Line>, i: nat)
    requires i < |before| == |after| && after[..i] == before[..i]
    ensures Outputs(after, i + 1) == Outputs(before, i) + [Output(after[i])]
  {
    OutputsSame(before, after, i);
  }

  // The lines of valid edges are well formed.
  lemma EdgeWellFormed(edges: seq<Edge>, ls: seq<Line>, i: nat)
    requires Holds(edges, ls) && i < |edges|
    ensures |ls| == |edges| && WellFormed(ls[i])
  {
    var e := edges[i];
    assert e.Valid() && e.View() == ls[i];
  }

  lemma HoldsSize(edges: seq<Edge>, ls: seq<Line>)
    requires Holds(edges, ls)
    ensures |edges| == |ls|
  {
  }

  // The edges from i on, up to n, are still to be simplified.
  ghost predicate Waiting(edges: seq<Edge>, i: nat, n: nat, tolerance: real)
    reads set e | e in edges :: e.linkedLine
  {
    n <= |edges| && forall k :: i <= k < n ==> Unsimplified(edges[k]) && edges[k].areaTolerance == tolerance
  }

  // Simplify edge i and append its coordinates to the results so far.
  method SimplifyNext(edges: seq<Edge>, i: nat, done: seq<seq<Point>>, ghost ls: seq<Line>, ghost before: seq<Line>,
                      tolerance: real)
    returns (result: seq<seq<Point>>, ghost after: seq<Line>)
    requires i < |edges| && Separate(edges) && Holds(edges, before) && ThinnedUpTo(ls, before, i, tolerance)
    requires Unsimplified(edges[i]) && edges[i].areaTolerance == tolerance && done == Outputs(before, i)
    requires AllEndsDiffer(before)
    modifies edges[i].linkedLine, edges[i].vertexIndex
    ensures Holds(edges, after) && |after| == |edges| && AllEndsDiffer(after)
    ensures ThinnedUpTo(ls, after, i + 1, tolerance)
    ensures result == Outputs(after, i + 1)
  {
    ThinnedReaches(ls, before, i, tolerance);
    EdgeWellFormed(edges, before, i);
    HoldsSize(edges, before);
    hide *;
    ghost var cuts;
    var pts;
    pts, cuts, after := edges[i].Simplify(edges, before, i);
    RunEndsDiffer(before, i, cuts, tolerance);
    ThinnedNext(ls, before, i, cuts, tolerance);
    OutputsNext(before, after, i);
    result := done + [pts];
  }

  // The same, as one of the edges that are simplified in turn.
  method SimplifyInTurn(edges: seq<Edge>, i: nat, n: nat, done: seq<seq<Point>>, ghost ls: seq<Line>,
                        ghost before: seq<Line>, tolerance: real)
    returns (result: seq<seq<Point>>, ghost after: seq<Line>)
    requires Separate(edges) && Holds(edges, before) && ThinnedUpTo(ls, before, i, tolerance)
    requires i < n <= |edges| && |before| == |edges| && Waiting(edges, i, n, tolerance) && done == Outputs(before, i)
    requires AllEndsDiffer(before)
    modifies set e | e in edges :: e.linkedLine
    modifies set e | e in edges :: e.vertexIndex
    ensures Holds(edges, after) && |after| == |edges| && AllEndsDiffer(after)
    ensures ThinnedUpTo(ls, after, i + 1, tolerance)
    ensures result == Outputs(after, i + 1) && Waiting(edges, i + 1, n, tolerance)
  {
    hide Unsimplified;
    hide ThinnedUpTo;
    hide Holds;
    hide Outputs;
    Edge.OwnParts(edges, i);
    hide Separate;
    result, after := SimplifyNext(edges, i, done, ls, before, tolerance);
  }

  /**
   Simplify edges[..n] in turn; the edges after them are constraints and stay as they are.
   */
  method SimplifyEdges(edges: seq<Edge>, n: nat, ghost ls: seq<Line>, tolerance: real)
    returns (result: seq<seq<Point>>, ghost after: seq<Line>)
    requires n <= |edges| && Separate(edges) && Holds(edges, ls) && Waiting(edges, 0, n, tolerance)
    requires AllEndsDiffer(ls)
    modifies set e | e in edges :: e.linkedLine
    modifies set e | e in edges :: e.vertexIndex
    ensures Holds(edges, after)
    ensures ThinnedUpTo(ls, after, n, tolerance)
    ensures result == Outputs(after, n)
  {
    result, after := [], ls;
    ThinnedNone(ls, tolerance);
    HoldsSize(edges, ls);
    assert Outputs(ls, 0) == [];
    hide *;
    for i := 0 to n
      invariant Holds(edges, after) && |after| == |edges| && AllEndsDiffer(after)
      invariant ThinnedUpTo(ls, after, i, tolerance)
      invariant result == Outputs(after, i) && Waiting(edges, i, n, tolerance)
    {
      result, after := SimplifyInTurn(edges, i, n, result, ls, after, tolerance);
    }
  }

  function NoneFree(n: nat): (r: seq<bool>)
    ensures |r| == n && forall i :: 0 <= i < n ==> !r[i]
  {
    seq(n, i => false)
  }

  // The lines handed to the simplifier: those to simplify, then the constraints.
  function AllLines(lines: seq<seq<Point>>, free: seq<bool>, constraints: seq<seq<Point>>): (r: seq<Line>)
    requires |free| == |lines|
    ensures |r| == |lines| + |constraints|
    ensures forall i :: 0 <= i < |lines| ==> r[i] == LineOf(lines[i], free[i])
    ensures forall i :: 0 <= i < |constraints| ==> r[|lines| + i] == LineOf(constraints[i], false)
  {
    LinesOf(lines, free) + LinesOf(constraints, NoneFree(|constraints|))
  }

  predicate Inputs(lines: seq<seq<Point>>, free: seq<bool>) {
    |free| == |lines| && forall i :: 0 <= i < |lines| ==> EdgeInput(lines[i], free[i])
  }

  lemma SeparateJoin(a: seq<Edge>, b: seq<Edge>)
    requires Separate(a) && Separate(b)
    requires forall i, j :: 0 <= i < |a| && 0 <= j < |b| ==>
      a[i] != b[j] && a[i].linkedLine != b[j].linkedLine && a[i].vertexIndex != b[j].vertexIndex
    ensures Separate(a + b)
  {
  }

  lemma HoldsJoin(a: seq<Edge>, b: seq<Edge>, la: seq<Line>, lb: seq<Line>)
    requires Holds(a, la) && Holds(b, lb)
    ensures Holds(a + b, la + lb)
  {
  }

  method CreateAll(lines: seq<seq<Point>>, free: seq<bool>, constraints: seq<seq<Point>>, tolerance: real)
    returns (edges: seq<Edge>)
    requires Inputs(lines, free) && Inputs(constraints, NoneFree(|constraints|))
    ensures Separate(edges) && Holds(edges, AllLines(lines, free, constraints))
    ensures forall k :: 0 <= k < |edges| ==>
      fresh(edges[k].linkedLine) && fresh(edges[k].vertexIndex) && Unsimplified(edges[k]) &&
      edges[k].areaTolerance == tolerance
  {
    var first := CreateEdges(lines, free, tolerance);
    var second := CreateEdges(constraints, NoneFree(|constraints|), tolerance);
    SeparateJoin(first, second);
    HoldsJoin(first, second, LinesOf(lines, free), LinesOf(constraints, NoneFree(|constraints|)));
    edges := first + second;
  }

  lemma InputsWellFormed(lines: seq<seq<Point>>, free: seq<bool>, constraints: seq<seq<Point>>)
    requires Inputs(lines, free) && Inputs(constraints, NoneFree(|constraints|))
    ensures var ls := AllLines(lines, free, constraints);
      forall j :: 0 <= j < |ls| ==> WellFormed(ls[j])
  {
    var ls := AllLines(lines, free, constraints);
    forall j | 0 <= j < |ls| ensures WellFormed(ls[j]) {
      if j < |lines| {
        LineOfWellFormed(lines[j], free[j]);
      } else {
        LineOfWellFormed(constraints[j - |lines|], false);
        assert ls[|lines| + (j - |lines|)] == LineOf(constraints[j - |lines|], false);
      }
    }
  }

  lemma LineOfWellFormed(pts: seq<Point>, free: bool)
    requires EdgeInput(pts, free)
    ensures WellFormed(LineOf(pts, free))
  {
  }

  // The results are the first n lines, thinned in turn without adding intersections.
  ghost predicate Results(ls: seq<Line>, after: seq<Line>, n: nat, tolerance: real, result: seq<seq<Point>>) {
    && ThinnedUpTo(ls, after, n, tolerance) && result == Outputs(after, n)
    && NoMoreIntersections(ls, after)
    && (Arranged(ls) ==> Arranged(after))
  }

  /** So there is one result for any lines, flags and constraints. */
  lemma ResultsOnce(ls: seq<Line>, after: seq<Line>, other: seq<Line>, n: nat, tolerance: real,
                    result: seq<seq<Point>>, result': seq<seq<Point>>)
    requires Results(ls, after, n, tolerance, result) && Results(ls, other, n, tolerance, result')
    ensures result == result'
  {
    hide NoMoreIntersections;
    hide Arranged;
    hide Outputs;
    hide Reached;
    hide SimplifiedFrom;
    ReachedOnce(ls, after, other, n, tolerance);
  }

  lemma AreResults(ls: seq<Line>, after: seq<Line>, n: nat, tolerance: real, result: seq<seq<Point>>)
    requires ThinnedUpTo(ls, after, n, tolerance) && n <= |after| && result == Outputs(after, n)
    requires forall j :: 0 <= j < |ls| ==> WellFormed(ls[j])
    ensures Results(ls, after, n, tolerance, result)
  {
    ThinnedReaches(ls, after, n, tolerance);
    hide ThinnedUpTo;
    hide WellFormed;
    hide NoMoreIntersections;
    hide Arranged;
    hide Outputs;
    ReachedAddsNone(ls, after, n, tolerance);
    if Arranged(ls) { ReachedArranged(ls, after, n, tolerance); }
  }

  /**
   Each line is its input with non-fixed vertices left out, and no intersections are added, constraint
   lines included. Lines that touch only at their fixed vertices come out touching only there.
   */
  method SimplifyLines(lines: seq<seq<Point>>, freeRings: seq<bool>, constraints: seq<seq<Point>>,
                       distanceTolerance: real)
    returns (result: seq<seq<Point>>)
    requires freeRings == [] || |freeRings| == |lines|
    requires var free := if freeRings == [] then NoneFree(|lines|) else freeRings;
      && Inputs(lines, free) && Inputs(constraints, NoneFree(|constraints|))
      && AllEndsDiffer(AllLines(lines, free, constraints))
    ensures var free := if freeRings == [] then NoneFree(|lines|) else freeRings;
      var ls, tolerance := AllLines(lines, free, constraints), distanceTolerance * distanceTolerance;
      exists after :: Results(ls, after, |lines|, tolerance, result)
  {
    var free := if freeRings == [] then NoneFree(|lines|) else freeRings;
    var tolerance := distanceTolerance * distanceTolerance;
    InputsWellFormed(lines, free, constraints);
    var edges := CreateAll(lines, free, constraints, tolerance);
    ghost var ls := AllLines(lines, free, constraints);
    hide *;
    ghost var after;
    result, after := SimplifyEdges(edges, |lines|, ls, tolerance);
    AreResults(ls, after, |lines|, tolerance, result);
  }
}
