/**
 Whole runs of the simplifier: sequences of allowed cuts of one line, and what
 every such run keeps.
 */
module SimplifyRuns {
  import opened Planar
  import opened Pasch
  import opened Arrangement

  function TriangleArea(a: Point, b: Point, c: Point): real {
    Abs(((c.x - a.x) * (b.y - a.y) - (b.x - a.x) * (c.y - a.y)) / 2.0)
  }

  function CornerArea(ls: seq<Line>, i: nat, k: nat): real
    requires Slot(ls, i, k)
  {
    TriangleArea(CornerPrev(ls, i, k), At(ls, i, k), CornerNext(ls, i, k))
  }

  // One step the simplifier may take on line i.
  ghost predicate CutAllowed(ls: seq<Line>, i: nat, k: nat, tolerance: real) {
    && Cuttable(ls, i, k)
    && Removable(ls, i, k)
    && CornerArea(ls, i, k) <= tolerance
  }

  // The slots `cuts` are cut from line i, one after another.
  ghost predicate Run(ls: seq<Line>, i: nat, cuts: seq<nat>, tolerance: real)
    decreases |cuts|
  {
    cuts != [] ==>
      && CutAllowed(ls, i, cuts[0], tolerance)
      && Run(Cut(ls, i, cuts[0]), i, cuts[1..], tolerance)
  }

  ghost function After(ls: seq<Line>, i: nat, cuts: seq<nat>, tolerance: real): seq<Line>
    requires Run(ls, i, cuts, tolerance)
    decreases |cuts|
  {
    if cuts == [] then ls else After(Cut(ls, i, cuts[0]), i, cuts[1..], tolerance)
  }

  lemma OneCutRun(ls: seq<Line>, i: nat, k: nat, tolerance: real)
    requires CutAllowed(ls, i, k, tolerance)
    ensures Run(ls, i, [k], tolerance) && After(ls, i, [k], tolerance) == Cut(ls, i, k)
  {
    assert [k][1..] == [];
  }

  lemma NoCutRun(ls: seq<Line>, i: nat, tolerance: real)
    ensures Run(ls, i, [], tolerance) && After(ls, i, [], tolerance) == ls
  {
  }

  lemma {:induction false} RunsCompose(ls: seq<Line>, i: nat, cuts: seq<nat>, more: seq<nat>, tolerance: real)
    requires Run(ls, i, cuts, tolerance)
    requires Run(After(ls, i, cuts, tolerance), i, more, tolerance)
    ensures Run(ls, i, cuts + more, tolerance)
    ensures After(ls, i, cuts + more, tolerance) == After(After(ls, i, cuts, tolerance), i, more, tolerance)
    decreases |cuts|
  {
    if cuts == [] {
      assert [] + more == more;
    } else {
      assert (cuts + more)[1..] == cuts[1..] + more;
      RunsCompose(Cut(ls, i, cuts[0]), i, cuts[1..], more, tolerance);
    }
  }

  /** Every run of allowed cuts keeps the lines touching only at their fixed vertices. */
  lemma {:induction false} RunKeepsArranged(ls: seq<Line>, i: nat, cuts: seq<nat>, tolerance: real)
    requires Arranged(ls) && Run(ls, i, cuts, tolerance)
    ensures Arranged(After(ls, i, cuts, tolerance))
    decreases |cuts|
  {
    if cuts != [] {
      CutKeepsArranged(ls, i, cuts[0]);
      RunKeepsArranged(Cut(ls, i, cuts[0]), i, cuts[1..], tolerance);
    }
  }

  // ---- When a run has nothing more to try

  // The corner a, b, c of line i could not be cut when the first t cuts of the run were made.
  ghost predicate BlockedAfter(ls: seq<Line>, i: nat, cuts: seq<nat>, tolerance: real, t: nat,
                               a: Point, b: Point, c: Point) {
    t <= |cuts| && Run(ls, i, cuts[..t], tolerance) && !CornerClear(After(ls, i, cuts[..t], tolerance), i, a, b, c)
  }

  ghost predicate Blocked(ls: seq<Line>, i: nat, cuts: seq<nat>, tolerance: real, a: Point, b: Point, c: Point) {
    exists t: nat :: BlockedAfter(ls, i, cuts, tolerance, t, a, b, c)
  }

  // Each corner of tolerable area that the run leaves, with vertices to spare, was found blocked on the way.
  ghost predicate Exhausted(ls: seq<Line>, i: nat, cuts: seq<nat>, tolerance: real)
    requires Run(ls, i, cuts, tolerance)
  {
    var r := After(ls, i, cuts, tolerance);
    forall k: nat {:trigger Cuttable(r, i, k)} :: Cuttable(r, i, k) && CornerArea(r, i, k) <= tolerance ==>
      Blocked(ls, i, cuts, tolerance, CornerPrev(r, i, k), At(r, i, k), CornerNext(r, i, k))
  }

  lemma BlockedNow(ls: seq<Line>, i: nat, cuts: seq<nat>, tolerance: real, a: Point, b: Point, c: Point)
    requires Run(ls, i, cuts, tolerance) && !CornerClear(After(ls, i, cuts, tolerance), i, a, b, c)
    ensures Blocked(ls, i, cuts, tolerance, a, b, c)
  {
    assert cuts[..|cuts|] == cuts;
    assert BlockedAfter(ls, i, cuts, tolerance, |cuts|, a, b, c);
  }

  lemma BlockedMore(ls: seq<Line>, i: nat, cuts: seq<nat>, more: seq<nat>, tolerance: real,
                    a: Point, b: Point, c: Point)
    requires Blocked(ls, i, cuts, tolerance, a, b, c)
    ensures Blocked(ls, i, cuts + more, tolerance, a, b, c)
  {
    var t: nat :| BlockedAfter(ls, i, cuts, tolerance, t, a, b, c);
    assert (cuts + more)[..t] == cuts[..t];
    assert BlockedAfter(ls, i, cuts + more, tolerance, t, a, b, c);
  }

  /** A run without cuts is exhausted only where no cut is allowed. */
  lemma NothingToCut(ls: seq<Line>, i: nat, k: nat, tolerance: real)
    requires Exhausted(ls, i, [], tolerance)
    ensures !CutAllowed(ls, i, k, tolerance)
  {
    assert After(ls, i, [], tolerance) == ls;
    if Cuttable(ls, i, k) && CornerArea(ls, i, k) <= tolerance {
      BlockedAtStart(ls, i, tolerance, CornerPrev(ls, i, k), At(ls, i, k), CornerNext(ls, i, k));
    }
  }

  lemma BlockedAtStart(ls: seq<Line>, i: nat, tolerance: real, a: Point, b: Point, c: Point)
    requires Blocked(ls, i, [], tolerance, a, b, c)
    ensures !CornerClear(ls, i, a, b, c)
  {
    var t: nat :| BlockedAfter(ls, i, [], tolerance, t, a, b, c);
    assert t == 0;
  }

  // ---- What is left is a part of what was there, with its fixed vertices

  // s is t with some elements left out; `from` says where each element of s stood.
  ghost predicate PickedBy(s: seq<Point>, t: seq<Point>, from: seq<nat>) {
    && |from| == |s|
    && (forall k :: 0 <= k < |s| ==> from[k] < |t| && s[k] == t[from[k]])
    && (forall k, m :: 0 <= k < m < |s| ==> from[k] < from[m])
  }

  ghost predicate Subsequence(s: seq<Point>, t: seq<Point>) {
    exists from :: PickedBy(s, t, from)
  }

  // The later line is the earlier one with vertices left out, none of them fixed.
  ghost predicate Thinned(later: Line, earlier: Line) {
    && later.closed == earlier.closed && later.free == earlier.free
    && Subsequence(later.pts, earlier.pts)
    && (!earlier.free ==> |later.pts| > 0 && |earlier.pts| > 0 && later.pts[0] == earlier.pts[0])
    && (!earlier.closed ==>
      |later.pts| > 0 && |earlier.pts| > 0 && later.pts[|later.pts| - 1] == earlier.pts[|earlier.pts| - 1])
  }

  lemma SubsequenceSelf(s: seq<Point>)
    ensures Subsequence(s, s)
  {
    assert PickedBy(s, s, seq(|s|, k => k));
  }

  lemma SubsequenceTrans(s: seq<Point>, t: seq<Point>, u: seq<Point>)
    requires Subsequence(s, t) && Subsequence(t, u)
    ensures Subsequence(s, u)
  {
    var f :| PickedBy(s, t, f);
    var g :| PickedBy(t, u, g);
    assert PickedBy(s, u, seq(|s|, k requires 0 <= k < |s| => g[f[k]]));
  }

  lemma CutThins(ls: seq<Line>, i: nat, k: nat)
    requires Cuttable(ls, i, k) && WellFormed(ls[i])
    ensures Thinned(Cut(ls, i, k)[i], ls[i])
  {
    var before, thinner := ls[i].pts, Cut(ls, i, k)[i].pts;
    assert PickedBy(thinner, before, seq(|thinner|, m requires 0 <= m < |thinner| => OldSlot(i, k, i, m)));
  }

  lemma ThinnedTrans(a: Line, b: Line, c: Line)
    requires Thinned(a, b) && Thinned(b, c)
    ensures Thinned(a, c)
  {
    SubsequenceTrans(a.pts, b.pts, c.pts);
  }

  /** A run cuts one vertex of its own line at a time and leaves every other line alone. */
  lemma {:induction false} RunFrame(ls: seq<Line>, i: nat, cuts: seq<nat>, tolerance: real)
    requires i < |ls| && WellFormed(ls[i]) && Run(ls, i, cuts, tolerance)
    ensures var r := After(ls, i, cuts, tolerance);
      && |r| == |ls|
      && (forall j :: 0 <= j < |ls| && j != i ==> r[j] == ls[j])
      && WellFormed(r[i])
      && |r[i].pts| + |cuts| == |ls[i].pts|
    decreases |cuts|
  {
    if cuts != [] {
      RunFrame(Cut(ls, i, cuts[0]), i, cuts[1..], tolerance);
    }
  }

  /** A run thins its own line. */
  lemma {:induction false} RunThins(ls: seq<Line>, i: nat, cuts: seq<nat>, tolerance: real)
    requires i < |ls| && WellFormed(ls[i]) && Run(ls, i, cuts, tolerance)
    ensures |After(ls, i, cuts, tolerance)| == |ls|
    ensures Thinned(After(ls, i, cuts, tolerance)[i], ls[i])
    decreases |cuts|
  {
    RunFrame(ls, i, cuts, tolerance);
    if cuts == [] {
      SubsequenceSelf(ls[i].pts);
    } else {
      var next := Cut(ls, i, cuts[0]);
      CutThins(ls, i, cuts[0]);
      RunThins(next, i, cuts[1..], tolerance);
      ThinnedTrans(After(ls, i, cuts, tolerance)[i], next[i], ls[i]);
    }
  }

  /** An open line whose ends differ keeps them through every run. */
  lemma RunEndsDiffer(ls: seq<Line>, i: nat, cuts: seq<nat>, tolerance: real)
    requires i < |ls| && WellFormed(ls[i]) && Run(ls, i, cuts, tolerance) && AllEndsDiffer(ls)
    ensures AllEndsDiffer(After(ls, i, cuts, tolerance))
  {
    RunFrame(ls, i, cuts, tolerance);
    RunThins(ls, i, cuts, tolerance);
    hide Subsequence;
    hide Run;
    hide After;
  }

  // ---- Signed area

  function EdgeTerm(p: Point, q: Point): real {
    p.x * q.y - q.x * p.y
  }

  // Twice the signed area swept by a path, seen from the origin.
  function PathSum(pts: seq<Point>): real {
    if |pts| < 2 then 0.0 else EdgeTerm(pts[0], pts[1]) + PathSum(pts[1..])
  }

  // Twice the signed area of a ring, or of an open line closed through the origin.
  function LineSum(l: Line): real {
    if l.closed && |l.pts| > 0 then PathSum(l.pts) + EdgeTerm(l.pts[|l.pts| - 1], l.pts[0]) else PathSum(l.pts)
  }

  lemma {:induction false} PathSumJoin(s: seq<Point>, t: seq<Point>)
    requires |s| > 0 && |t| > 0
    ensures PathSum(s + t) == PathSum(s) + EdgeTerm(s[|s| - 1], t[0]) + PathSum(t)
  {
    if |s| == 1 {
      assert (s + t)[1..] == t;
    } else {
      assert (s + t)[1..] == s[1..] + t;
      PathSumJoin(s[1..], t);
    }
  }

  // The terms that the path b adds between its neighbours a and c.
  function Detour(a: Point, b: Point, c: Point): real {
    EdgeTerm(a, b) + EdgeTerm(b, c) - EdgeTerm(a, c)
  }

  lemma TriangleTerms(a: Point, b: Point, c: Point)
    ensures Detour(a, b, c) == Cross(a, b, c)
    ensures TriangleArea(a, b, c) == Abs(Cross(a, b, c)) / 2.0
  {
  }

  lemma PathSumInsert(s: seq<Point>, b: Point, t: seq<Point>)
    requires |s| > 0 && |t| > 0
    ensures PathSum(s + ([b] + t)) ==
            PathSum(s + t) + EdgeTerm(s[|s| - 1], b) + EdgeTerm(b, t[0]) - EdgeTerm(s[|s| - 1], t[0])
  {
    PathSumJoin(s, [b] + t);
    PathSumJoin([b], t);
    PathSumJoin(s, t);
  }

  lemma SplitAround(pts: seq<Point>, k: nat)
    requires k < |pts|
    ensures pts == pts[..k] + ([pts[k]] + pts[k + 1..])
  {
  }

  lemma InnerCutSum(pts: seq<Point>, k: nat)
    requires 0 < k < |pts| - 1
    ensures PathSum(pts[..k] + pts[k + 1..]) == PathSum(pts) - Detour(pts[k - 1], pts[k], pts[k + 1])
  {
    SplitAround(pts, k);
    PathSumInsert(pts[..k], pts[k], pts[k + 1..]);
  }

  lemma CutSum(ls: seq<Line>, i: nat, k: nat)
    requires Cuttable(ls, i, k) && WellFormed(ls[i])
    ensures LineSum(Cut(ls, i, k)[i]) ==
      LineSum(ls[i]) - Detour(CornerPrev(ls, i, k), At(ls, i, k), CornerNext(ls, i, k))
  {
    var pts, n := ls[i].pts, |ls[i].pts|;
    if 0 < k < n - 1 {
      InnerCutSum(pts, k);
    } else if k == 0 {
      assert pts[..0] + pts[1..] == pts[1..];
    } else {
      assert pts[..k] + pts[n..] == pts[..k];
      assert pts == pts[..k] + [pts[k]];
      PathSumJoin(pts[..k], [pts[k]]);
    }
  }

  lemma CutBoundsArea(ls: seq<Line>, i: nat, k: nat, tolerance: real)
    requires i < |ls| && WellFormed(ls[i]) && CutAllowed(ls, i, k, tolerance)
    ensures Abs(LineSum(Cut(ls, i, k)[i]) - LineSum(ls[i])) <= 2.0 * tolerance
    ensures WellFormed(Cut(ls, i, k)[i])
  {
    CutSum(ls, i, k);
    TriangleTerms(CornerPrev(ls, i, k), At(ls, i, k), CornerNext(ls, i, k));
  }

  // 2 * tolerance, once for each cut.
  function Allowance(tolerance: real, cuts: nat): real {
    if cuts == 0 then 0.0 else 2.0 * tolerance + Allowance(tolerance, cuts - 1)
  }

  lemma {:induction false} AllowanceIsProduct(tolerance: real, cuts: nat)
    ensures Allowance(tolerance, cuts) == 2.0 * tolerance * cuts as real
  {
    if cuts > 0 {
      AllowanceIsProduct(tolerance, cuts - 1);
      assert (cuts - 1) as real == cuts as real - 1.0;
    }
  }

  /** A run changes twice the signed area of its line by at most 2 * tolerance a cut. */
  lemma {:induction false} RunBoundsArea(ls: seq<Line>, i: nat, cuts: seq<nat>, tolerance: real)
    requires i < |ls| && WellFormed(ls[i]) && Run(ls, i, cuts, tolerance)
    ensures |After(ls, i, cuts, tolerance)| == |ls|
    ensures Abs(LineSum(After(ls, i, cuts, tolerance)[i]) - LineSum(ls[i])) <= Allowance(tolerance, |cuts|)
    decreases |cuts|
  {
    hide *;
    RunFirst(ls, i, cuts, tolerance);
    AllowanceFirst(tolerance, |cuts|, LineSum(ls[i]));
    if cuts != [] {
      var next := Cut(ls, i, cuts[0]);
      CutBoundsArea(ls, i, cuts[0], tolerance);
      RunBoundsArea(next, i, cuts[1..], tolerance);
      AddDifferences(LineSum(ls[i]), LineSum(next[i]), LineSum(After(ls, i, cuts, tolerance)[i]),
                     2.0 * tolerance, Allowance(tolerance, |cuts| - 1));
    }
  }

  lemma RunFirst(ls: seq<Line>, i: nat, cuts: seq<nat>, tolerance: real)
    requires Run(ls, i, cuts, tolerance)
    ensures cuts == [] ==> After(ls, i, cuts, tolerance) == ls
    ensures cuts != [] ==> CutAllowed(ls, i, cuts[0], tolerance) && Slot(ls, i, cuts[0])
    ensures cuts != [] ==> Run(Cut(ls, i, cuts[0]), i, cuts[1..], tolerance)
    ensures cuts != [] ==> |Cut(ls, i, cuts[0])| == |ls|
    ensures cuts != [] ==>
      After(ls, i, cuts, tolerance) == After(Cut(ls, i, cuts[0]), i, cuts[1..], tolerance)
  {
  }

  lemma AllowanceFirst(tolerance: real, n: nat, s: real)
    ensures n == 0 ==> Abs(s - s) <= Allowance(tolerance, n)
    ensures n > 0 ==> Allowance(tolerance, n) == 2.0 * tolerance + Allowance(tolerance, n - 1)
  {
  }

  lemma AddDifferences(u: real, v: real, w: real, s: real, t: real)
    requires Abs(v - u) <= s && Abs(w - v) <= t
    ensures Abs(w - u) <= s + t
  {
  }
}
