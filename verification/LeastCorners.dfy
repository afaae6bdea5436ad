/**
 The order in which small corners are tried: always the least one that has not been found blocked.
 The lines and this rule alone decide what is left.
 */
module LeastCorners {
  import opened Planar
  import opened LinkedLines
  import opened Arrangement
  import opened SimplifyRuns

  // A corner by the indexes of its vertices in the line it was cut out of.
  datatype Corner = Corner(index: nat, prev: int, next: int, area: real)

  // The lines, the indexes that the vertices of one of them had at first, and its corners found blocked.
  datatype State = State(ls: seq<Line>, live: seq<nat>, rejected: set<Corner>)

  predicate Fits(s: State, i: nat) {
    i < |s.ls| && |s.live| == |s.ls[i].pts|
  }

  function CornerAt(s: State, i: nat, k: nat): Corner
    requires Fits(s, i) && Slot(s.ls, i, k)
  {
    var l := s.ls[i];
    Corner(s.live[k], s.live[Preceding(l, k)], s.live[Following(l, k)], CornerArea(s.ls, i, k))
  }

  // A small corner that may be cut and has not been found blocked.
  predicate Candidate(s: State, i: nat, k: nat, tolerance: real) {
    Fits(s, i) && Cuttable(s.ls, i, k) && CornerArea(s.ls, i, k) <= tolerance && CornerAt(s, i, k) !in s.rejected
  }

  // The corner at slot k comes first: it has the least area, and of those that have it the first vertex.
  ghost predicate IsNext(s: State, i: nat, k: nat, tolerance: real) {
    && Candidate(s, i, k, tolerance)
    && forall m: nat :: Candidate(s, i, m, tolerance) ==>
         CornerArea(s.ls, i, k) < CornerArea(s.ls, i, m) ||
         (CornerArea(s.ls, i, k) == CornerArea(s.ls, i, m) && k <= m)
  }

  // The corner is cut, or rejected if something stands in the way.
  function Try(s: State, i: nat, k: nat): State
    requires Fits(s, i) && Slot(s.ls, i, k)
  {
    if Removable(s.ls, i, k) then State(Cut(s.ls, i, k), Without(s.live, k), s.rejected)
    else s.(rejected := s.rejected + {CornerAt(s, i, k)})
  }

  ghost predicate Step(s: State, i: nat, k: nat, tolerance: real, t: State) {
    IsNext(s, i, k, tolerance) && t == Try(s, i, k)
  }

  // Trying the corners at the given slots one after another, each the next one, leads from s to t.
  ghost predicate Leads(s: State, i: nat, tries: seq<nat>, tolerance: real, t: State)
    decreases |tries|
  {
    if tries == [] then t == s
    else
      var n := |tries| - 1;
      exists mid :: Leads(s, i, tries[..n], tolerance, mid) && Step(mid, i, tries[n], tolerance, t)
  }

  ghost predicate Finished(s: State, i: nat, tolerance: real) {
    forall k: nat :: !Candidate(s, i, k, tolerance)
  }

  function Start(ls: seq<Line>, i: nat): State {
    State(ls, if i < |ls| then Identity(|ls[i].pts|) else [], {})
  }

  // Trying corners of line i until none is left to try.
  ghost predicate Tried(ls: seq<Line>, i: nat, tries: seq<nat>, tolerance: real, t: State) {
    Leads(Start(ls, i), i, tries, tolerance, t) && Finished(t, i, tolerance)
  }

  ghost predicate LeastFirst(ls: seq<Line>, i: nat, tolerance: real, after: seq<Line>) {
    exists tries, t :: Tried(ls, i, tries, tolerance, t) && t.ls == after
  }

  lemma LeadsNone(s: State, i: nat, tolerance: real)
    ensures Leads(s, i, [], tolerance, s)
  {
  }

  lemma LeadsOn(s: State, i: nat, tries: seq<nat>, tolerance: real, mid: State, k: nat, t: State)
    requires Leads(s, i, tries, tolerance, mid) && Step(mid, i, k, tolerance, t)
    ensures Leads(s, i, tries + [k], tolerance, t)
  {
    hide Step;
    assert (tries + [k])[..|tries|] == tries;
  }

  lemma {:induction false} LeadsJoin(s: State, i: nat, tries: seq<nat>, more: seq<nat>, tolerance: real, mid: State,
                                     t: State)
    requires Leads(s, i, tries, tolerance, mid) && Leads(mid, i, more, tolerance, t)
    ensures Leads(s, i, tries + more, tolerance, t)
    decreases |more|
  {
    hide Step;
    if more == [] {
      assert tries + more == tries;
    } else {
      var n := |more| - 1;
      var last :| Leads(mid, i, more[..n], tolerance, last) && Step(last, i, more[n], tolerance, t);
      LeadsJoin(s, i, tries, more[..n], tolerance, mid, last);
      LeadsOn(s, i, tries + more[..n], tolerance, last, more[n], t);
      assert tries + more[..n] + [more[n]] == tries + more;
    }
  }

  lemma IsLeastFirst(ls: seq<Line>, i: nat, tries: seq<nat>, tolerance: real, t: State)
    requires Leads(Start(ls, i), i, tries, tolerance, t) && Finished(t, i, tolerance)
    ensures LeastFirst(ls, i, tolerance, t.ls)
  {
    hide Leads;
    hide Finished;
    assert Tried(ls, i, tries, tolerance, t);
  }

  // ---- What is left is determined

  lemma SameStep(s: State, i: nat, k: nat, m: nat, tolerance: real, t: State, u: State)
    requires Step(s, i, k, tolerance, t) && Step(s, i, m, tolerance, u)
    ensures k == m && t == u
  {
    hide Try;
    hide CornerArea;
    hide Cuttable;
    hide CornerAt;
  }

  lemma {:induction false} LeadsVia(s: State, i: nat, tries: seq<nat>, tolerance: real, t: State, m: nat)
    returns (mid: State)
    requires Leads(s, i, tries, tolerance, t) && m <= |tries|
    ensures Leads(s, i, tries[..m], tolerance, mid)
    ensures m < |tries| ==> IsNext(mid, i, tries[m], tolerance)
    ensures m == |tries| ==> mid == t
    decreases |tries|
  {
    hide IsNext;
    if m == |tries| {
      assert tries[..m] == tries;
      mid := t;
    } else {
      var n := |tries| - 1;
      var last :| Leads(s, i, tries[..n], tolerance, last) && Step(last, i, tries[n], tolerance, t);
      if m == n {
        mid := last;
      } else {
        mid := LeadsVia(s, i, tries[..n], tolerance, last, m);
        assert tries[..n][..m] == tries[..m];
      }
    }
  }

  // As far as both go, two ways of trying corners are the same.
  lemma {:induction false} SameWay(s: State, i: nat, tries: seq<nat>, others: seq<nat>, tolerance: real, t: State,
                                   u: State)
    requires Leads(s, i, tries, tolerance, t) && Leads(s, i, others, tolerance, u) && |tries| == |others|
    ensures tries == others && t == u
    decreases |tries|
  {
    hide Step;
    if tries != [] {
      var n := |tries| - 1;
      var m0 :| Leads(s, i, tries[..n], tolerance, m0) && Step(m0, i, tries[n], tolerance, t);
      var m1 :| Leads(s, i, others[..n], tolerance, m1) && Step(m1, i, others[n], tolerance, u);
      SameWay(s, i, tries[..n], others[..n], tolerance, m0, m1);
      SameStep(m0, i, tries[n], others[n], tolerance, t, u);
      assert tries == tries[..n] + [tries[n]] && others == others[..n] + [others[n]];
    }
  }

  lemma NoLonger(s: State, i: nat, tries: seq<nat>, others: seq<nat>, tolerance: real, t: State, u: State)
    requires Leads(s, i, tries, tolerance, t) && Leads(s, i, others, tolerance, u) && Finished(t, i, tolerance)
    ensures |others| <= |tries|
  {
    if |tries| < |others| {
      var mid := LeadsVia(s, i, others, tolerance, u, |tries|);
      SameWay(s, i, tries, others[..|tries|], tolerance, t, mid);
      assert false;
    }
  }

  /** The lines and the tolerance alone decide which corners are tried, and so what is left of the line. */
  lemma OneResult(ls: seq<Line>, i: nat, tolerance: real, after: seq<Line>, other: seq<Line>)
    requires LeastFirst(ls, i, tolerance, after) && LeastFirst(ls, i, tolerance, other)
    ensures after == other
  {
    var tries, t :| Tried(ls, i, tries, tolerance, t) && t.ls == after;
    var others, u :| Tried(ls, i, others, tolerance, u) && u.ls == other;
    hide Leads;
    hide Finished;
    NoLonger(Start(ls, i), i, tries, others, tolerance, t, u);
    NoLonger(Start(ls, i), i, others, tries, tolerance, u, t);
    SameWay(Start(ls, i), i, tries, others, tolerance, t, u);
  }

  // ---- Lesser corners were blocked

  // A corner found blocked was so in one of the states that were gone through.
  ghost predicate WasBlocked(s: State, i: nat, tries: seq<nat>, tolerance: real, c: Corner) {
    exists m: nat, mid: State :: BlockedThere(s, i, tries, tolerance, c, m, mid)
  }

  ghost predicate BlockedThere(s: State, i: nat, tries: seq<nat>, tolerance: real, c: Corner, m: nat, mid: State) {
    && m < |tries| && Leads(s, i, tries[..m], tolerance, mid)
    && Fits(mid, i) && Slot(mid.ls, i, tries[m]) && CornerAt(mid, i, tries[m]) == c && !Removable(mid.ls, i, tries[m])
  }

  lemma BlockedStill(s: State, i: nat, tries: seq<nat>, k: nat, tolerance: real, c: Corner)
    requires WasBlocked(s, i, tries, tolerance, c)
    ensures WasBlocked(s, i, tries + [k], tolerance, c)
  {
    var m: nat, mid: State :| BlockedThere(s, i, tries, tolerance, c, m, mid);
    assert (tries + [k])[..m] == tries[..m];
    hide Leads;
    hide Removable;
    assert BlockedThere(s, i, tries + [k], tolerance, c, m, mid);
  }

  lemma StepRejects(s: State, i: nat, k: nat, tolerance: real, t: State, c: Corner)
    requires Step(s, i, k, tolerance, t) && c in t.rejected && c !in s.rejected
    ensures Fits(s, i) && Slot(s.ls, i, k) && CornerAt(s, i, k) == c && !Removable(s.ls, i, k)
  {
    hide CornerArea;
    hide CornerAt;
    hide Removable;
    hide Cut;
  }

  lemma {:induction false} RejectedWasBlocked(s: State, i: nat, tries: seq<nat>, tolerance: real, t: State, c: Corner)
    requires Leads(s, i, tries, tolerance, t) && s.rejected == {} && c in t.rejected
    ensures WasBlocked(s, i, tries, tolerance, c)
    decreases |tries|
  {
    hide Step;
    var n := |tries| - 1;
    var mid :| Leads(s, i, tries[..n], tolerance, mid) && Step(mid, i, tries[n], tolerance, t);
    if c in mid.rejected {
      RejectedWasBlocked(s, i, tries[..n], tolerance, mid, c);
      BlockedStill(s, i, tries[..n], tries[n], tolerance, c);
      assert tries[..n] + [tries[n]] == tries;
    } else {
      StepRejects(mid, i, tries[n], tolerance, t, c);
      hide Leads;
      hide Removable;
      hide CornerAt;
      assert BlockedThere(s, i, tries, tolerance, c, n, mid);
    }
  }

  /**
   When a corner is tried, every other small corner of less area, or of the same area at an earlier vertex, had been
   found blocked before.
   */
  lemma LesserWasBlocked(s: State, i: nat, tries: seq<nat>, tolerance: real, t: State, k: nat, m: nat)
    requires Leads(s, i, tries, tolerance, t) && s.rejected == {} && IsNext(t, i, k, tolerance)
    requires Cuttable(t.ls, i, m) && CornerArea(t.ls, i, m) <= tolerance
    requires CornerArea(t.ls, i, m) < CornerArea(t.ls, i, k) ||
             (CornerArea(t.ls, i, m) == CornerArea(t.ls, i, k) && m < k)
    ensures WasBlocked(s, i, tries, tolerance, CornerAt(t, i, m))
  {
    assert !Candidate(t, i, m, tolerance);
    RejectedWasBlocked(s, i, tries, tolerance, t, CornerAt(t, i, m));
  }
}
