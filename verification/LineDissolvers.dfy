/** The line dissolver: marks, stack and walks over the edge graph. */
module LineDissolvers {
  import opened Planar
  import opened CoordinateLists
  import opened DirectionRings
  import opened HalfEdges
  import opened RotationSystems
  import opened EdgeGraphs
  import opened Chains
  import opened DissolvedLines
  import opened Dissolving
  import opened RingStarts

  ghost predicate Tracking(r: Rotation)
    reads r.sym.Keys`sym, r.sym.Keys`next
  {
    Paired(r) && Good(r) && Follows(r)
  }

  lemma TrackingFacts(r: Rotation)
    requires Tracking(r)
    ensures Paired(r) && Good(r)
  {
  }

  // What the pointers of an edge lead to.
  lemma Pointers(r: Rotation, e: HalfEdge)
    requires Tracking(r) && e in r.sym
    ensures e.sym == r.sym[e] && e.next == r.next[e] && e.sym in r.sym && r.sym[e.sym] == e && e.sym.sym == e
    ensures e.next in r.sym && e.next.orig == e.sym.orig && e.sym.orig != e.orig && e.sym != e
  {
    EdgeFacts(r, e);
    assert r.sym[e] in r.sym;
  }

  lemma StarPointers(r: Rotation, v: Point)
    requires Tracking(r) && v in r.star
    ensures HalfEdge.Star(r.star[v])
  {
    StarMembers(r, {}, v);
    var s := r.star[v];
    forall i | 0 <= i < |s| ensures s[i].ONext() == Succ(s, i) {
      assert s[i] in s;
      Pointers(r, s[i]);
      assert r.next[r.sym[s[i]]] == Succ(s, i);
    }
  }

  lemma RotatedMembers(t: seq<HalfEdge>, i: nat)
    requires i < |t|
    ensures forall f :: f in t <==> f in t[i..] + t[..i]
  {
    forall f | f in t ensures f in t[i..] + t[..i] {
      var j :| 0 <= j < |t| && t[j] == f;
      assert (t[i..] + t[..i])[if j >= i then j - i else |t| - i + j] == f;
    }
  }

  lemma StarIsEdgesAt(r: Rotation, v: Point)
    requires Good(r) && v in r.star
    ensures forall f :: f in r.star[v] <==> f in EdgesAt(r, v)
  {
    StarMembers(r, {}, v);
    forall f | f in EdgesAt(r, v) ensures f in r.star[v] {
      var j := StarIndex(r, {}, f);
    }
  }

  lemma StarSlot(r: Rotation, e: HalfEdge) returns (t: seq<HalfEdge>, i: nat)
    requires Tracking(r) && e in r.sym
    ensures HalfEdge.Star(t) && i < |t| && t[i] == e && |t| == DegreeAt(r, e.orig)
    ensures Pred(t, i).sym in r.sym && r.next[Pred(t, i).sym] == e
    ensures forall f :: f in t <==> f in EdgesAt(r, e.orig)
  {
    i := StarIndex(r, {}, e);
    t := r.star[e.orig];
    StarMembers(r, {}, e.orig);
    PredLeads(r, e.orig, i);
    Pointers(r, Pred(t, i));
    StarPointers(r, e.orig);
    hide HalfEdge.Star;
    hide Good;
    StarIsEdgesAt(r, e.orig);
  }

  // The star of an edge, from that edge on.
  lemma StarHere(r: Rotation, e: HalfEdge) returns (s: seq<HalfEdge>)
    requires Tracking(r) && e in r.sym
    ensures HalfEdge.Star(s) && |s| > 0 && s[0] == e && |s| == DegreeAt(r, e.orig)
    ensures s[|s| - 1].sym in r.sym && r.next[s[|s| - 1].sym] == e
    ensures forall f :: f in s <==> f in EdgesAt(r, e.orig)
  {
    hide *;
    var t, i := StarSlot(r, e);
    HalfEdge.StarFrom(t, i);
    RotatedMembers(t, i);
    LastIsPred(t, i);
    s := t[i..] + t[..i];
  }

  lemma LastIsPred(t: seq<HalfEdge>, i: nat)
    requires i < |t|
    ensures (t[i..] + t[..i])[|t| - 1] == Pred(t, i)
  {
  }

  ghost function SetOf(s: seq<HalfEdge>): set<HalfEdge> {
    set e | e in s
  }

  lemma SetOfAppend(s: seq<HalfEdge>, e: HalfEdge)
    ensures SetOf(s + [e]) == SetOf(s) + {e}
  {
    assert (s + [e])[|s|] == e;
    forall f | f in s ensures f in s + [e] {
      var i :| 0 <= i < |s| && s[i] == f;
      assert (s + [e])[i] == f;
    }
  }

  lemma BackShorter(r: Rotation, ps: seq<HalfEdge>, p: HalfEdge)
    requires Paired(r) && BackWalk(r, ps + [p])
    ensures r.sym.Keys - SetOf(ps + [p]) < r.sym.Keys - SetOf(ps)
  {
    SetOfAppend(ps, p);
    assert (ps + [p])[|ps|] == p;
    forall i | 0 <= i < |ps| ensures ps[i] != p { assert (ps + [p])[i] == ps[i]; }
    assert p in r.sym.Keys - SetOf(ps) && p !in r.sym.Keys - SetOf(ps + [p]);
  }

  // One step back, where the degree is 2: another edge, or the first one again.
  lemma BackStep(r: Rotation, ps: seq<HalfEdge>, p: HalfEdge)
    requires Paired(r) && BackWalk(r, ps) && DegreeAt(r, ps[|ps| - 1].orig) == 2
    requires p in r.sym && r.next[p] == ps[|ps| - 1]
    ensures p == ps[0] ==> BackCircle(r, ps)
    ensures p != ps[0] ==> BackWalk(r, ps + [p]) && r.sym.Keys - SetOf(ps + [p]) < r.sym.Keys - SetOf(ps)
  {
    if p != ps[0] {
      BackExtends(r, ps, p);
      hide BackWalk;
      BackShorter(r, ps, p);
    }
  }

  method DegreeOf(e: HalfEdge, ghost r: Rotation) returns (degree: nat)
    requires Tracking(r) && e in r.sym
    ensures degree == DegreeAt(r, e.orig)
  {
    hide *;
    ghost var s := StarHere(r, e);
    degree := e.Degree(s);
  }

  method PrevOf(e: HalfEdge, ghost r: Rotation) returns (prev: HalfEdge)
    requires Tracking(r) && e in r.sym
    ensures prev in r.sym && prev in r.next && r.next[prev] == e
  {
    hide *;
    ghost var s := StarHere(r, e);
    prev := e.Prev(s);
    TrackingFacts(r);
    NextKeys(r, prev);
  }

  lemma NextKeys(r: Rotation, e: HalfEdge)
    requires Paired(r) && e in r.sym
    ensures e in r.next
  {
  }

  lemma BackStarts(r: Rotation, e: HalfEdge)
    requires Paired(r) && e in r.sym
    ensures BackWalk(r, [e])
  {
  }

  // Walking back along ps from e meets the node first, or goes around an isolated ring.
  ghost predicate LeadsBack(r: Rotation, e: HalfEdge, node: HalfEdge?, ps: seq<HalfEdge>) {
    && Paired(r) && BackWalk(r, ps) && |ps| > 0 && ps[0] == e
    && if node == null then BackCircle(r, ps)
       else node in r.sym && node == ps[|ps| - 1] && DegreeAt(r, node.orig) != 2
  }

  lemma LeadsBackFrom(r: Rotation, e: HalfEdge, node: HalfEdge?, ps: seq<HalfEdge>)
    requires Paired(r) && BackWalk(r, ps) && |ps| > 0 && ps[0] == e
    requires if node == null then BackCircle(r, ps)
             else node in r.sym && node == ps[|ps| - 1] && DegreeAt(r, node.orig) != 2
    ensures LeadsBack(r, e, node, ps)
  {
  }

  lemma LeadsBackParts(r: Rotation, e: HalfEdge, node: HalfEdge?, ps: seq<HalfEdge>)
    requires LeadsBack(r, e, node, ps)
    ensures Paired(r) && BackWalk(r, ps) && |ps| > 0 && ps[0] == e
    ensures node != null ==> node in r.sym && node == ps[|ps| - 1] && DegreeAt(r, node.orig) != 2
    ensures node == null ==> BackCircle(r, ps)
  {
  }

  /** The node met first on the walk back from e, or null when e is on an isolated ring. */
  method PrevNode(e: HalfEdge, ghost r: Rotation) returns (node: HalfEdge?)
    requires Tracking(r) && e in r.sym
    ensures exists ps :: LeadsBack(r, e, node, ps)
  {
    hide *;
    TrackingFacts(r);
    BackStarts(r, e);
    ghost var ps := [e];
    node := e;
    while true
      invariant BackWalk(r, ps) && |ps| > 0 && ps[0] == e && node == ps[|ps| - 1] && node in r.sym
      decreases r.sym.Keys - SetOf(ps)
    {
      var degree := DegreeOf(node, r);
      if degree != 2 {
        LeadsBackFrom(r, e, node, ps);
        return;
      }
      var prev := PrevOf(node, r);
      BackStep(r, ps, prev);
      if prev == e {
        LeadsBackFrom(r, e, null, ps);
        return null;
      }
      node := prev;
      ps := ps + [prev];
    }
  }

  // ---- Marks and start flags of the edges

  ghost predicate Marks(r: Rotation, marked: set<HalfEdge>)
    reads r.sym.Keys`marked
  {
    && (forall e {:trigger e.marked} :: e in r.sym && e.marked ==> e in marked)
    && (forall e {:trigger e in marked} :: e in r.sym && e in marked ==> e.marked)
  }

  ghost predicate Flags(r: Rotation, starts: set<HalfEdge>)
    reads r.sym.Keys`isStart
  {
    && starts <= r.sym.Keys
    && (forall e {:trigger e.isStart} :: e in r.sym && e.isStart ==> e in starts)
    && (forall e {:trigger e in starts} :: e in starts ==> e.isStart)
  }

  method MarkBoth(e: HalfEdge, ghost r: Rotation, ghost marked: set<HalfEdge>)
    requires Tracking(r) && Marks(r, marked) && e in r.sym
    modifies e`marked, e.sym`marked
    ensures Tracking(r) && Marks(r, marked + {e, r.sym[e]})
  {
    hide Tracking;
    Pointers(r, e);
    e.marked := true;
    e.sym.marked := true;
  }

  // ---- Walking a line

  // A walk from eStart over edges that are not marked.
  ghost predicate Walk(r: Rotation, marked: set<HalfEdge>, es: seq<HalfEdge>, eStart: HalfEdge) {
    Paired(r) && Chain(r, es) && es[0] == eStart && forall e :: e in es ==> e !in marked
  }

  ghost function Origins(es: seq<HalfEdge>): (ps: seq<Point>)
    ensures |ps| == |es|
  {
    seq(|es|, i requires 0 <= i < |es| => es[i].orig)
  }

  lemma WalkStarts(r: Rotation, marked: set<HalfEdge>, e: HalfEdge)
    requires Paired(r) && e in r.sym && e !in marked
    ensures Walk(r, marked, [e], e) && AddPoint([], e.orig) == Origins([e])
    ensures Both(r, [e]) == {e, r.sym[e]}
  {
    BothOne(r, e);
    hide Paired;
    hide Both;
  }

  lemma BothOne(r: Rotation, e: HalfEdge)
    requires Paired(r) && e in r.sym
    ensures Both(r, [e]) == {e, r.sym[e]}
  {
    BothAppend(r, [], e);
    assert [] + [e] == [e];
    assert Both(r, []) == {};
    hide Paired;
  }

  lemma WalkShorter(r: Rotation, es: seq<HalfEdge>, n: HalfEdge)
    requires Paired(r) && Chain(r, es + [n])
    ensures r.sym.Keys - SetOf(es + [n]) < r.sym.Keys - SetOf(es)
  {
    SetOfAppend(es, n);
    assert (es + [n])[|es|] == n;
    forall i | 0 <= i < |es| ensures es[i] != n { assert (es + [n])[i] == es[i]; }
    assert n in r.sym.Keys - SetOf(es) && n !in r.sym.Keys - SetOf(es + [n]);
  }

  // The walk passes through a vertex of degree 2 and is not back at its start.
  lemma WalkOn(r: Rotation, marked: set<HalfEdge>, es: seq<HalfEdge>, eStart: HalfEdge, e: HalfEdge)
    requires Paired(r) && Good(r) && Closed(r, marked) && Walk(r, marked, es, eStart)
    requires e == es[|es| - 1] && Passes(r, e) && r.next[e] != eStart
    ensures Walk(r, marked, es + [r.next[e]], eStart)
    ensures r.next[e] in r.sym && r.next[e].orig != e.orig && r.next[e] !in marked
  {
    EdgeFacts(r, e);
    ChainExtends(r, marked, es);
  }

  lemma WalkGrows(r: Rotation, marked: set<HalfEdge>, es: seq<HalfEdge>, eStart: HalfEdge, n: HalfEdge)
    requires Paired(r) && es != [] && Walk(r, marked, es + [n], eStart) && n in r.sym && n.orig != es[|es| - 1].orig
    ensures r.sym.Keys - SetOf(es + [n]) < r.sym.Keys - SetOf(es)
    ensures Both(r, es + [n]) == Both(r, es) + {n, r.sym[n]}
    ensures AddPoint(Origins(es), n.orig) == Origins(es + [n])
  {
    WalkShorter(r, es, n);
    BothAppend(r, es, n);
    assert Origins(es + [n]) == Origins(es) + [n.orig];
  }

  lemma WalkEnds(r: Rotation, es: seq<HalfEdge>, e: HalfEdge)
    requires Paired(r) && Chain(r, es) && e == es[|es| - 1]
    ensures forall f :: f in es ==> f in r.sym
    ensures AddPoint(Origins(es), r.sym[e].orig) == PathOf(r, es)
  {
  }

  lemma BestStartExtends(r: Rotation, starts: set<HalfEdge>, es: seq<HalfEdge>, e: HalfEdge, best: HalfEdge?,
                         s: HalfEdge?)
    requires Paired(r) && e in r.sym && (forall f :: f in es ==> f in r.sym) && BestStart(r, starts, es, best)
    requires s == BetterStart(r, starts, e, best)
    ensures forall f :: f in es + [e] ==> f in r.sym
    ensures BestStart(r, starts, es + [e], s)
  {
    BothAppend(r, es, e);
  }

  // The better of the start edge so far and the one that e offers.
  ghost function BetterStart(r: Rotation, starts: set<HalfEdge>, e: HalfEdge, s: HalfEdge?): HalfEdge?
    requires e in r.sym
  {
    var f := StartOf(r, starts, e);
    if f in starts && (s == null || CompareTo(f.orig, s.orig) < 0) then f else s
  }

  // The first i edges of s have been stacked, except those marked.
  ghost predicate StackedTo(stack: seq<HalfEdge>, base: seq<HalfEdge>, s: seq<HalfEdge>, i: nat, marked: set<HalfEdge>)
    requires i <= |s|
  {
    SetOf(stack) == SetOf(base) + (SetOf(s[..i]) - marked)
  }

  lemma StackedNext(stack: seq<HalfEdge>, base: seq<HalfEdge>, s: seq<HalfEdge>, i: nat, marked: set<HalfEdge>)
    requires i < |s| && StackedTo(stack, base, s, i, marked)
    ensures StackedTo(if s[i] in marked then stack else stack + [s[i]], base, s, i + 1, marked)
  {
    SetOfAppend(s[..i], s[i]);
    assert s[..i + 1] == s[..i] + [s[i]];
    SetOfAppend(stack, s[i]);
  }

  lemma StackedAll(stack: seq<HalfEdge>, base: seq<HalfEdge>, s: seq<HalfEdge>, marked: set<HalfEdge>, c: set<HalfEdge>)
    requires StackedTo(stack, base, s, |s|, marked) && forall f :: f in s <==> f in c
    ensures SetOf(stack) == SetOf(base) + (c - marked)
  {
    assert s[..|s|] == s;
    assert SetOf(s) == c;
  }

  lemma StackedNone(stack: seq<HalfEdge>, s: seq<HalfEdge>, marked: set<HalfEdge>)
    ensures StackedTo(stack, stack, s, 0, marked)
  {
  }

  lemma MarkOf(r: Rotation, marked: set<HalfEdge>, e: HalfEdge, s: seq<HalfEdge>, v: Point)
    requires Marks(r, marked) && e in s && forall f :: f in s <==> f in EdgesAt(r, v)
    ensures e.marked <==> e in marked
  {
  }

  lemma StarStep(s: seq<HalfEdge>, i: nat)
    requires HalfEdge.Star(s) && i < |s|
    ensures s[i].ONext() == (if i < |s| - 1 then s[i + 1] else s[0])
    ensures i < |s| - 1 ==> s[i + 1] != s[0]
  {
  }

  // ---- What building lines keeps

  // The lines drawn so far are maximal, run along edges of their own, and leave the marks closed.
  ghost predicate Traced(r: Rotation, covers: seq<seq<HalfEdge>>, lines: seq<seq<Point>>) {
    Paired(r) && CoversApart(r, covers) && PathsOf(r, covers, lines) && Closed(r, AllOf(r, covers))
  }

  // The stacked edges start at nodes or on isolated rings; marked and stacked edges are closed at nodes.
  ghost predicate Queued(r: Rotation, marked: set<HalfEdge>, stacked: set<HalfEdge>, rings: set<HalfEdge>) {
    Paired(r) && Stackable(r, stacked, rings) && RingSet(r, rings) && NodeClosed(r, marked + stacked)
  }

  lemma TracedMore(r: Rotation, covers: seq<seq<HalfEdge>>, lines: seq<seq<Point>>, cs: seq<HalfEdge>)
    requires Good(r) && Traced(r, covers, lines) && Paired(r) && Maximal(r, cs) && Both(r, cs) !! AllOf(r, covers)
    requires forall e :: e in cs ==> e in r.sym
    ensures Traced(r, covers + [cs], lines + [PathOf(r, cs)])
    ensures AllOf(r, covers + [cs]) == AllOf(r, covers) + Both(r, cs)
  {
    hide *;
    TracedParts(r, covers, lines);
    AddCover(r, covers, cs);
    MarkMaximal(r, AllOf(r, covers), cs);
    PathsMore(r, covers, lines, cs);
    TracedFrom(r, covers + [cs], lines + [PathOf(r, cs)]);
  }

  lemma TracedParts(r: Rotation, covers: seq<seq<HalfEdge>>, lines: seq<seq<Point>>)
    requires Traced(r, covers, lines)
    ensures Paired(r) && CoversApart(r, covers) && PathsOf(r, covers, lines) && Closed(r, AllOf(r, covers))
  {
  }

  lemma TracedFrom(r: Rotation, covers: seq<seq<HalfEdge>>, lines: seq<seq<Point>>)
    requires Paired(r) && CoversApart(r, covers) && PathsOf(r, covers, lines) && Closed(r, AllOf(r, covers))
    ensures Traced(r, covers, lines)
  {
  }

  lemma PathsMore(r: Rotation, covers: seq<seq<HalfEdge>>, lines: seq<seq<Point>>, cs: seq<HalfEdge>)
    requires PathsOf(r, covers, lines) && forall e :: e in cs ==> e in r.sym
    ensures PathsOf(r, covers + [cs], lines + [PathOf(r, cs)])
  {
  }

  lemma MarkMaximal(r: Rotation, marked: set<HalfEdge>, cs: seq<HalfEdge>)
    requires Paired(r) && Good(r) && Closed(r, marked) && Maximal(r, cs)
    ensures Closed(r, marked + Both(r, cs))
  {
    hide Good;
    hide Closed;
    hide NodeLine;
    hide RingLine;
    if NodeLine(r, cs) {
      MarkNodeLine(r, marked, cs);
    } else {
      MarkRingLine(r, marked, cs);
    }
  }

  // A walk that stops at a node has come from one.
  lemma WalkIsNodeLine(r: Rotation, marked: set<HalfEdge>, stacked: set<HalfEdge>, rings: set<HalfEdge>,
                       es: seq<HalfEdge>)
    requires Paired(r) && Chain(r, es) && es[0] in stacked && Queued(r, marked, stacked, rings)
    requires !Passes(r, es[|es| - 1])
    ensures NodeLine(r, es)
  {
    if es[0] in rings { ChainStaysInRing(r, rings, es); }
  }

  lemma QueuedAfterNodeLine(r: Rotation, marked: set<HalfEdge>, stacked: set<HalfEdge>, rings: set<HalfEdge>,
                            es: seq<HalfEdge>, rest: set<HalfEdge>, v: Point)
    requires Good(r) && Paired(r) && Queued(r, marked, stacked, rings)
    requires |es| > 0 && NodeLine(r, es) && es[0] in stacked && stacked == rest + {es[0]}
    requires es[|es| - 1] in r.sym && v == r.sym[es[|es| - 1]].orig
    ensures var m := marked + Both(r, es); Queued(r, m, rest + (EdgesAt(r, v) - m), rings)
  {
    hide *;
    var m := marked + Both(r, es);
    var next := rest + (EdgesAt(r, v) - m);
    NodeLineParts(r, es);
    assert marked + stacked + Both(r, es) + EdgesAt(r, v) == m + next;
    QueuedParts(r, marked, stacked, rings);
    NodeLineClosed(r, marked + stacked, es);
    StackedAtNode(r, stacked, rings, v, next);
    QueuedFrom(r, m, next, rings);
  }

  lemma NodeLineParts(r: Rotation, es: seq<HalfEdge>)
    requires Paired(r) && NodeLine(r, es)
    ensures Chain(r, es) && es[0] in Both(r, es) && DegreeAt(r, r.sym[es[|es| - 1]].orig) != 2
  {
    assert es[0] in es;
  }

  ghost predicate Stackable(r: Rotation, stacked: set<HalfEdge>, rings: set<HalfEdge>) {
    stacked <= r.sym.Keys && forall e :: e in stacked ==> DegreeAt(r, e.orig) != 2 || e in rings
  }

  lemma StackedAtNode(r: Rotation, stacked: set<HalfEdge>, rings: set<HalfEdge>, v: Point, next: set<HalfEdge>)
    requires Stackable(r, stacked, rings) && DegreeAt(r, v) != 2 && next <= stacked + EdgesAt(r, v)
    ensures Stackable(r, next, rings)
  {
  }

  lemma QueuedParts(r: Rotation, marked: set<HalfEdge>, stacked: set<HalfEdge>, rings: set<HalfEdge>)
    requires Queued(r, marked, stacked, rings)
    ensures Paired(r) && Stackable(r, stacked, rings) && RingSet(r, rings) && NodeClosed(r, marked + stacked)
  {
  }

  lemma QueuedFrom(r: Rotation, marked: set<HalfEdge>, stacked: set<HalfEdge>, rings: set<HalfEdge>)
    requires Paired(r) && Stackable(r, stacked, rings) && RingSet(r, rings) && NodeClosed(r, marked + stacked)
    ensures Queued(r, marked, stacked, rings)
  {
  }

  lemma QueuedAfterRingLine(r: Rotation, marked: set<HalfEdge>, stacked: set<HalfEdge>, rings: set<HalfEdge>,
                            es: seq<HalfEdge>, rest: set<HalfEdge>)
    requires Good(r) && Paired(r) && Queued(r, marked, stacked, rings)
    requires RingLine(r, es) && es[0] in stacked && stacked == rest + {es[0]}
    ensures Queued(r, marked + Both(r, es), rest, rings)
  {
    RingLineClosed(r, marked + stacked, es);
    RingMember(r, es);
    assert marked + stacked + Both(r, es) == marked + Both(r, es) + rest;
  }

  lemma WalkFacts(r: Rotation, marked: set<HalfEdge>, es: seq<HalfEdge>, eStart: HalfEdge)
    requires Walk(r, marked, es, eStart)
    ensures Paired(r) && Chain(r, es) && |es| > 0 && es[0] == eStart && es[|es| - 1] in r.sym
  {
  }

  lemma DegreeAhead(r: Rotation, e: HalfEdge)
    requires e in r.sym
    ensures Passes(r, e) <==> DegreeAt(r, r.sym[e].orig) == 2
  {
  }

  lemma RingCloses(r: Rotation, es: seq<HalfEdge>)
    requires Paired(r) && Chain(r, es) && Passes(r, es[|es| - 1]) && r.next[es[|es| - 1]] == es[0]
    ensures RingLine(r, es)
  {
  }

  // Everything known at the top of a walk around an isolated ring.
  lemma RingWalk(r: Rotation, rings: set<HalfEdge>, es: seq<HalfEdge>, eStart: HalfEdge, e: HalfEdge)
    requires Tracking(r) && Paired(r) && RingSet(r, rings) && eStart in rings
    requires Walk(r, {}, es, eStart) && |es| > 0 && e == es[|es| - 1]
    ensures Good(r) && e in r.sym && e.sym == r.sym[e] && e.next == r.next[e]
    ensures e.sym in r.sym && DegreeAt(r, e.sym.orig) == 2
    ensures e.next == eStart ==> RingLine(r, es)
    ensures e.next != eStart ==> Walk(r, {}, es + [e.next], eStart) && e.next in r.sym && e.next.orig != e.orig
  {
    hide *;
    TrackingFacts(r);
    WalkFacts(r, {}, es, eStart);
    Pointers(r, e);
    ChainStaysInRing(r, rings, es);
    DegreeAhead(r, e);
    if e.next != eStart {
      EmptyClosed(r);
      WalkOn(r, {}, es, eStart, e);
    } else {
      RingCloses(r, es);
    }
  }

  lemma EmptyClosed(r: Rotation)
    requires Paired(r)
    ensures Closed(r, {})
  {
  }

  lemma RingWalkEnds(r: Rotation, es: seq<HalfEdge>, e: HalfEdge)
    requires Paired(r) && RingLine(r, es) && e == es[|es| - 1]
    ensures forall f :: f in es ==> f in r.sym
    ensures AddPoint(Origins(es), r.sym[e].orig) == PathOf(r, es)
  {
    WalkEnds(r, es, e);
  }

  // Every edge is listed, and start edges are within reach of every edge.
  ghost predicate Grounded(r: Rotation, edges: seq<HalfEdge>, starts: set<HalfEdge>) {
    Anchored(r, edges, starts) && forall e :: e in r.sym ==> e in edges
  }

  /** A ring always has a start edge to begin its line with. */
  lemma RingStartExists(r: Rotation, edges: seq<HalfEdge>, starts: set<HalfEdge>, es: seq<HalfEdge>, s: HalfEdge?)
    requires Good(r) && Paired(r) && Grounded(r, edges, starts) && RingLine(r, es)
    requires (forall e :: e in es ==> e in r.sym) && BestStart(r, starts, es, s)
    ensures s != null && s in Both(r, es) && s in r.sym && RingSet(r, Both(r, es))
  {
    hide Good;
    RingHasStart(r, edges, starts, es);
    RingLineSet(r, es);
  }

  lemma StartUpdated(r: Rotation, starts: set<HalfEdge>, es: seq<HalfEdge>, e: HalfEdge, best: HalfEdge?, s: HalfEdge?)
    requires Paired(r) && |es| > 0 && e == es[|es| - 1] && (forall f :: f in es ==> f in r.sym)
    requires BestStart(r, starts, es[..|es| - 1], best) && s == BetterStart(r, starts, e, best)
    ensures BestStart(r, starts, es, s)
  {
    assert es == es[..|es| - 1] + [e];
    BestStartExtends(r, starts, es[..|es| - 1], e, best, s);
  }

  // Everything known at the top of the walk along a line.
  lemma LineWalk(r: Rotation, marked: set<HalfEdge>, es: seq<HalfEdge>, eStart: HalfEdge, e: HalfEdge)
    requires Tracking(r) && Paired(r) && Closed(r, marked) && Walk(r, marked, es, eStart) && |es| > 0
    requires e == es[|es| - 1]
    ensures forall f :: f in es ==> f in r.sym
    ensures Good(r) && e in r.sym && e.sym == r.sym[e] && e.next == r.next[e]
    ensures e.sym in r.sym && (Passes(r, e) <==> DegreeAt(r, e.sym.orig) == 2)
    ensures Passes(r, e) && e.next == eStart ==> RingLine(r, es)
    ensures Passes(r, e) && e.next != eStart ==>
      Walk(r, marked, es + [e.next], eStart) && e.next in r.sym && e.next.orig != e.orig
  {
    hide *;
    TrackingFacts(r);
    WalkFacts(r, marked, es, eStart);
    ChainFacts(r, es);
    Pointers(r, e);
    DegreeAhead(r, e);
    if Passes(r, e) {
      if e.next != eStart {
        WalkOn(r, marked, es, eStart, e);
      } else {
        RingCloses(r, es);
      }
    }
  }

  // What a line leaves behind it: it is drawn, and marks and stack are as they should be.
  ghost predicate Finished(r: Rotation, covers: seq<seq<HalfEdge>>, lines: seq<seq<Point>>, stacked: set<HalfEdge>,
                           rings: set<HalfEdge>) {
    Traced(r, covers, lines) && Queued(r, AllOf(r, covers), stacked, rings)
  }

  lemma FinishedClosed(r: Rotation, covers: seq<seq<HalfEdge>>, lines: seq<seq<Point>>, stacked: set<HalfEdge>,
                       rings: set<HalfEdge>)
    requires Paired(r) && Finished(r, covers, lines, stacked, rings)
    ensures Closed(r, AllOf(r, covers))
  {
  }

  lemma NoBestStart(r: Rotation, starts: set<HalfEdge>)
    requires Paired(r)
    ensures BestStart(r, starts, [], null)
  {
  }

  lemma WalkNew(r: Rotation, marked: set<HalfEdge>, es: seq<HalfEdge>, eStart: HalfEdge)
    requires Paired(r) && Closed(r, marked) && Walk(r, marked, es, eStart)
    ensures Both(r, es) !! marked && eStart in Both(r, es)
  {
    assert es[0] in es;
    BothNew(r, marked, es);
  }

  // The walk has come to a node.
  lemma NodeLineFinished(r: Rotation, covers: seq<seq<HalfEdge>>, lines: seq<seq<Point>>, rest: set<HalfEdge>,
                         rings: set<HalfEdge>, es: seq<HalfEdge>, eStart: HalfEdge, e: HalfEdge)
    requires Good(r) && Paired(r) && Finished(r, covers, lines, rest + {eStart}, rings)
    requires Walk(r, AllOf(r, covers), es, eStart) && |es| > 0 && e == es[|es| - 1] && e in r.sym && !Passes(r, e)
    ensures forall f :: f in es ==> f in r.sym
    ensures AddPoint(Origins(es), r.sym[e].orig) == PathOf(r, es)
    ensures AllOf(r, covers + [es]) == AllOf(r, covers) + Both(r, es) && eStart in Both(r, es)
    ensures Finished(r, covers + [es], lines + [PathOf(r, es)],
                     rest + (EdgesAt(r, r.sym[e].orig) - AllOf(r, covers + [es])), rings)
  {
    var m := AllOf(r, covers);
    WalkEnds(r, es, e);
    WalkIsNodeLine(r, m, rest + {eStart}, rings, es);
    WalkNew(r, m, es, eStart);
    hide *;
    MaximalNodeLine(r, es);
    TracedMore(r, covers, lines, es);
    QueuedAfterNodeLine(r, m, rest + {eStart}, rings, es, rest, r.sym[e].orig);
  }

  lemma MaximalNodeLine(r: Rotation, es: seq<HalfEdge>)
    requires Paired(r) && (NodeLine(r, es) || RingLine(r, es))
    ensures Maximal(r, es)
  {
  }

  // The walk was around an isolated ring, which has been drawn as cs.
  lemma RingLineFinished(r: Rotation, covers: seq<seq<HalfEdge>>, lines: seq<seq<Point>>, rest: set<HalfEdge>,
                         rings: set<HalfEdge>, es: seq<HalfEdge>, eStart: HalfEdge, cs: seq<HalfEdge>)
    requires Good(r) && Paired(r) && Finished(r, covers, lines, rest + {eStart}, rings)
    requires Walk(r, AllOf(r, covers), es, eStart) && RingLine(r, es) && |es| > 0
    requires RingLine(r, cs) && |cs| > 0 && cs[0] in Both(r, es) && forall f :: f in cs ==> f in r.sym
    ensures AllOf(r, covers + [cs]) == AllOf(r, covers) + Both(r, es) && eStart in Both(r, es)
    ensures Finished(r, covers + [cs], lines + [PathOf(r, cs)], rest, rings)
  {
    var m := AllOf(r, covers);
    WalkNew(r, m, es, eStart);
    hide *;
    MaximalNodeLine(r, cs);
    SameRing(r, es, cs);
    TracedMore(r, covers, lines, cs);
    QueuedAfterRingLine(r, m, rest + {eStart}, rings, es, rest);
  }

  // Popping the top of the stack.
  lemma Popped(stack: seq<HalfEdge>)
    requires |stack| > 0
    ensures SetOf(stack) == SetOf(stack[..|stack| - 1]) + {stack[|stack| - 1]}
  {
    assert stack == stack[..|stack| - 1] + [stack[|stack| - 1]];
    SetOfAppend(stack[..|stack| - 1], stack[|stack| - 1]);
  }

  lemma FinishedWithout(r: Rotation, covers: seq<seq<HalfEdge>>, lines: seq<seq<Point>>, rest: set<HalfEdge>,
                        rings: set<HalfEdge>, e: HalfEdge)
    requires Paired(r) && Finished(r, covers, lines, rest + {e}, rings) && e in AllOf(r, covers)
    ensures Finished(r, covers, lines, rest, rings)
  {
    hide RingSet;
    hide NodeClosed;
    hide Traced;
    hide Paired;
    hide AllOf;
    assert AllOf(r, covers) + (rest + {e}) == AllOf(r, covers) + rest;
  }

  lemma StackedIsEdge(r: Rotation, covers: seq<seq<HalfEdge>>, lines: seq<seq<Point>>, stacked: set<HalfEdge>,
                      rings: set<HalfEdge>, e: HalfEdge)
    requires Finished(r, covers, lines, stacked, rings) && e in stacked
    ensures e in r.sym
  {
  }

  lemma MarkIs(r: Rotation, marked: set<HalfEdge>, e: HalfEdge)
    requires Marks(r, marked) && e in r.sym
    ensures e.marked <==> e in marked
  {
  }

  lemma OwnVertex(r: Rotation, e: HalfEdge)
    requires e in r.sym
    ensures e in EdgesAt(r, e.orig)
  {
  }

  lemma SettledClosed(r: Rotation, covers: seq<seq<HalfEdge>>, lines: seq<seq<Point>>)
    requires Paired(r) && Settled(r, covers, lines)
    ensures Closed(r, AllOf(r, covers)) && NodeClosed(r, AllOf(r, covers))
  {
  }

  lemma NothingStacked()
    ensures SetOf([]) == {}
  {
  }

  // Between two starting points nothing is stacked, and the marks are closed everywhere.
  ghost predicate Settled(r: Rotation, covers: seq<seq<HalfEdge>>, lines: seq<seq<Point>>) {
    Traced(r, covers, lines) && NodeClosed(r, AllOf(r, covers))
  }

  lemma SettledFrom(r: Rotation, covers: seq<seq<HalfEdge>>, lines: seq<seq<Point>>, rings: set<HalfEdge>)
    requires Finished(r, covers, lines, {}, rings)
    ensures Settled(r, covers, lines)
  {
    hide NodeClosed;
    assert AllOf(r, covers) + {} == AllOf(r, covers);
  }

  // The edges of one vertex are stacked, a node or a vertex of an isolated ring.
  lemma VertexStacked(r: Rotation, covers: seq<seq<HalfEdge>>, lines: seq<seq<Point>>, rings: set<HalfEdge>, v: Point)
    requires Paired(r) && Good(r) && Settled(r, covers, lines) && RingSet(r, rings)
    requires DegreeAt(r, v) != 2 || EdgesAt(r, v) <= rings
    ensures Finished(r, covers, lines, EdgesAt(r, v) - AllOf(r, covers), rings)
  {
    var m := AllOf(r, covers);
    hide Good;
    hide RingSet;
    hide Traced;
    hide AllOf;
    hide Paired;
    hide DegreeAt;
  }

  // The ring found by a walk back holds all edges at the vertex where the walk began.
  lemma CircleStacks(r: Rotation, ps: seq<HalfEdge>, e: HalfEdge)
    requires Paired(r) && Good(r) && BackCircle(r, ps) && |ps| > 0 && ps[0] == e
    ensures RingSet(r, Both(r, ps)) && EdgesAt(r, e.orig) <= Both(r, ps)
  {
    hide Good;
    CircleIsRing(r, ps);
    RingSetStarClosed(r, Both(r, ps));
  }

  lemma EmptyRingSet(r: Rotation)
    requires Paired(r)
    ensures RingSet(r, {})
  {
  }

  // ---- Loading lines

  // Some edge leaves p.
  ghost predicate Reaches(r: Rotation, p: Point) {
    exists f :: f in r.sym && f.orig == p
  }

  lemma AnchoredMore(r: Rotation, edges: seq<HalfEdge>, starts: set<HalfEdge>, r': Rotation, e: HalfEdge, f: HalfEdge,
                     starts': set<HalfEdge>)
    requires Paired(r') && Grounded(r, edges, starts) && e !in r.sym && f !in r.sym && e != f
    requires r'.sym == r.sym[e := f][f := e] && starts <= starts' && (e in starts' || Reaches(r, e.orig))
    ensures Grounded(r', edges + [e, f], starts')
  {
    var more := edges + [e, f];
    var n := |edges|;
    assert more[n] == e && more[n + 1] == f;
    forall k | 0 <= k < |more|
      ensures more[k] in r'.sym && (more[k] in starts' || r'.sym[more[k]] in starts' || TouchesEarlier(r', more, k))
    {
      if k < n {
        assert more[k] == edges[k];
        if TouchesEarlier(r, edges, k) {
          var j :| 0 <= j < k && Touches(r, edges[j], edges[k]);
          assert Touches(r', more[j], more[k]);
        }
      } else if k == n {
        if e !in starts' {
          var g :| g in r.sym && g.orig == e.orig;
          var j :| 0 <= j < |edges| && edges[j] == g;
          assert Touches(r', more[j], more[k]);
        }
      } else {
        assert Touches(r', more[n], more[k]);
      }
    }
    forall g | g in r'.sym ensures g in more {
      if g in r.sym {
        var j :| 0 <= j < |edges| && edges[j] == g;
        assert more[j] == g;
      }
    }
  }

  lemma GroundedStarts(r: Rotation, edges: seq<HalfEdge>, starts: set<HalfEdge>, starts': set<HalfEdge>)
    requires Grounded(r, edges, starts) && starts <= starts'
    ensures Grounded(r, edges, starts')
  {
  }

  // e runs from orig to dest, and was there before or has been added with its opposite.
  ghost predicate Connected(r: Rotation, edges: seq<HalfEdge>, r': Rotation, edges': seq<HalfEdge>, e: HalfEdge,
                            orig: Point, dest: Point) {
    && e in r'.sym && e.orig == orig && r'.sym[e].orig == dest
    && (e in r.sym ==> r' == r && edges' == edges)
    && (e !in r.sym ==>
         var f := r'.sym[e];
         f !in r.sym && f != e && r'.sym == r.sym[e := f][f := e] && edges' == edges + [e, f])
  }

  lemma SymOnHeap(graph: EdgeGraph, e: HalfEdge)
    requires graph.Valid() && e in graph.rotation.sym
    ensures e.sym == graph.rotation.sym[e] && e.sym != e
  {
  }

  lemma ValidPaired(graph: EdgeGraph)
    requires graph.Valid()
    ensures Paired(graph.rotation)
  {
  }

  lemma PairUnmarked(r: Rotation, r': Rotation, e: HalfEdge, f: HalfEdge, starts: set<HalfEdge>)
    requires Flags(r, starts) && Marks(r, {}) && r'.sym == r.sym[e := f][f := e] && e !in r.sym && f !in r.sym
    requires !e.marked && !f.marked && !e.isStart && !f.isStart
    ensures Flags(r', starts) && Marks(r', {})
  {
  }

  lemma NoSegment(p: Point)
    ensures SegmentPair(p, p) == {}
  {
  }

  // What is known of the connected edge, flagged or in reach of what was there before.
  lemma ConnectedFacts(r: Rotation, edges: seq<HalfEdge>, r': Rotation, edges': seq<HalfEdge>, e: HalfEdge, orig: Point,
                       dest: Point, starts: set<HalfEdge>)
    requires Paired(r) && Paired(r') && Connected(r, edges, r', edges', e, orig, dest) && Grounded(r, edges, starts)
    ensures e in r'.sym && Reaches(r', dest)
    ensures PairsOf(r') == PairsOf(r) + SegmentPair(orig, dest)
    ensures Grounded(r', edges', starts + {e})
    ensures Reaches(r, orig) ==> Grounded(r', edges', starts)
  {
    assert r'.sym[e] in r'.sym;
    if e in r.sym {
      GroundedStarts(r, edges, starts, starts + {e});
      assert (e.orig, r.sym[e].orig) in PairsOf(r);
      assert (r.sym[e].orig, r.sym[r.sym[e]].orig) in PairsOf(r);
    } else {
      var f := r'.sym[e];
      AnchoredMore(r, edges, starts, r', e, f, starts + {e});
      if Reaches(r, orig) { AnchoredMore(r, edges, starts, r', e, f, starts); }
      PairsWith(r, r', e, f);
    }
  }

  class LineDissolver {
    const graph: EdgeGraph
    var lines: seq<seq<Point>>
    var nodeEdgeStack: seq<HalfEdge>
    var ringStartEdge: HalfEdge?
    // the edges of each line found so far
    ghost var covers: seq<seq<HalfEdge>>
    // the half-edges that some input line starts with
    ghost var starts: set<HalfEdge>

    constructor ()
      ensures fresh(graph) && graph.Valid() && graph.edges == []
      ensures lines == [] && nodeEdgeStack == [] && covers == [] && starts == {}
    {
      graph := new EdgeGraph();
      lines, nodeEdgeStack, ringStartEdge := [], [], null;
      covers, starts := [], {};
    }

    method UpdateRingStartEdge(e: HalfEdge, ghost r: Rotation)
      requires Tracking(r) && Flags(r, starts) && e in r.sym
      modifies this`ringStartEdge
      ensures ringStartEdge == BetterStart(r, starts, e, old(ringStartEdge))
    {
      Pointers(r, e);
      hide Tracking;
      var f := e;
      if !f.isStart {
        f := f.sym;
        if !f.isStart {
          return;
        }
      }
      if ringStartEdge == null {
        ringStartEdge := f;
        return;
      }
      if CompareTo(f.orig, ringStartEdge.orig) < 0 {
        ringStartEdge := f;
      }
    }

    /** Push the unmarked edges of the vertex that node leaves. */
    method StackEdges(node: HalfEdge, ghost r: Rotation, ghost marked: set<HalfEdge>)
      requires Tracking(r) && Marks(r, marked) && node in r.sym
      modifies this`nodeEdgeStack
      ensures SetOf(nodeEdgeStack) == old(SetOf(nodeEdgeStack)) + (EdgesAt(r, node.orig) - marked)
    {
      ghost var s := StarHere(r, node);
      ghost var i := 0;
      hide *;
      assert StackedTo(nodeEdgeStack, nodeEdgeStack, s, 0, marked) by { StackedNone(nodeEdgeStack, s, marked); }
      var e := node;
      while true
        invariant i < |s| && e == s[i]
        invariant StackedTo(nodeEdgeStack, old(nodeEdgeStack), s, i, marked)
        decreases |s| - i
      {
        StarStep(s, i);
        StackedNext(nodeEdgeStack, old(nodeEdgeStack), s, i, marked);
        MarkOf(r, marked, e, s, node.orig);
        if !e.marked {
          nodeEdgeStack := nodeEdgeStack + [e];
        }
        e := e.ONext();
        i := i + 1;
        if e == node {
          break;
        }
      }
      StackedAll(nodeEdgeStack, old(nodeEdgeStack), s, marked, EdgesAt(r, node.orig));
    }

    // Draw an isolated ring, starting with the given edge of it.
    method BuildRing(eStartRing: HalfEdge, ghost r: Rotation, ghost rings: set<HalfEdge>)
      returns (ghost cs: seq<HalfEdge>)
      requires Tracking(r) && RingSet(r, rings) && eStartRing in rings && eStartRing in r.sym
      modifies this`lines
      ensures Paired(r) && RingLine(r, cs) && |cs| > 0 && cs[0] == eStartRing && forall f :: f in cs ==> f in r.sym
      ensures lines == old(lines) + [PathOf(r, cs)]
    {
      hide *;
      TrackingFacts(r);
      var line: seq<Point> := [];
      var e := eStartRing;
      line := AddPoint(line, e.orig);
      cs := [e];
      WalkStarts(r, {}, e);
      while true
        invariant Walk(r, {}, cs, eStartRing) && |cs| > 0 && cs[0] == eStartRing && e == cs[|cs| - 1]
        invariant line == Origins(cs) && lines == old(lines)
        decreases r.sym.Keys - SetOf(cs)
      {
        RingWalk(r, rings, cs, eStartRing, e);
        var degree := DegreeOf(e.sym, r);
        if degree != 2 {
          break;
        }
        var eNext := e.next;
        // all edges of the isolated ring are in cs
        if eNext == eStartRing {
          break;
        }
        WalkGrows(r, {}, cs, eStartRing, eNext);
        line := AddPoint(line, eNext.orig);
        e := eNext;
        cs := cs + [eNext];
      }
      RingWalkEnds(r, cs, e);
      line := AddPoint(line, e.sym.orig);
      lines := lines + [line];
    }

    // The walk is back at its start: draw the ring from its start edge.
    method DrawRing(ghost r: Rotation, ghost edges: seq<HalfEdge>, ghost rings: set<HalfEdge>,
                     ghost es: seq<HalfEdge>, ghost eStart: HalfEdge)
      requires Tracking(r) && Paired(r) && Good(r) && Grounded(r, edges, starts)
      requires BestStart(r, starts, es, ringStartEdge)
      requires Finished(r, covers, lines, SetOf(nodeEdgeStack) + {eStart}, rings)
      requires |es| > 0 && Walk(r, AllOf(r, covers), es, eStart) && RingLine(r, es)
      requires forall f :: f in es ==> f in r.sym
      requires AllStartWell(r, starts, covers)
      modifies this`lines, this`covers
      ensures Finished(r, covers, lines, SetOf(nodeEdgeStack), rings) && AllStartWell(r, starts, covers)
      ensures AllOf(r, covers) == old(AllOf(r, covers)) + Both(r, es) && eStart in Both(r, es)
    {
      hide *;
      RingStartExists(r, edges, starts, es, ringStartEdge);
      ghost var cs := BuildRing(ringStartEdge, r, Both(r, es));
      RingLineFinished(r, covers, old(lines), SetOf(nodeEdgeStack), rings, es, eStart, cs);
      BestStartsWell(r, starts, es, cs);
      OneMoreStartsWell(r, starts, covers, cs);
      covers := covers + [cs];
    }

    // The walk has reached a node: add it, stack its edges, and keep the line.
    method EndLine(path: seq<Point>, e: HalfEdge, ghost r: Rotation, ghost rings: set<HalfEdge>,
                   ghost es: seq<HalfEdge>, ghost eStart: HalfEdge)
      requires Tracking(r) && Paired(r) && Good(r) && Finished(r, covers, lines, SetOf(nodeEdgeStack) + {eStart}, rings)
      requires |es| > 0 && e == es[|es| - 1] && Walk(r, AllOf(r, covers), es, eStart) && path == Origins(es)
      requires e in r.sym && e.sym == r.sym[e] && e.sym in r.sym && !Passes(r, e)
      requires Marks(r, AllOf(r, covers) + Both(r, es))
      requires AllStartWell(r, starts, covers)
      modifies this`lines, this`covers, this`nodeEdgeStack
      ensures Finished(r, covers, lines, SetOf(nodeEdgeStack), rings) && AllStartWell(r, starts, covers)
      ensures AllOf(r, covers) == old(AllOf(r, covers)) + Both(r, es) && eStart in Both(r, es)
      ensures SetOf(nodeEdgeStack) >= old(SetOf(nodeEdgeStack))
    {
      hide *;
      NodeLineFinished(r, covers, lines, SetOf(nodeEdgeStack), rings, es, eStart, e);
      var line := AddPoint(path, e.sym.orig);
      NodeStartsWell(r, starts, es);
      OneMoreStartsWell(r, starts, covers, es);
      covers := covers + [es];
      StackEdges(e.sym, r, AllOf(r, covers));
      lines := lines + [line];
    }

    /** Draw the line that starts with an unmarked edge, and stack the edges at its far end. */
    method BuildLine(eStart: HalfEdge, ghost r: Rotation, ghost edges: seq<HalfEdge>, ghost rings: set<HalfEdge>)
      requires Tracking(r) && Paired(r) && Flags(r, starts) && Grounded(r, edges, starts)
      requires Finished(r, covers, lines, SetOf(nodeEdgeStack) + {eStart}, rings) && Marks(r, AllOf(r, covers))
      requires eStart in r.sym && eStart !in AllOf(r, covers) && AllStartWell(r, starts, covers)
      modifies this`lines, this`nodeEdgeStack, this`ringStartEdge, this`covers, r.sym.Keys`marked
      ensures Finished(r, covers, lines, SetOf(nodeEdgeStack), rings) && Marks(r, AllOf(r, covers))
      ensures AllStartWell(r, starts, covers)
      ensures AllOf(r, covers) >= old(AllOf(r, covers)) + {eStart}
      ensures SetOf(nodeEdgeStack) >= old(SetOf(nodeEdgeStack))
    {
      hide *;
      ghost var m := AllOf(r, covers);
      var line: seq<Point> := [];
      var e := eStart;
      ringStartEdge := null;
      FinishedClosed(r, covers, lines, SetOf(nodeEdgeStack) + {eStart}, rings);
      Pointers(r, e);
      MarkBoth(e, r, m);
      line := AddPoint(line, e.orig);
      ghost var es := [e];
      WalkStarts(r, m, e);
      NoBestStart(r, starts);
      assert es[..0] == [];
      while true
        invariant Tracking(r) && Walk(r, m, es, eStart) && |es| > 0 && e == es[|es| - 1] && line == Origins(es)
        invariant Marks(r, m + Both(r, es))
        invariant BestStart(r, starts, es[..|es| - 1], ringStartEdge)
        invariant lines == old(lines) && covers == old(covers) && nodeEdgeStack == old(nodeEdgeStack)
        decreases r.sym.Keys - SetOf(es)
      {
        LineWalk(r, m, es, eStart, e);
        var degree := DegreeOf(e.sym, r);
        if degree != 2 {
          break;
        }
        ghost var best := ringStartEdge;
        UpdateRingStartEdge(e, r);
        StartUpdated(r, starts, es, e, best, ringStartEdge);
        var eNext := e.next;
        // the chain closes, so RingLine holds of es
        if eNext == eStart {
          DrawRing(r, edges, rings, es, eStart);
          return;
        }
        WalkGrows(r, m, es, eStart, eNext);
        line := AddPoint(line, eNext.orig);
        e := eNext;
        Pointers(r, e);
        MarkBoth(e, r, m + Both(r, es));
        assert m + Both(r, es) + {e, r.sym[e]} == m + Both(r, es + [e]);
        assert (es + [e])[..|es|] == es;
        es := es + [e];
      }
      EndLine(line, e, r, rings, es, eStart);
    }

    // Draw the lines of all stacked edges and of those stacked meanwhile.
    method BuildLines(ghost r: Rotation, ghost edges: seq<HalfEdge>, ghost rings: set<HalfEdge>)
      requires Tracking(r) && Paired(r) && Flags(r, starts) && Grounded(r, edges, starts)
      requires Finished(r, covers, lines, SetOf(nodeEdgeStack), rings) && Marks(r, AllOf(r, covers))
      requires AllStartWell(r, starts, covers)
      modifies this`lines, this`nodeEdgeStack, this`ringStartEdge, this`covers, r.sym.Keys`marked
      ensures nodeEdgeStack == [] && Settled(r, covers, lines) && Marks(r, AllOf(r, covers))
      ensures AllStartWell(r, starts, covers)
      ensures AllOf(r, covers) >= old(AllOf(r, covers)) + old(SetOf(nodeEdgeStack))
    {
      hide *;
      while nodeEdgeStack != []
        invariant Tracking(r) && Flags(r, starts) && Finished(r, covers, lines, SetOf(nodeEdgeStack), rings)
        invariant Marks(r, AllOf(r, covers))
        invariant AllOf(r, covers) >= old(AllOf(r, covers)) && AllStartWell(r, starts, covers)
        invariant AllOf(r, covers) + SetOf(nodeEdgeStack) >= old(AllOf(r, covers)) + old(SetOf(nodeEdgeStack))
        decreases r.sym.Keys - AllOf(r, covers), |nodeEdgeStack|
      {
        ghost var m := AllOf(r, covers);
        Popped(nodeEdgeStack);
        var e := nodeEdgeStack[|nodeEdgeStack| - 1];
        StackedIsEdge(r, covers, lines, SetOf(nodeEdgeStack), rings, e);
        nodeEdgeStack := nodeEdgeStack[..|nodeEdgeStack| - 1];
        MarkIs(r, m, e);
        if e.marked {
          FinishedWithout(r, covers, lines, SetOf(nodeEdgeStack), rings, e);
          continue;
        }
        BuildLine(e, r, edges, rings);
        assert e in r.sym.Keys - m && e !in r.sym.Keys - AllOf(r, covers);
      }
      NothingStacked();
      SettledFrom(r, covers, lines, rings);
    }

    // The state between two starting points.
    ghost predicate Steady(r: Rotation, edges: seq<HalfEdge>)
      reads this, r.sym.Keys
    {
      && Tracking(r) && Flags(r, starts) && Grounded(r, edges, starts)
      && nodeEdgeStack == [] && Settled(r, covers, lines) && Marks(r, AllOf(r, covers))
      && AllStartWell(r, starts, covers)
    }

    lemma SteadyFacts(r: Rotation, edges: seq<HalfEdge>)
      requires Steady(r, edges)
      ensures Tracking(r) && Paired(r) && Good(r) && Flags(r, starts) && Grounded(r, edges, starts)
      ensures nodeEdgeStack == [] && Settled(r, covers, lines) && Marks(r, AllOf(r, covers))
      ensures AllStartWell(r, starts, covers)
    {
    }

    lemma SteadyFrom(r: Rotation, edges: seq<HalfEdge>)
      requires Tracking(r) && Paired(r) && Flags(r, starts) && Grounded(r, edges, starts)
      requires nodeEdgeStack == [] && Settled(r, covers, lines) && Marks(r, AllOf(r, covers))
      requires AllStartWell(r, starts, covers)
      ensures Steady(r, edges)
    {
    }

    // Draw every line there is from a node, or from a vertex of an isolated ring.
    method DrawFrom(eNode: HalfEdge, ghost r: Rotation, ghost edges: seq<HalfEdge>, ghost rings: set<HalfEdge>)
      requires Paired(r) && Steady(r, edges) && eNode in r.sym && RingSet(r, rings)
      requires DegreeAt(r, eNode.orig) != 2 || EdgesAt(r, eNode.orig) <= rings
      modifies this`lines, this`nodeEdgeStack, this`ringStartEdge, this`covers, r.sym.Keys`marked
      ensures Steady(r, edges) && AllOf(r, covers) >= old(AllOf(r, covers)) + {eNode}
    {
      hide *;
      SteadyFacts(r, edges);
      VertexStacked(r, covers, lines, rings, eNode.orig);
      NothingStacked();
      ghost var m := AllOf(r, covers);
      StackEdges(eNode, r, m);
      assert SetOf(nodeEdgeStack) == EdgesAt(r, eNode.orig) - m;
      OwnVertex(r, eNode);
      BuildLines(r, edges, rings);
      SteadyFrom(r, edges);
    }

    /** Draw every line of the part of the graph that e belongs to. */
    method Process(e: HalfEdge, ghost r: Rotation, ghost edges: seq<HalfEdge>)
      requires Paired(r) && Steady(r, edges) && e in r.sym
      modifies this`lines, this`nodeEdgeStack, this`ringStartEdge, this`covers, r.sym.Keys`marked
      ensures Steady(r, edges) && AllOf(r, covers) >= old(AllOf(r, covers)) + {e}
    {
      hide *;
      SteadyFacts(r, edges);
      var eNode := PrevNode(e, r);
      ghost var ps :| LeadsBack(r, e, eNode, ps);
      LeadsBackParts(r, e, eNode, ps);
      ghost var rings := {};
      EmptyRingSet(r);
      if eNode == null {
        eNode := e;
        CircleStacks(r, ps, e);
        rings := Both(r, ps);
      }
      DrawFrom(eNode, r, edges, rings);
      SteadyFacts(r, edges);
      SettledClosed(r, covers, lines);
      BackMarked(r, ps, AllOf(r, covers), if eNode == e then 0 else |ps| - 1);
    }

    // The graph is in order, its edges are flagged as recorded, and nothing is marked or drawn.
    ghost predicate Untouched()
      reads this, graph, graph.rotation.sym.Keys
    {
      && graph.Valid() && Flags(graph.rotation, starts) && Marks(graph.rotation, {})
      && lines == [] && covers == [] && nodeEdgeStack == []
    }

    // Besides, all edges are in reach of a start edge: lines can be added and dissolved.
    ghost predicate Open()
      reads this, graph, graph.rotation.sym.Keys
    {
      Untouched() && Grounded(graph.rotation, graph.edges, starts)
    }

    // Have the edge from orig to dest in the graph; it is neither marked nor flagged when new.
    method Connect(orig: Point, dest: Point) returns (e: HalfEdge?)
      requires Untouched()
      modifies graph, graph.rotation.sym.Keys`next
      ensures Untouched() && Paired(graph.rotation)
      ensures fresh(graph.rotation.sym.Keys - old(graph.rotation.sym.Keys))
      ensures e == null <==> orig == dest
      ensures e == null ==> graph.rotation == old(graph.rotation) && graph.edges == old(graph.edges)
      ensures e != null ==> Connected(old(graph.rotation), old(graph.edges), graph.rotation, graph.edges, e, orig, dest)
    {
      hide EdgeGraph.Valid;
      hide Flags;
      hide Marks;
      ghost var r := graph.rotation;
      e := graph.AddEdge(orig, dest);
      ValidPaired(graph);
      if e != null {
        SymOnHeap(graph, e);
        if e !in r.sym {
          PairUnmarked(r, graph.rotation, e, e.sym, starts);
        }
      }
    }

    method SetStart(e: HalfEdge)
      requires Untouched() && e in graph.rotation.sym
      modifies this`starts, e`isStart
      ensures Untouched() && starts == old(starts) + {e}
    {
      hide EdgeGraph.Valid;
      e.isStart := true;
      starts := starts + {e};
    }

    lemma OpenFacts()
      requires Open()
      ensures Untouched() && Paired(graph.rotation) && Grounded(graph.rotation, graph.edges, starts)
    {
    }

    lemma OpenFrom()
      requires Untouched() && Grounded(graph.rotation, graph.edges, starts)
      ensures Open()
    {
    }

    // The segments that the start edges stand for.
    ghost function Pairs(): set<(Point, Point)>
      reads this, graph
    {
      StartPairs(graph.rotation, starts)
    }

    lemma PairsAre()
      ensures Pairs() == StartPairs(graph.rotation, starts)
    {
    }

    lemma OpenStarts()
      requires Untouched()
      ensures starts <= graph.rotation.sym.Keys
    {
    }

    // Add one segment, and flag its half-edge if it is the first of its line.
    method AddSegment(orig: Point, dest: Point, doneStart: bool) returns (done: bool)
      requires Open() && Paired(graph.rotation) && (doneStart ==> Reaches(graph.rotation, orig))
      modifies this`starts, graph, graph.rotation.sym.Keys
      ensures Open() && Paired(graph.rotation) && fresh(graph.rotation.sym.Keys - old(graph.rotation.sym.Keys))
      ensures done <==> doneStart || orig != dest
      ensures done ==> Reaches(graph.rotation, dest)
      ensures PairsOf(graph.rotation) == old(PairsOf(graph.rotation)) + SegmentPair(orig, dest)
      ensures Pairs() == old(Pairs()) + if doneStart || orig == dest then {} else {(orig, dest)}
    {
      hide *;
      OpenFacts();
      OpenStarts();
      PairsAre();
      ghost var r, edges := graph.rotation, graph.edges;
      var e := Connect(orig, dest);
      if e == null {
        NoSegment(orig);
        OpenFrom();
        PairsAre();
        return doneStart;
      }
      ConnectedFacts(r, edges, graph.rotation, graph.edges, e, orig, dest, starts);
      OpenStarts();
      PairsKept(r, edges, graph.rotation, graph.edges, e, orig, dest, starts);
      // record the first segment of the line
      if !doneStart {
        SetStart(e);
      }
      done := true;
      OpenFrom();
      PairsAre();
    }

    /** Add all segments of a line, the first one that has length as its start. */
    method AddLine(line: seq<Point>)
      requires Open() && Paired(graph.rotation)
      modifies this`starts, graph, graph.rotation.sym.Keys
      ensures Open() && Paired(graph.rotation) && fresh(graph.rotation.sym.Keys - old(graph.rotation.sym.Keys))
      ensures PairsOf(graph.rotation) == old(PairsOf(graph.rotation)) + LineSegments(line)
      ensures Pairs() == old(Pairs()) + FirstSegment(line)
    {
      hide *;
      var doneStart := false;
      var i := 1;
      NoSegments(line);
      NoFirst(line);
      while i < |line|
        invariant 1 <= i && (|line| > 0 ==> i <= |line|)
        invariant Open() && Paired(graph.rotation) && fresh(graph.rotation.sym.Keys - old(graph.rotation.sym.Keys))
        invariant doneStart ==> i <= |line| && Reaches(graph.rotation, line[i - 1])
        invariant |line| > 0 ==> PairsOf(graph.rotation) == old(PairsOf(graph.rotation)) + LineSegments(line[..i])
        invariant line == [] ==> PairsOf(graph.rotation) == old(PairsOf(graph.rotation)) && Pairs() == old(Pairs())
        invariant |line| > 0 ==>
          Pairs() == old(Pairs()) + FirstSegment(line[..i]) && (doneStart <==> FirstSegment(line[..i]) != {})
      {
        SegmentsStep(line, i);
        FirstStep(line, i);
        doneStart := AddSegment(line[i - 1], line[i], doneStart);
        i := i + 1;
      }
      assert |line| > 0 ==> line[..i] == line;
    }

    // Process the part of the graph that e belongs to, unless that has been done.
    method ProcessUnmarked(e: HalfEdge, ghost r: Rotation, ghost edges: seq<HalfEdge>)
      requires Paired(r) && Steady(r, edges) && e in r.sym
      modifies this`lines, this`nodeEdgeStack, this`ringStartEdge, this`covers, r.sym.Keys`marked
      ensures Steady(r, edges) && AllOf(r, covers) >= old(AllOf(r, covers)) + {e}
    {
      hide *;
      SteadyMark(r, edges, e);
      if !e.marked {
        Process(e, r, edges);
      }
    }

    /** Draw the lines: when done, every edge belongs to exactly one of them. */
    method ComputeResult()
      requires Open()
      modifies this`lines, this`nodeEdgeStack, this`ringStartEdge, this`covers, graph.rotation.sym.Keys`marked
      ensures Paired(graph.rotation) && Good(graph.rotation) && Traced(graph.rotation, covers, lines)
      ensures AllOf(graph.rotation, covers) == graph.rotation.sym.Keys && AllStartWell(graph.rotation, starts, covers)
    {
      hide *;
      ghost var r := graph.rotation;
      Begin();
      var edges := graph.GetVertexEdges();
      VertexEdgesInside(graph.vertexMap, r, edges);
      assert edges[..0] == [];
      NothingStacked();
      var i := 0;
      while i < |edges|
        invariant 0 <= i <= |edges|
        invariant Steady(r, graph.edges) && SetOf(edges[..i]) <= AllOf(r, covers)
      {
        FirstEdges(edges, i);
        ProcessUnmarked(edges[i], r, graph.edges);
        i := i + 1;
      }
      assert edges[..i] == edges;
      SteadyFacts(r, graph.edges);
      AllDrawn(r, graph.vertexMap, edges, covers, lines);
    }

    lemma SteadyMark(r: Rotation, edges: seq<HalfEdge>, e: HalfEdge)
      requires Paired(r) && Steady(r, edges) && e in r.sym
      ensures e.marked <==> e in AllOf(r, covers)
    {
    }

    lemma Begin()
      requires Open()
      ensures Paired(graph.rotation) && Good(graph.rotation) && MapsTo(graph.vertexMap, graph.rotation.star)
      ensures Steady(graph.rotation, graph.edges)
    {
      NothingDrawn(graph.rotation);
      NoneStart(graph.rotation, starts);
    }
  }

  lemma NoSegments(line: seq<Point>)
    ensures |line| < 2 ==> LineSegments(line) == {}
    ensures |line| > 0 ==> LineSegments(line[..1]) == {}
  {
  }

  lemma NoFirst(line: seq<Point>)
    ensures |line| < 2 ==> FirstSegment(line) == {}
    ensures |line| > 0 ==> FirstSegment(line[..1]) == {}
  {
  }

  lemma FirstStep(line: seq<Point>, i: nat)
    requires 0 < i < |line|
    ensures var s := FirstSegment(line[..i]);
      FirstSegment(line[..i + 1]) == s + if s != {} || line[i - 1] == line[i] then {} else {(line[i - 1], line[i])}
  {
    assert line[..i + 1][..i] == line[..i];
  }

  // Connecting an edge leaves the flagged segments; flagging it adds its own.
  lemma PairsKept(r: Rotation, edges: seq<HalfEdge>, r': Rotation, edges': seq<HalfEdge>, e: HalfEdge, orig: Point,
                  dest: Point, starts: set<HalfEdge>)
    requires Paired(r) && Connected(r, edges, r', edges', e, orig, dest) && starts <= r'.sym.Keys
    requires starts <= r.sym.Keys
    ensures StartPairs(r', starts) == StartPairs(r, starts)
    ensures StartPairs(r', starts + {e}) == StartPairs(r, starts) + {(orig, dest)}
  {
    var more := StartPairs(r', starts + {e});
    assert e in starts + {e} && (e.orig, r'.sym[e].orig) in more;
    forall p | p in StartPairs(r, starts) ensures p in more && p in StartPairs(r', starts) {
      var f :| f in starts && f in r.sym && (f.orig, r.sym[f].orig) == p;
      assert f in starts + {e} && r'.sym[f] == r.sym[f];
    }
  }

  lemma SegmentsStep(line: seq<Point>, i: nat)
    requires 0 < i < |line|
    ensures LineSegments(line[..i + 1]) == LineSegments(line[..i]) + SegmentPair(line[i - 1], line[i])
  {
    assert line[..i + 1][..i] == line[..i];
  }

  lemma NothingDrawn(r: Rotation)
    requires Paired(r)
    ensures AllOf(r, []) == {} && Settled(r, [], [])
  {
  }

  lemma FirstEdges(edges: seq<HalfEdge>, i: nat)
    requires i < |edges|
    ensures edges[i] in edges && SetOf(edges[..i + 1]) == SetOf(edges[..i]) + {edges[i]}
  {
    SetOfAppend(edges[..i], edges[i]);
    assert edges[..i + 1] == edges[..i] + [edges[i]];
  }

  lemma VertexEdgesInside(vertexMap: map<Point, HalfEdge>, r: Rotation, edges: seq<HalfEdge>)
    requires Good(r) && MapsTo(vertexMap, r.star)
    requires OnePerVertex(vertexMap, edges)
    ensures forall e :: e in edges ==> e in r.sym
  {
    forall e | e in edges ensures e in r.sym {
      var v :| v in vertexMap && vertexMap[v] == e;
      StarMembers(r, {}, v);
      assert r.star[v][0] in r.star[v];
    }
  }

  lemma AllDrawn(r: Rotation, vertexMap: map<Point, HalfEdge>, edges: seq<HalfEdge>, covers: seq<seq<HalfEdge>>,
                 lines: seq<seq<Point>>)
    requires Good(r) && Paired(r) && Settled(r, covers, lines) && MapsTo(vertexMap, r.star)
    requires OnePerVertex(vertexMap, edges)
    requires SetOf(edges) <= AllOf(r, covers)
    ensures Traced(r, covers, lines) && AllOf(r, covers) == r.sym.Keys
  {
    hide Good;
    hide AllOf;
    SettledClosed(r, covers, lines);
    ClosedAtVertices(r, AllOf(r, covers));
    forall v | v in r.star ensures |r.star[v]| > 0 && r.star[v][0] in AllOf(r, covers) {
      assert vertexMap[v] in edges;
    }
    EverythingMarked(r, AllOf(r, covers));
  }

  lemma BeginsOpen(d: LineDissolver)
    requires d.graph.Valid() && d.graph.edges == [] && d.starts == {}
    requires d.lines == [] && d.covers == [] && d.nodeEdgeStack == []
    ensures d.Open() && Paired(d.graph.rotation) && PairsOf(d.graph.rotation) == {} && d.graph.rotation.sym.Keys == {}
    ensures d.Pairs() == {}
  {
  }

  lemma InputSegmentsStep(lines: seq<seq<Point>>, i: nat)
    requires i < |lines|
    ensures InputSegments(lines[..i + 1]) == InputSegments(lines[..i]) + LineSegments(lines[i])
    ensures FirstSegments(lines[..i + 1]) == FirstSegments(lines[..i]) + FirstSegment(lines[i])
  {
    assert lines[..i + 1][..i] == lines[..i];
  }

  lemma TracedDissolves(r: Rotation, covers: seq<seq<HalfEdge>>, lines: seq<seq<Point>>, inputs: seq<seq<Point>>)
    requires Paired(r) && Good(r) && Traced(r, covers, lines)
    requires AllOf(r, covers) == r.sym.Keys && PairsOf(r) == InputSegments(inputs)
    ensures Dissolved(inputs, lines)
  {
    hide Good;
    CoverDissolves(r, covers, lines, inputs);
  }

  // Add every line of the input.
  method AddLines(d: LineDissolver, inputs: seq<seq<Point>>)
    requires d.Open() && Paired(d.graph.rotation) && PairsOf(d.graph.rotation) == {} && d.Pairs() == {}
    modifies d`starts, d.graph, d.graph.rotation.sym.Keys
    ensures d.Open() && Paired(d.graph.rotation) && fresh(d.graph.rotation.sym.Keys - old(d.graph.rotation.sym.Keys))
    ensures PairsOf(d.graph.rotation) == InputSegments(inputs) && d.Pairs() == FirstSegments(inputs)
  {
    hide *;
    assert inputs[..0] == [];
    NoLines();
    var i := 0;
    while i < |inputs|
      invariant 0 <= i <= |inputs|
      invariant d.Open() && Paired(d.graph.rotation)
      invariant fresh(d.graph.rotation.sym.Keys - old(d.graph.rotation.sym.Keys))
      invariant PairsOf(d.graph.rotation) == InputSegments(inputs[..i]) && d.Pairs() == FirstSegments(inputs[..i])
    {
      InputSegmentsStep(inputs, i);
      d.AddLine(inputs[i]);
      i := i + 1;
    }
    assert inputs[..i] == inputs;
  }

  /**
   Dissolve lines: every segment of the input is passed exactly once by the output,
   nothing else is, and no output line can be made longer. The line of an isolated ring starts with
   the first segment of an input line, and with the least vertex that such segments give.
   */
  method Dissolve(inputs: seq<seq<Point>>) returns (outputs: seq<seq<Point>>)
    ensures Dissolved(inputs, outputs)
    ensures forall line :: line in outputs && |NeighboursOf(InputSegments(inputs), line[0])| == 2 ==>
      StartsLeast(FirstSegments(inputs), line)
  {
    hide *;
    var d := new LineDissolver();
    BeginsOpen(d);
    AddLines(d, inputs);
    d.PairsAre();
    d.ComputeResult();
    outputs := d.lines;
    TracedDissolves(d.graph.rotation, d.covers, d.lines, inputs);
    RingsStartLeast(d.graph.rotation, d.starts, d.covers, d.lines, inputs);
  }

  // A line that starts at a vertex of degree 2 is a ring, and starts well.
  lemma RingsStartLeast(r: Rotation, starts: set<HalfEdge>, covers: seq<seq<HalfEdge>>, lines: seq<seq<Point>>,
                        inputs: seq<seq<Point>>)
    requires Paired(r) && Good(r) && Traced(r, covers, lines) && AllStartWell(r, starts, covers)
    requires PairsOf(r) == InputSegments(inputs) && StartPairs(r, starts) == FirstSegments(inputs)
    ensures forall line :: line in lines ==> |line| >= 2
    ensures forall line :: line in lines && |NeighboursOf(InputSegments(inputs), line[0])| == 2 ==>
      StartsLeast(FirstSegments(inputs), line)
  {
    forall line | line in lines
      ensures |line| >= 2
      ensures |NeighboursOf(InputSegments(inputs), line[0])| == 2 ==> StartsLeast(FirstSegments(inputs), line)
    {
      var i :| 0 <= i < |lines| && lines[i] == line;
      TracedParts(r, covers, lines);
      AllMaximal(r, covers, i);
      LineStarts(r, starts, covers, lines, i);
    }
  }

  lemma LineStarts(r: Rotation, starts: set<HalfEdge>, covers: seq<seq<HalfEdge>>, lines: seq<seq<Point>>, i: nat)
    requires Paired(r) && Good(r) && PathsOf(r, covers, lines) && AllStartWell(r, starts, covers) && i < |covers|
    requires Maximal(r, covers[i])
    ensures i < |lines| && |lines[i]| >= 2
    ensures |NeighboursOf(PairsOf(r), lines[i][0])| == 2 ==> StartsLeast(StartPairs(r, starts), lines[i])
  {
    var c := covers[i];
    MaximalIsPath(r, c);
    PathSegment(r, c, 0);
    DegreeIsNeighbours(r, c[0].orig);
    hide Good;
    hide NeighboursOf;
    if DegreeAt(r, c[0].orig) == 2 { RingStartsLeast(r, starts, c); }
  }

  lemma NoLines()
    ensures InputSegments([]) == {} && FirstSegments([]) == {}
  {
  }
}
