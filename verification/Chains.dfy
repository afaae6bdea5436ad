/**
 Maximal lines of a rotation system: chains of half-edges through vertices of degree 2,
 and sets of marked edges that are closed along such chains.
 */
module Chains {
  import opened Planar
  import opened DirectionRings
  import opened HalfEdges
  import opened RotationSystems

  ghost predicate Good(r: Rotation) {
    System(r, {})
  }

  lemma EdgeFacts(r: Rotation, e: HalfEdge)
    requires Good(r) && e in r.sym
    ensures Paired(r)
    ensures r.sym[e] in r.sym && r.sym[r.sym[e]] == e && r.sym[e] != e && r.sym[e].orig != e.orig
    ensures r.next[e] in r.sym && r.next[e].orig == r.sym[e].orig
    ensures e.orig in r.star && e in r.star[e.orig] && r.sym[e].orig in r.star
  {
    NextContinues(r, e);
    assert r.sym[e] in r.sym;
  }

  ghost function DegreeAt(r: Rotation, v: Point): nat {
    if v in r.star then |r.star[v]| else 0
  }

  // The walk along e passes through the vertex where e ends.
  ghost predicate Passes(r: Rotation, e: HalfEdge)
    requires e in r.sym
  {
    DegreeAt(r, r.sym[e].orig) == 2
  }

  // The two edges at a vertex of degree 2.
  lemma TwoEdges(r: Rotation, e: HalfEdge)
    requires Good(r) && e in r.sym && Passes(r, e)
    ensures r.next[e] in r.sym && r.next[e] != r.sym[e]
    ensures r.sym[r.next[e]] in r.sym && r.next[r.sym[r.next[e]]] == r.sym[e]
    ensures forall f :: f in r.sym && f.orig == r.sym[e].orig ==> f == r.sym[e] || f == r.next[e]
  {
    EdgeFacts(r, e);
    var v := r.sym[e].orig;
    var s := r.star[v];
    StarMembers(r, {}, v);
    var i := StarIndex(r, {}, r.sym[e]);
    var j := StarIndex(r, {}, r.next[e]);
    forall f | f in r.sym && f.orig == v ensures f == r.sym[e] || f == r.next[e] {
      var k := StarIndex(r, {}, f);
    }
  }

  // A chain: each edge is next of the one before, through a vertex of degree 2, and no
  // segment is used twice in either direction.
  ghost predicate Chain(r: Rotation, es: seq<HalfEdge>)
    requires Paired(r)
  {
    && |es| > 0
    && (forall i :: 0 <= i < |es| ==> es[i] in r.sym)
    && (forall i {:trigger r.next[es[i]]} :: 0 <= i < |es| - 1 ==> Passes(r, es[i]) && r.next[es[i]] == es[i + 1])
    && (forall i, j :: 0 <= i < j < |es| ==> es[i] != es[j] && es[i] != r.sym[es[j]])
  }

  // The edges of a chain in both directions.
  ghost function Both(r: Rotation, es: seq<HalfEdge>): set<HalfEdge>
    requires Paired(r)
  {
    set f | f in r.sym && (f in es || r.sym[f] in es)
  }

  ghost predicate SymClosed(r: Rotation, c: set<HalfEdge>)
    requires Paired(r)
  {
    c <= r.sym.Keys && forall e {:trigger r.sym[e]} :: e in c ==> r.sym[e] in c
  }

  // The walk goes on from e within c.
  ghost predicate GoesOn(r: Rotation, e: HalfEdge, c: set<HalfEdge>) {
    e in r.next && r.next[e] in c
  }

  // Marks come in pairs and are closed along chains.
  ghost predicate Closed(r: Rotation, marked: set<HalfEdge>)
    requires Paired(r)
  {
    && SymClosed(r, marked)
    && (forall e {:trigger GoesOn(r, e, marked)} :: e in marked && Passes(r, e) ==> GoesOn(r, e, marked))
  }

  // Closure along a chain goes both ways.
  lemma ClosedBackward(r: Rotation, marked: set<HalfEdge>, e: HalfEdge)
    requires Good(r) && Closed(r, marked) && e in r.sym && Passes(r, e) && r.next[e] in marked
    ensures e in marked
  {
    EdgeFacts(r, e);
    TwoEdges(r, e);
    var n := r.next[e];
    EdgeFacts(r, n);
    assert r.sym[n] in marked && Passes(r, r.sym[n]);
    assert GoesOn(r, r.sym[n], marked);
    assert r.sym[r.sym[e]] in marked;
  }

  lemma NextDistinct(r: Rotation, e: HalfEdge, f: HalfEdge)
    requires Good(r) && e in r.sym && f in r.sym && e != f
    ensures r.next[e] != r.next[f]
  {
    if r.next[e] == r.next[f] { NextInjective(r, e, f); }
  }

  // The next edge of a chain is not an earlier edge of it.
  lemma NotAgain(r: Rotation, es: seq<HalfEdge>, i: nat)
    requires Good(r) && Chain(r, es) && 0 < i < |es|
    ensures es[i] != r.next[es[|es| - 1]]
  {
    assert r.next[es[i - 1]] == es[i];
    NextDistinct(r, es[i - 1], es[|es| - 1]);
  }

  // Nor is it an earlier edge reversed.
  lemma NotBack(r: Rotation, es: seq<HalfEdge>, i: nat)
    requires Good(r) && Chain(r, es) && i < |es| && Passes(r, es[|es| - 1])
    ensures r.next[es[|es| - 1]] in r.sym && es[i] != r.sym[r.next[es[|es| - 1]]]
  {
    hide Good;
    var last := |es| - 1;
    var e := es[last];
    EdgeFacts(r, e);
    var n := r.next[e];
    EdgeFacts(r, n);
    EdgeFacts(r, es[i]);
    TwoEdges(r, e);
    if i < last {
      assert r.next[es[i]] == es[i + 1];
      NextDistinct(r, es[i], e);
      assert es[i + 1] != r.sym[e];
    }
  }

  /** Walking on from an unmarked chain meets only new edges, until it is back at its start. */
  lemma ChainExtends(r: Rotation, marked: set<HalfEdge>, es: seq<HalfEdge>)
    requires Good(r) && Closed(r, marked) && Chain(r, es)
    requires forall e :: e in es ==> e !in marked
    requires Passes(r, es[|es| - 1]) && r.next[es[|es| - 1]] != es[0]
    ensures Chain(r, es + [r.next[es[|es| - 1]]])
    ensures r.next[es[|es| - 1]] !in marked
  {
    var e, n := es[|es| - 1], r.next[es[|es| - 1]];
    EdgeFacts(r, e);
    assert e in es;
    if n in marked { ClosedBackward(r, marked, e); }
    forall i | 0 <= i < |es| ensures es[i] != n && es[i] != r.sym[n] {
      if i > 0 { NotAgain(r, es, i); }
      NotBack(r, es, i);
    }
    ChainAppend(r, es, n);
  }

  lemma ChainAppend(r: Rotation, es: seq<HalfEdge>, n: HalfEdge)
    requires Paired(r) && Chain(r, es) && n in r.sym
    requires Passes(r, es[|es| - 1]) && r.next[es[|es| - 1]] == n
    requires forall i :: 0 <= i < |es| ==> es[i] != n && es[i] != r.sym[n]
    ensures Chain(r, es + [n])
  {
    var t := es + [n];
    forall i | 0 <= i < |t| - 1 ensures Passes(r, t[i]) && r.next[t[i]] == t[i + 1] {
      if i < |es| - 1 { assert r.next[es[i]] == es[i + 1]; }
    }
  }

  // ---- Finished lines: between two nodes, or once around an isolated ring

  // A chain that cannot be made longer: both ends are at nodes.
  ghost predicate NodeLine(r: Rotation, es: seq<HalfEdge>)
    requires Paired(r)
  {
    Chain(r, es) && DegreeAt(r, es[0].orig) != 2 && !Passes(r, es[|es| - 1])
  }

  // A chain that returns to its start, all its vertices having degree 2.
  ghost predicate RingLine(r: Rotation, es: seq<HalfEdge>)
    requires Paired(r)
  {
    Chain(r, es) && Passes(r, es[|es| - 1]) && r.next[es[|es| - 1]] == es[0]
  }

  // One line's edges are new: none is in the marked set, in either direction.
  lemma BothNew(r: Rotation, marked: set<HalfEdge>, es: seq<HalfEdge>)
    requires Paired(r) && Closed(r, marked) && forall e :: e in es ==> e in r.sym && e !in marked
    ensures Both(r, es) !! marked
  {
  }

  lemma BothPaired(r: Rotation, es: seq<HalfEdge>)
    requires Paired(r)
    ensures SymClosed(r, Both(r, es))
  {
  }

  // next of the reverse of an inner edge of a chain is the reverse of the edge before.
  lemma ChainReversed(r: Rotation, es: seq<HalfEdge>, i: nat)
    requires Good(r) && Chain(r, es) && 0 < i < |es|
    ensures r.sym[es[i]] in r.sym && r.next[r.sym[es[i]]] == r.sym[es[i - 1]]
  {
    assert r.next[es[i - 1]] == es[i];
    TwoEdges(r, es[i - 1]);
  }

  lemma ChainNextForward(r: Rotation, es: seq<HalfEdge>, i: nat)
    requires Paired(r) && Chain(r, es) && i < |es| - 1
    ensures r.next[es[i]] in Both(r, es)
  {
    assert r.next[es[i]] == es[i + 1];
    assert es[i + 1] in es;
  }

  lemma ChainNextBack(r: Rotation, es: seq<HalfEdge>, i: nat)
    requires Paired(r) && Good(r) && Chain(r, es) && 0 < i < |es|
    ensures r.next[r.sym[es[i]]] in Both(r, es)
  {
    ChainReversed(r, es, i);
    hide Good;
    EdgeFacts(r, es[i - 1]);
    assert es[i - 1] in es;
  }

  // Where next leads from an edge of a chain, in either direction, if the walk passes on.
  lemma ChainNext(r: Rotation, es: seq<HalfEdge>, f: HalfEdge)
    requires Good(r) && Chain(r, es) && f in Both(r, es) && Passes(r, f)
    requires r.next[f] in r.sym
    ensures r.next[f] in Both(r, es)
         || (f == es[|es| - 1] && Passes(r, es[|es| - 1]))
         || (f == r.sym[es[0]] && DegreeAt(r, es[0].orig) == 2)
  {
    EdgeFacts(r, f);
    var i := BothIndex(r, es, f);
    PassesIs(r, f);
    hide *;
    if es[i] == f {
      if i < |es| - 1 { ChainNextForward(r, es, i); }
    } else {
      if i > 0 { ChainNextBack(r, es, i); }
    }
  }

  lemma PassesIs(r: Rotation, e: HalfEdge)
    requires e in r.sym && r.sym[e] in r.sym
    ensures Passes(r, e) <==> DegreeAt(r, r.sym[e].orig) == 2
  {
  }

  // Where an edge of a chain is, in one direction or the other.
  lemma BothIndex(r: Rotation, es: seq<HalfEdge>, f: HalfEdge) returns (i: nat)
    requires Paired(r) && f in Both(r, es)
    ensures i < |es| && f in r.sym && (es[i] == f || es[i] == r.sym[f])
  {
    if f in es {
      i :| 0 <= i < |es| && es[i] == f;
    } else {
      i :| 0 <= i < |es| && es[i] == r.sym[f];
    }
  }

  /** Marking a line between nodes keeps the marks closed. */
  lemma MarkNodeLine(r: Rotation, marked: set<HalfEdge>, es: seq<HalfEdge>)
    requires Good(r) && Closed(r, marked) && NodeLine(r, es)
    ensures Closed(r, marked + Both(r, es))
  {
    forall f | f in marked + Both(r, es) && Passes(r, f) ensures GoesOn(r, f, marked + Both(r, es)) {
      if f in marked {
        assert GoesOn(r, f, marked);
      } else {
        EdgeFacts(r, f);
        ChainNext(r, es, f);
      }
    }
    BothPaired(r, es);
  }

  lemma RingNext(r: Rotation, es: seq<HalfEdge>, f: HalfEdge)
    requires Good(r) && RingLine(r, es) && f in Both(r, es)
    ensures r.next[f] in Both(r, es) && Passes(r, f)
  {
    var last := |es| - 1;
    EdgeFacts(r, es[last]);
    EdgeFacts(r, es[0]);
    TwoEdges(r, es[last]);
    assert es[0] in es && es[last] in es;
    if f in es {
      var i :| 0 <= i < |es| && es[i] == f;
      if i < last { assert r.next[es[i]] == es[i + 1]; }
      EdgeFacts(r, f);
    } else {
      var i :| 0 <= i < |es| && es[i] == r.sym[f];
      EdgeFacts(r, f);
      if i > 0 {
        assert r.next[es[i - 1]] == es[i];
        NextContinues(r, es[i - 1]);
      }
    }
    ChainNext(r, es, f);
  }

  /** Marking an isolated ring keeps the marks closed. */
  lemma MarkRingLine(r: Rotation, marked: set<HalfEdge>, es: seq<HalfEdge>)
    requires Good(r) && Closed(r, marked) && RingLine(r, es)
    ensures Closed(r, marked + Both(r, es))
  {
    RingNextClosed(r, es);
    BothPaired(r, es);
    var b := Both(r, es);
    forall f | f in marked + b && Passes(r, f) ensures GoesOn(r, f, marked + b) {
      if f in marked {
        assert GoesOn(r, f, marked);
      } else {
        assert GoesOn(r, f, b);
      }
    }
  }

  ghost predicate NextClosed(r: Rotation, c: set<HalfEdge>)
    requires Paired(r)
  {
    c <= r.sym.Keys && forall f {:trigger GoesOn(r, f, c)} :: f in c ==> GoesOn(r, f, c)
  }

  // A set closed under next that holds one edge of a ring holds them all.
  lemma {:induction false} RingSpreads(r: Rotation, es: seq<HalfEdge>, c: set<HalfEdge>, i: nat, j: nat)
    requires Paired(r) && Chain(r, es) && i <= j < |es| && es[i] in c && NextClosed(r, c)
    ensures es[j] in c
    decreases j - i
  {
    if i < j {
      assert GoesOn(r, es[i], c) && r.next[es[i]] == es[i + 1];
      RingSpreads(r, es, c, i + 1, j);
    }
  }

  lemma RingInside(r: Rotation, es: seq<HalfEdge>, c: set<HalfEdge>, e: HalfEdge)
    requires Paired(r) && RingLine(r, es) && e in es && e in c && NextClosed(r, c)
    ensures forall f :: f in es ==> f in c
  {
    hide NextClosed;
    var i :| 0 <= i < |es| && es[i] == e;
    RingSpreads(r, es, c, i, |es| - 1);
    RingWraps(r, es, c);
    forall f | f in es ensures f in c {
      var j :| 0 <= j < |es| && es[j] == f;
      RingSpreads(r, es, c, 0, j);
    }
  }

  lemma RingWraps(r: Rotation, es: seq<HalfEdge>, c: set<HalfEdge>)
    requires Paired(r) && RingLine(r, es) && es[|es| - 1] in c && NextClosed(r, c)
    ensures es[0] in c
  {
    assert GoesOn(r, es[|es| - 1], c);
  }

  lemma RingNextClosed(r: Rotation, es: seq<HalfEdge>)
    requires Paired(r) && Good(r) && RingLine(r, es)
    ensures NextClosed(r, Both(r, es))
  {
    hide Good;
    hide RingLine;
    forall f | f in Both(r, es) ensures GoesOn(r, f, Both(r, es)) { RingNext(r, es, f); }
  }

  // A set closed under next and sym that holds one edge of a ring holds the ring's edges.
  lemma RingWithin(r: Rotation, es: seq<HalfEdge>, c: set<HalfEdge>, e: HalfEdge)
    requires Paired(r) && RingLine(r, es) && e in es && e in c && NextClosed(r, c) && SymClosed(r, c)
    ensures Both(r, es) <= c
  {
    hide *;
    RingInside(r, es, c, e);
    BothWithin(r, es, c);
  }

  lemma BothWithin(r: Rotation, es: seq<HalfEdge>, c: set<HalfEdge>)
    requires Paired(r) && SymClosed(r, c) && forall f :: f in es ==> f in c
    ensures Both(r, es) <= c
  {
    forall f | f in Both(r, es) ensures f in c {
      if f !in es { assert r.sym[r.sym[f]] == f; }
    }
  }

  lemma RingMember(r: Rotation, es: seq<HalfEdge>)
    requires Paired(r) && RingLine(r, es)
    ensures |es| > 0 && es[0] in es && es[0] in Both(r, es)
  {
  }

  lemma BothOneWay(r: Rotation, es: seq<HalfEdge>, f: HalfEdge) returns (e: HalfEdge)
    requires Paired(r) && f in Both(r, es)
    ensures e in es && f in r.sym && (e == f || e == r.sym[f])
  {
    e := if f in es then f else r.sym[f];
  }

  lemma SharedEdge(r: Rotation, es: seq<HalfEdge>, fs: seq<HalfEdge>) returns (e: HalfEdge)
    requires Paired(r) && RingLine(r, fs) && fs[0] in Both(r, es)
    ensures fs[0] in fs && e in es && e in Both(r, fs)
  {
    RingMember(r, fs);
    e := BothOneWay(r, es, fs[0]);
    BothPaired(r, fs);
  }

  // A ring that shares an edge with another uses only that ring's edges.
  lemma RingInRing(r: Rotation, es: seq<HalfEdge>, fs: seq<HalfEdge>, e: HalfEdge)
    requires Paired(r) && RingLine(r, es) && Good(r) && RingLine(r, fs) && e in es && e in Both(r, fs)
    ensures Both(r, es) <= Both(r, fs)
  {
    hide *;
    RingNextClosed(r, fs);
    BothPaired(r, fs);
    RingWithin(r, es, Both(r, fs), e);
  }

  /** Walking an isolated ring from any of its edges, either way, uses the same segments. */
  lemma SameRing(r: Rotation, es: seq<HalfEdge>, fs: seq<HalfEdge>)
    requires Paired(r) && Good(r) && RingLine(r, es) && RingLine(r, fs) && |fs| > 0 && fs[0] in Both(r, es)
    ensures Both(r, fs) == Both(r, es)
  {
    hide *;
    var e := SharedEdge(r, es, fs);
    RingInRing(r, fs, es, fs[0]);
    RingInRing(r, es, fs, e);
  }
}
