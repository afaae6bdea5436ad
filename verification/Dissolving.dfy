/**
 How dissolving proceeds: what the marks and the stack keep, how a walk back finds a
 node or an isolated ring, and why every isolated ring holds a start edge.
 */
module Dissolving {
  import opened Planar
  import opened HalfEdges
  import opened RotationSystems
  import opened Chains

  // ---- Marks and stack

  // The set holds all or none of the edges at each node, that is, vertex whose degree is not 2.
  ghost predicate NodeClosed(r: Rotation, w: set<HalfEdge>) {
    forall f, g :: f in w && g in r.sym && g.orig == f.orig && DegreeAt(r, f.orig) != 2 ==> g in w
  }

  // The set holds all or none of the edges at each vertex.
  ghost predicate StarClosed(r: Rotation, w: set<HalfEdge>) {
    forall f, g :: f in w && g in r.sym && g.orig == f.orig ==> g in w
  }

  ghost function EdgesAt(r: Rotation, v: Point): set<HalfEdge> {
    set g | g in r.sym && g.orig == v
  }

  // The other edge at a vertex of degree 2 is where the walk into the vertex goes on.
  lemma Partner(r: Rotation, f: HalfEdge, g: HalfEdge)
    requires Good(r) && Paired(r) && f in r.sym && g in r.sym && g.orig == f.orig && DegreeAt(r, f.orig) == 2
    ensures Passes(r, r.sym[f]) && (g == f || g == r.next[r.sym[f]])
  {
    hide Good;
    assert r.sym[f] in r.sym && r.sym[r.sym[f]] == f;
    TwoEdges(r, r.sym[f]);
  }

  /** Marks closed at nodes and along chains are closed at every vertex. */
  lemma ClosedAtVertices(r: Rotation, marked: set<HalfEdge>)
    requires Good(r) && Paired(r) && Closed(r, marked) && NodeClosed(r, marked)
    ensures StarClosed(r, marked)
  {
    hide Good;
    hide Passes;
    forall f, g | f in marked && g in r.sym && g.orig == f.orig ensures g in marked {
      if DegreeAt(r, f.orig) == 2 {
        Partner(r, f, g);
        assert GoesOn(r, r.sym[f], marked);
      }
    }
  }

  /** Marks closed at every vertex that reach all vertices are all the edges. */
  lemma EverythingMarked(r: Rotation, marked: set<HalfEdge>)
    requires Good(r) && marked <= r.sym.Keys && StarClosed(r, marked)
    requires forall v :: v in r.star ==> |r.star[v]| > 0 && r.star[v][0] in marked
    ensures marked == r.sym.Keys
  {
    forall e | e in r.sym ensures e in marked {
      var v := e.orig;
      assert v in r.star && StarOf(r, v);
      assert r.star[v][0] in r.star[v];
    }
  }

  // ---- Isolated rings

  // Edges of isolated rings: the walk never leaves them and meets no node.
  ghost predicate RingSet(r: Rotation, c: set<HalfEdge>)
    requires Paired(r)
  {
    NextClosed(r, c) && SymClosed(r, c) && forall e {:trigger Passes(r, e)} :: e in c ==> Passes(r, e)
  }

  lemma RingSetDegree(r: Rotation, c: set<HalfEdge>, e: HalfEdge)
    requires Paired(r) && RingSet(r, c) && e in c
    ensures DegreeAt(r, e.orig) == 2
  {
    assert Passes(r, r.sym[e]);
  }

  lemma RingSetPartner(r: Rotation, c: set<HalfEdge>, f: HalfEdge, g: HalfEdge)
    requires Good(r) && Paired(r) && RingSet(r, c) && f in c && g in r.sym && g.orig == f.orig
    ensures g in c
  {
    hide *;
    RingSetNext(r, c, f);
    Partner(r, f, g);
  }

  lemma RingSetNext(r: Rotation, c: set<HalfEdge>, f: HalfEdge)
    requires Paired(r) && RingSet(r, c) && f in c
    ensures f in r.sym && r.sym[f] in r.next && r.next[r.sym[f]] in c && DegreeAt(r, f.orig) == 2
  {
    assert GoesOn(r, r.sym[f], c);
    RingSetDegree(r, c, f);
  }

  lemma RingSetStarClosed(r: Rotation, c: set<HalfEdge>)
    requires Good(r) && Paired(r) && RingSet(r, c)
    ensures StarClosed(r, c)
  {
    hide Good;
    hide Paired;
    hide RingSet;
    forall f, g | f in c && g in r.sym && g.orig == f.orig ensures g in c {
      RingSetPartner(r, c, f, g);
    }
  }

  lemma RingLineSet(r: Rotation, es: seq<HalfEdge>)
    requires Good(r) && Paired(r) && RingLine(r, es)
    ensures RingSet(r, Both(r, es))
  {
    hide Good;
    RingNextClosed(r, es);
    BothPaired(r, es);
    hide Chain;
    forall e | e in Both(r, es) ensures Passes(r, e) {
      RingNext(r, es, e);
    }
  }

  // A chain that starts in an isolated ring does not end at a node.
  lemma ChainStaysInRing(r: Rotation, c: set<HalfEdge>, es: seq<HalfEdge>)
    requires Paired(r) && RingSet(r, c) && Chain(r, es) && es[0] in c
    ensures Passes(r, es[|es| - 1])
  {
    hide Passes;
    hide SymClosed;
    RingSpreads(r, es, c, 0, |es| - 1);
  }

  // ---- Walking back to a node

  // Backwards along next through vertices of degree 2, never the same edge twice.
  // The walk along e leads to f, where nothing else meets.
  ghost predicate LeadsTo(r: Rotation, e: HalfEdge, f: HalfEdge) {
    e in r.next && r.next[e] == f && DegreeAt(r, f.orig) == 2
  }

  ghost predicate BackWalk(r: Rotation, ps: seq<HalfEdge>)
    requires Paired(r)
  {
    && |ps| > 0
    && (forall i :: 0 <= i < |ps| ==> ps[i] in r.sym)
    && (forall i :: 0 < i < |ps| ==> LeadsTo(r, ps[i], ps[i - 1]))
    && (forall i, j :: 0 <= i < j < |ps| ==> ps[i] != ps[j])
  }

  lemma BackExtends(r: Rotation, ps: seq<HalfEdge>, p: HalfEdge)
    requires Paired(r) && BackWalk(r, ps) && DegreeAt(r, ps[|ps| - 1].orig) == 2
    requires p in r.sym && r.next[p] == ps[|ps| - 1] && p != ps[0]
    ensures BackWalk(r, ps + [p])
  {
    var t := ps + [p];
    forall j | 0 <= j < |ps| ensures ps[j] != p {
      if j > 0 { assert LeadsTo(r, ps[j], ps[j - 1]); }
    }
    forall i | 0 < i < |t| ensures LeadsTo(r, t[i], t[i - 1]) {
      if i < |ps| { assert LeadsTo(r, ps[i], ps[i - 1]); }
    }
  }

  // The two edges at a vertex of degree 2 that p enters and e leaves.
  lemma TurnBack(r: Rotation, p: HalfEdge, e: HalfEdge)
    requires Paired(r) && Good(r) && p in r.sym && e in r.sym && r.next[p] == e && DegreeAt(r, e.orig) == 2
    ensures Passes(r, p) && r.next[r.sym[e]] == r.sym[p] && Passes(r, r.sym[e])
  {
    EdgeFacts(r, p);
    TwoEdges(r, p);
  }

  // The edge met after ps[i] when a walk back has come full circle.
  ghost function Behind(ps: seq<HalfEdge>, i: nat): HalfEdge
    requires i < |ps|
  {
    if i < |ps| - 1 then ps[i + 1] else ps[0]
  }

  ghost predicate BackCircle(r: Rotation, ps: seq<HalfEdge>)
    requires Paired(r)
  {
    BackWalk(r, ps) && DegreeAt(r, ps[|ps| - 1].orig) == 2 && r.next[ps[0]] == ps[|ps| - 1]
  }

  lemma CircleTurn(r: Rotation, ps: seq<HalfEdge>, i: nat)
    requires Paired(r) && Good(r) && BackCircle(r, ps) && i < |ps|
    ensures var p := Behind(ps, i);
      && p in ps && p in r.sym && r.next[p] == ps[i] && Passes(r, p)
      && r.next[r.sym[ps[i]]] == r.sym[p] && Passes(r, r.sym[ps[i]])
  {
    var p := Behind(ps, i);
    if i < |ps| - 1 { assert LeadsTo(r, ps[i + 1], ps[i]); }
    TurnBack(r, p, ps[i]);
  }

  // Each edge of the circle is behind another one.
  lemma BehindOnto(ps: seq<HalfEdge>, i: nat) returns (j: nat)
    requires i < |ps|
    ensures j < |ps| && Behind(ps, j) == ps[i]
  {
    j := if i > 0 then i - 1 else |ps| - 1;
  }

  lemma CircleEdge(r: Rotation, ps: seq<HalfEdge>, f: HalfEdge)
    requires Paired(r) && Good(r) && BackCircle(r, ps) && f in Both(r, ps)
    ensures f in r.next && r.next[f] in Both(r, ps) && Passes(r, f)
  {
    hide Good;
    if f in ps {
      var i :| 0 <= i < |ps| && ps[i] == f;
      var j := BehindOnto(ps, i);
      CircleTurn(r, ps, j);
      assert ps[j] in ps;
    } else {
      var i :| 0 <= i < |ps| && ps[i] == r.sym[f];
      assert r.sym[r.sym[f]] == f;
      CircleTurn(r, ps, i);
      assert r.sym[r.sym[Behind(ps, i)]] in ps;
    }
  }

  lemma CircleEdges(r: Rotation, ps: seq<HalfEdge>, c: set<HalfEdge>)
    requires Paired(r) && Good(r) && BackCircle(r, ps) && c == Both(r, ps)
    ensures NextClosed(r, c) && forall f :: f in c ==> Passes(r, f)
  {
    hide Good;
    hide BackCircle;
    hide Passes;
    hide Paired;
    forall f | f in c ensures GoesOn(r, f, c) && Passes(r, f) {
      CircleEdge(r, ps, f);
    }
  }

  /** A walk back that returns to its first edge has been around an isolated ring. */
  lemma CircleIsRing(r: Rotation, ps: seq<HalfEdge>)
    requires Paired(r) && Good(r) && BackCircle(r, ps)
    ensures RingSet(r, Both(r, ps)) && ps[0] in Both(r, ps)
  {
    assert ps[0] in ps;
    hide Good;
    hide Passes;
    hide NextClosed;
    CircleEdges(r, ps, Both(r, ps));
    BothPaired(r, ps);
  }

  /** Marking the node edge that a walk back ends with marks the edge it began with. */
  lemma {:induction false} BackMarked(r: Rotation, ps: seq<HalfEdge>, marked: set<HalfEdge>, i: nat)
    requires Good(r) && Paired(r) && BackWalk(r, ps) && Closed(r, marked) && i < |ps| && ps[i] in marked
    ensures ps[0] in marked
  {
    if i > 0 {
      assert LeadsTo(r, ps[i], ps[i - 1]);
      TurnBack(r, ps[i], ps[i - 1]);
      assert GoesOn(r, ps[i], marked);
      BackMarked(r, ps, marked, i - 1);
    }
  }

  // ---- Start edges

  ghost predicate Touches(r: Rotation, f: HalfEdge, e: HalfEdge)
    requires e in r.sym
  {
    f.orig == e.orig || f.orig == r.sym[e].orig
  }

  // Every edge is a start edge, or its opposite is, or it touches an edge listed before it.
  ghost predicate Anchored(r: Rotation, edges: seq<HalfEdge>, starts: set<HalfEdge>) {
    forall k {:trigger edges[k]} :: 0 <= k < |edges| ==>
      edges[k] in r.sym && (edges[k] in starts || r.sym[edges[k]] in starts || TouchesEarlier(r, edges, k))
  }

  ghost predicate TouchesEarlier(r: Rotation, edges: seq<HalfEdge>, k: nat)
    requires k < |edges| && edges[k] in r.sym
  {
    exists j :: 0 <= j < k && Touches(r, edges[j], edges[k])
  }

  /** Any set of edges closed at vertices and under sym holds a start edge. */
  lemma {:induction false} StartInside(r: Rotation, edges: seq<HalfEdge>, starts: set<HalfEdge>, c: set<HalfEdge>,
                                       k: nat)
    requires Paired(r) && Anchored(r, edges, starts) && SymClosed(r, c) && StarClosed(r, c)
    requires k < |edges| && edges[k] in c
    ensures starts * c != {}
  {
    var e := edges[k];
    if e in starts {
      assert e in starts * c;
    } else if r.sym[e] in starts {
      assert r.sym[e] in starts * c;
    } else {
      var j :| 0 <= j < k && Touches(r, edges[j], e);
      assert r.sym[e] in c;
      assert edges[j] in r.sym;
      StartInside(r, edges, starts, c, j);
    }
  }

  // The half-edge of e that counts as a start edge, if one does.
  ghost function StartOf(r: Rotation, starts: set<HalfEdge>, e: HalfEdge): HalfEdge
    requires e in r.sym
  {
    if e in starts then e else r.sym[e]
  }

  // s is the start edge with the least origin along es, null when there is none.
  ghost predicate BestStart(r: Rotation, starts: set<HalfEdge>, es: seq<HalfEdge>, s: HalfEdge?)
  {
    && Paired(r) && (forall e :: e in es ==> e in r.sym)
    && (s == null ==> forall e :: e in es ==> StartOf(r, starts, e) !in starts)
    && (s != null ==>
         && s in starts && s in Both(r, es)
         && forall e ::
           e in es && StartOf(r, starts, e) in starts ==> CompareTo(s.orig, StartOf(r, starts, e).orig) <= 0)
  }

  lemma RingHasStart(r: Rotation, edges: seq<HalfEdge>, starts: set<HalfEdge>, es: seq<HalfEdge>)
    requires Good(r) && Paired(r) && Anchored(r, edges, starts) && (forall e :: e in r.sym ==> e in edges)
    requires RingLine(r, es)
    ensures exists e :: e in es && e in r.sym && StartOf(r, starts, e) in starts
  {
    RingMember(r, es);
    assert es[0] in r.sym;
    var k :| 0 <= k < |edges| && edges[k] == es[0];
    RingStartSet(r, edges, starts, es, k);
    var s :| s in starts * Both(r, es);
    hide *;
    StartFromBoth(r, starts, es, s);
  }

  lemma RingStartSet(r: Rotation, edges: seq<HalfEdge>, starts: set<HalfEdge>, es: seq<HalfEdge>, k: nat)
    requires Good(r) && Paired(r) && Anchored(r, edges, starts) && RingLine(r, es)
    requires k < |edges| && edges[k] in Both(r, es)
    ensures starts * Both(r, es) != {}
  {
    hide *;
    RingLineSet(r, es);
    RingSetStarClosed(r, Both(r, es));
    BothPaired(r, es);
    StartInside(r, edges, starts, Both(r, es), k);
  }

  lemma StartFromBoth(r: Rotation, starts: set<HalfEdge>, es: seq<HalfEdge>, s: HalfEdge)
    requires Paired(r) && s in starts * Both(r, es)
    ensures exists e :: e in es && e in r.sym && StartOf(r, starts, e) in starts
  {
    var e := BothOneWay(r, es, s);
    assert r.sym[r.sym[s]] == s;
    assert e in r.sym && StartOf(r, starts, e) in starts;
  }

  // ---- Finishing a line

  // An inner vertex of a chain has degree 2.
  lemma InnerDegree(r: Rotation, es: seq<HalfEdge>, i: nat)
    requires Good(r) && Paired(r) && Chain(r, es) && i < |es|
    ensures i > 0 ==> DegreeAt(r, es[i].orig) == 2
    ensures i < |es| - 1 ==> DegreeAt(r, r.sym[es[i]].orig) == 2
  {
    hide Good;
    if i > 0 {
      assert r.next[es[i - 1]] == es[i] && Passes(r, es[i - 1]);
      EdgeFacts(r, es[i - 1]);
    }
    if i < |es| - 1 {
      assert r.next[es[i]] == es[i + 1] && Passes(r, es[i]);
    }
  }

  // Where the edges of a chain, taken either way, start: inside it the degree is 2.
  lemma NodeLineOrigins(r: Rotation, es: seq<HalfEdge>, f: HalfEdge)
    requires Good(r) && Paired(r) && Chain(r, es) && f in Both(r, es) && DegreeAt(r, f.orig) != 2
    ensures f == es[0] || f == r.sym[es[|es| - 1]]
  {
    hide Good;
    if f in es {
      var i :| 0 <= i < |es| && es[i] == f;
      InnerDegree(r, es, i);
    } else {
      var i :| 0 <= i < |es| && es[i] == r.sym[f];
      assert r.sym[r.sym[f]] == f;
      InnerDegree(r, es, i);
    }
  }

  lemma UnionNodeClosed(r: Rotation, w: set<HalfEdge>, b: set<HalfEdge>, v: Point)
    requires NodeClosed(r, w)
    requires forall f :: f in b && DegreeAt(r, f.orig) != 2 ==> f in w || (f in r.sym && f.orig == v)
    ensures NodeClosed(r, w + b + EdgesAt(r, v))
  {
    hide DegreeAt;
  }

  /** Marks and stack stay closed at nodes when a line is done and its far end stacked. */
  lemma NodeLineClosed(r: Rotation, w: set<HalfEdge>, es: seq<HalfEdge>)
    requires Good(r) && Paired(r) && NodeClosed(r, w) && Chain(r, es) && es[0] in w
    ensures NodeClosed(r, w + Both(r, es) + EdgesAt(r, r.sym[es[|es| - 1]].orig))
  {
    hide Good;
    hide NodeClosed;
    hide DegreeAt;
    forall f | f in Both(r, es) && DegreeAt(r, f.orig) != 2
      ensures f in w || (f in r.sym && f.orig == r.sym[es[|es| - 1]].orig)
    {
      NodeLineOrigins(r, es, f);
    }
    UnionNodeClosed(r, w, Both(r, es), r.sym[es[|es| - 1]].orig);
  }

  lemma RingLineClosed(r: Rotation, w: set<HalfEdge>, es: seq<HalfEdge>)
    requires Good(r) && Paired(r) && NodeClosed(r, w) && RingLine(r, es)
    ensures NodeClosed(r, w + Both(r, es))
  {
    RingLineSet(r, es);
    hide Good;
    hide RingLine;
    forall f | f in Both(r, es) ensures DegreeAt(r, f.orig) == 2 {
      RingSetDegree(r, Both(r, es), f);
    }
  }
}
