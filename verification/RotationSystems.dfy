/**
 The half-edge structure as a value: a rotation system.

 `sym` pairs the half-edges, `next` chains them, and `star` lists the half-edges
 leaving each vertex in the order `next` visits them.  A pending half-edge has been
 created but not yet put into the star of its vertex.
 */
module RotationSystems {
  import opened Planar
  import opened DirectionRings
  import opened HalfEdges

  datatype Rotation = Rotation(sym: map<HalfEdge, HalfEdge>, next: map<HalfEdge, HalfEdge>,
                               star: map<Point, seq<HalfEdge>>)

  // sym is a fixed-point-free involution and no edge returns to its origin.
  ghost predicate Paired(r: Rotation) {
    && r.next.Keys == r.sym.Keys
    && (forall e {:trigger r.sym[e]} :: e in r.sym ==> r.sym[e] in r.sym && r.sym[e] != e && r.sym[e].orig != e.orig)
    && (forall e {:trigger r.sym[r.sym[e]]} :: e in r.sym ==> r.sym[r.sym[e]] == e)
  }

  ghost predicate Distinct(s: seq<HalfEdge>) {
    forall i, j :: 0 <= i < j < |s| ==> s[i] != s[j]
  }

  // The oNext ring of vertex v is its star.
  ghost predicate StarOf(r: Rotation, v: Point)
    requires Paired(r) && v in r.star
  {
    var s := r.star[v];
    && |s| > 0 && Distinct(s)
    && (forall e :: e in s ==> e in r.sym && e.orig == v)
    && (forall i {:trigger r.next[r.sym[s[i]]]} :: 0 <= i < |s| ==> r.next[r.sym[s[i]]] == Succ(s, i))
  }

  // Every edge is in the star of its origin, except the pending ones, which are alone.
  ghost predicate Covered(r: Rotation, pending: set<HalfEdge>)
    requires Paired(r)
  {
    && pending <= r.sym.Keys
    && (forall v, e :: v in r.star && e in r.star[v] ==> e !in pending)
    && (forall e :: e in r.sym && e !in pending ==> e.orig in r.star && e in r.star[e.orig])
    && (forall e :: e in pending ==> r.next[r.sym[e]] == e)
  }

  // At most one edge per ordered pair of points.
  ghost predicate NoParallels(r: Rotation)
    requires Paired(r)
  {
    forall e, f {:trigger Parallel(r, e, f)} :: e in r.sym && f in r.sym && Parallel(r, e, f) ==> e == f
  }

  predicate Parallel(r: Rotation, e: HalfEdge, f: HalfEdge)
    requires e in r.sym && f in r.sym
  {
    e.orig == f.orig && r.sym[e].orig == r.sym[f].orig
  }

  ghost predicate System(r: Rotation, pending: set<HalfEdge>) {
    && Paired(r)
    && (forall v :: v in r.star ==> StarOf(r, v))
    && Covered(r, pending)
    && NoParallels(r)
  }

  lemma StarMembers(r: Rotation, pending: set<HalfEdge>, v: Point)
    requires System(r, pending) && v in r.star
    ensures Paired(r) && pending <= r.sym.Keys && StarOf(r, v)
    ensures forall e :: e in r.star[v] ==> e in r.sym && e.orig == v && e !in pending
  {
  }

  // ---- next is a permutation

  lemma StarIndex(r: Rotation, pending: set<HalfEdge>, e: HalfEdge) returns (i: nat)
    requires System(r, pending) && e in r.sym && e !in pending
    ensures e.orig in r.star && i < |r.star[e.orig]| && r.star[e.orig][i] == e
    ensures r.next[r.sym[e]] == Succ(r.star[e.orig], i)
  {
    var s := r.star[e.orig];
    assert StarOf(r, e.orig);
    i :| 0 <= i < |s| && s[i] == e;
  }

  /** next stays among the edges and continues at the vertex where the edge ends. */
  lemma NextContinues(r: Rotation, e: HalfEdge)
    requires System(r, {}) && e in r.sym
    ensures r.next[e] in r.sym && r.next[e].orig == r.sym[e].orig
  {
    var i := StarIndex(r, {}, r.sym[e]);
    assert StarOf(r, r.sym[e].orig);
    assert Succ(r.star[r.sym[e].orig], i) in r.star[r.sym[e].orig];
  }

  /** next is injective. */
  lemma NextInjective(r: Rotation, e: HalfEdge, f: HalfEdge)
    requires System(r, {}) && e in r.sym && f in r.sym && r.next[e] == r.next[f]
    ensures e == f
  {
    NextContinues(r, e);
    NextContinues(r, f);
    var i := StarIndex(r, {}, r.sym[e]);
    var j := StarIndex(r, {}, r.sym[f]);
    assert StarOf(r, r.sym[e].orig);
    SuccInjective(r.star[r.sym[e].orig], i, j);
  }

  lemma SuccInjective(s: seq<HalfEdge>, i: nat, j: nat)
    requires Distinct(s) && i < |s| && j < |s| && Succ(s, i) == Succ(s, j)
    ensures i == j
  {
  }

  // The edge before s[i] around s.
  function Pred(s: seq<HalfEdge>, i: nat): HalfEdge
    requires i < |s|
  {
    if i > 0 then s[i - 1] else s[|s| - 1]
  }

  lemma PredLeads(r: Rotation, v: Point, i: nat)
    requires Paired(r) && v in r.star && StarOf(r, v) && i < |r.star[v]|
    ensures var p := Pred(r.star[v], i);
      p in r.sym && p.orig == v && r.next[r.sym[p]] == r.star[v][i]
  {
    var s := r.star[v];
    var j := if i > 0 then i - 1 else |s| - 1;
    assert s[j] in s && r.next[r.sym[s[j]]] == Succ(s, j);
  }

  /** next is onto: the sym of the edge before f around its origin leads to f. */
  lemma NextOnto(r: Rotation, f: HalfEdge) returns (e: HalfEdge)
    requires System(r, {}) && f in r.sym
    ensures e in r.sym && r.next[e] == f && r.sym[e].orig == f.orig
  {
    var i := StarIndex(r, {}, f);
    PredLeads(r, f.orig, i);
    e := r.sym[Pred(r.star[f.orig], i)];
  }

  // ---- Adding a pair of edges

  function WithPair(r: Rotation, e: HalfEdge, f: HalfEdge): Rotation {
    Rotation(r.sym[e := f][f := e], r.next[e := f][f := e], r.star)
  }

  // Two edges that are new and leave nothing parallel.
  ghost predicate NewPair(r: Rotation, e: HalfEdge, f: HalfEdge) {
    && e !in r.sym && f !in r.sym && e != f && e.orig != f.orig
    && (forall g :: g in r.sym ==> g.orig != e.orig || r.sym[g].orig != f.orig)
  }

  lemma PairPaired(r: Rotation, e: HalfEdge, f: HalfEdge)
    requires Paired(r) && NewPair(r, e, f)
    ensures Paired(WithPair(r, e, f))
  {
    var r' := WithPair(r, e, f);
    assert r'.next.Keys == r'.sym.Keys;
    forall g | g in r'.sym
      ensures r'.sym[g] in r'.sym && r'.sym[g] != g && r'.sym[r'.sym[g]] == g && r'.sym[g].orig != g.orig
    {
      if g in r.sym { assert r.sym[g] in r.sym; }
    }
  }

  lemma PairStar(r: Rotation, e: HalfEdge, f: HalfEdge, v: Point)
    requires Paired(r) && NewPair(r, e, f) && v in r.star && StarOf(r, v) && Paired(WithPair(r, e, f))
    ensures StarOf(WithPair(r, e, f), v)
  {
    var s := r.star[v];
    forall i | 0 <= i < |s| ensures WithPair(r, e, f).next[WithPair(r, e, f).sym[s[i]]] == Succ(s, i) {
      assert s[i] in s;
      assert r.next[r.sym[s[i]]] == Succ(s, i);
    }
  }

  lemma PairNoParallel(r: Rotation, e: HalfEdge, f: HalfEdge, g: HalfEdge, h: HalfEdge)
    requires Paired(r) && NoParallels(r) && NewPair(r, e, f) && Paired(WithPair(r, e, f))
    requires var r' := WithPair(r, e, f);
      g in r'.sym && h in r'.sym && Parallel(r', g, h)
    ensures g == h
  {
    if g in r.sym && h in r.sym {
      assert Parallel(r, g, h);
    } else if g in r.sym && h !in r.sym {
      assert r.sym[g] in r.sym && r.sym[r.sym[g]] == g;
    } else if h in r.sym && g !in r.sym {
      assert r.sym[h] in r.sym && r.sym[r.sym[h]] == h;
    }
  }

  lemma PairKeepsSystem(r: Rotation, e: HalfEdge, f: HalfEdge)
    requires System(r, {}) && NewPair(r, e, f)
    ensures System(WithPair(r, e, f), {e, f})
  {
    var r' := WithPair(r, e, f);
    PairPaired(r, e, f);
    forall v | v in r.star ensures StarOf(r', v) {
      PairStar(r, e, f, v);
    }
    forall v, g | v in r.star && g in r.star[v] ensures g !in {e, f} {
      assert StarOf(r, v);
    }
    forall g, h | g in r'.sym && h in r'.sym && Parallel(r', g, h)
      ensures g == h
    {
      PairNoParallel(r, e, f, g, h);
    }
  }

  // Put a pending edge into the star of its vertex behind position k.
  function Spliced(r: Rotation, v: Point, k: nat, e: HalfEdge): Rotation
    requires v in r.star && k < |r.star[v]| && r.star[v][k] in r.sym && e in r.sym
  {
    var s := r.star[v];
    Rotation(r.sym, r.next[r.sym[s[k]] := e][r.sym[e] := Succ(s, k)], r.star[v := Inserted(s, k, e)])
  }

  lemma SymDistinct(r: Rotation, e: HalfEdge, f: HalfEdge)
    requires Paired(r) && e in r.sym && f in r.sym && e != f
    ensures r.sym[e] != r.sym[f]
  {
    assert r.sym[r.sym[e]] == e && r.sym[r.sym[f]] == f;
  }

  // Where next leads from the sym of an edge after the join.
  lemma SplicedNext(r: Rotation, v: Point, k: nat, e: HalfEdge, f: HalfEdge)
    requires Paired(r) && v in r.star && k < |r.star[v]| && r.star[v][k] in r.sym && e in r.sym && f in r.sym
    requires e != r.star[v][k]
    ensures Spliced(r, v, k, e).next[r.sym[f]] ==
      if f == e then Succ(r.star[v], k) else if f == r.star[v][k] then e else r.next[r.sym[f]]
  {
    if f != e { SymDistinct(r, e, f); }
    if f != r.star[v][k] { SymDistinct(r, r.star[v][k], f); }
  }

  lemma JoinKeepsPaired(r: Rotation, v: Point, k: nat, e: HalfEdge)
    requires Paired(r) && v in r.star && k < |r.star[v]| && r.star[v][k] in r.sym && e in r.sym
    ensures Paired(Spliced(r, v, k, e))
  {
    assert r.sym[e] in r.sym && r.sym[r.star[v][k]] in r.sym;
    assert Spliced(r, v, k, e).next.Keys == r.next.Keys;
  }

  lemma JoinKeepsOtherStar(r: Rotation, v: Point, k: nat, e: HalfEdge, w: Point)
    requires Paired(r) && v in r.star && k < |r.star[v]| && r.star[v][k] in r.sym && e in r.sym
    requires r.star[v][k].orig == v && e.orig == v && e != r.star[v][k]
    requires w in r.star && w != v && StarOf(r, w) && Paired(Spliced(r, v, k, e))
    ensures StarOf(Spliced(r, v, k, e), w)
  {
    var t, r' := r.star[w], Spliced(r, v, k, e);
    forall i | 0 <= i < |t| ensures r'.next[r'.sym[t[i]]] == Succ(t, i) {
      assert t[i] in t;
      SplicedNext(r, v, k, e, t[i]);
      assert r.next[r.sym[t[i]]] == Succ(t, i);
    }
  }

  lemma InsertedDistinct(s: seq<HalfEdge>, k: nat, e: HalfEdge)
    requires Distinct(s) && k < |s| && e !in s
    ensures Distinct(Inserted(s, k, e))
    ensures forall f :: f in Inserted(s, k, e) <==> f in s || f == e
  {
    var t := Inserted(s, k, e);
    assert t[k + 1] == e;
    forall f | f in s ensures f in t {
      var i :| 0 <= i < |s| && s[i] == f;
      assert t[if i <= k then i else i + 1] == f;
    }
  }

  lemma JoinKeepsOwnStar(r: Rotation, v: Point, k: nat, e: HalfEdge)
    requires Paired(r) && v in r.star && k < |r.star[v]| && e in r.sym && e.orig == v && e !in r.star[v]
    requires StarOf(r, v) && r.star[v][k] in r.sym && Paired(Spliced(r, v, k, e))
    ensures StarOf(Spliced(r, v, k, e), v)
  {
    var s, r' := r.star[v], Spliced(r, v, k, e);
    var t := r'.star[v];
    InsertedDistinct(s, k, e);
    forall i | 0 <= i < |t| ensures r'.next[r'.sym[t[i]]] == Succ(t, i) {
      assert t[i] in t;
      SplicedNext(r, v, k, e, t[i]);
      if i != k + 1 {
        var o := if i <= k then i else i - 1;
        assert t[i] == s[o] && r.next[r.sym[s[o]]] == Succ(s, o);
      }
    }
  }

  lemma JoinKeepsCovered(r: Rotation, pending: set<HalfEdge>, v: Point, k: nat, e: HalfEdge)
    requires Paired(r) && Covered(r, pending) && e in pending && e.orig == v && v in r.star && k < |r.star[v]|
    requires StarOf(r, v) && r.star[v][k] in r.sym && Paired(Spliced(r, v, k, e))
    ensures Covered(Spliced(r, v, k, e), pending - {e})
  {
    var s, r' := r.star[v], Spliced(r, v, k, e);
    assert s[k] in s;
    InsertedDistinct(s, k, e);
    forall f | f in pending - {e} ensures r'.next[r'.sym[f]] == f {
      SplicedNext(r, v, k, e, f);
    }
  }

  lemma SameParallels(r: Rotation, r': Rotation)
    requires Paired(r) && NoParallels(r) && Paired(r') && r'.sym == r.sym
    ensures NoParallels(r')
  {
    forall e, f | e in r'.sym && f in r'.sym && Parallel(r', e, f) ensures e == f {
      assert Parallel(r, e, f);
    }
  }

  lemma JoinKeepsSystem(r: Rotation, pending: set<HalfEdge>, v: Point, k: nat, e: HalfEdge)
    requires System(r, pending) && e in pending && e.orig == v && v in r.star && k < |r.star[v]|
    requires r.star[v][k] in r.sym
    ensures System(Spliced(r, v, k, e), pending - {e})
  {
    var s, r' := r.star[v], Spliced(r, v, k, e);
    assert StarOf(r, v);
    assert s[k] in s && e !in s;
    JoinKeepsPaired(r, v, k, e);
    JoinKeepsOwnStar(r, v, k, e);
    forall w | w in r.star ensures StarOf(r', w) {
      if w != v { JoinKeepsOtherStar(r, v, k, e, w); }
    }
    JoinKeepsCovered(r, pending, v, k, e);
    SameParallels(r, r');
  }

  // Start the star of a vertex that has none.
  function Started(r: Rotation, e: HalfEdge): Rotation {
    r.(star := r.star[e.orig := [e]])
  }

  lemma StartKeepsStar(r: Rotation, e: HalfEdge, w: Point)
    requires Paired(r) && e in r.sym && r.next[r.sym[e]] == e && e.orig !in r.star
    requires w in Started(r, e).star && (w in r.star ==> StarOf(r, w))
    ensures StarOf(Started(r, e), w)
  {
    if w in r.star {
      forall i | 0 <= i < |r.star[w]| ensures r.next[r.sym[r.star[w][i]]] == Succ(r.star[w], i) {
        assert r.star[w][i] in r.star[w];
      }
    }
  }

  lemma StartKeepsSystem(r: Rotation, pending: set<HalfEdge>, e: HalfEdge)
    requires System(r, pending) && e in pending && e.orig !in r.star
    ensures System(Started(r, e), pending - {e})
  {
    forall w | w in Started(r, e).star ensures StarOf(Started(r, e), w) {
      StartKeepsStar(r, e, w);
    }
    SameParallels(r, Started(r, e));
  }

  // ---- Counter-clockwise stars

  ghost function Directions(r: Rotation, s: seq<HalfEdge>): (ds: seq<Point>)
    requires forall e :: e in s ==> e in r.sym
    ensures |ds| == |s| && forall i :: 0 <= i < |s| ==> ds[i] == r.sym[s[i]].orig
  {
    seq(|s|, i requires 0 <= i < |s| => assert s[i] in s; r.sym[s[i]].orig)
  }

  // A star whose edges leave in distinct directions lists them counter-clockwise.
  ghost predicate Turning(r: Rotation, v: Point)
    requires Paired(r) && v in r.star && StarOf(r, v)
  {
    var ds := Directions(r, r.star[v]);
    Around(v, ds) && (DistinctDirections(v, ds) ==> CounterClockwise(v, ds))
  }

  ghost predicate AllTurning(r: Rotation) {
    && Paired(r)
    && forall v :: v in r.star ==> StarOf(r, v) && Turning(r, v)
  }

  lemma StarAround(r: Rotation, v: Point)
    requires Paired(r) && v in r.star && StarOf(r, v)
    ensures Around(v, Directions(r, r.star[v]))
  {
    var s := r.star[v];
    forall i | 0 <= i < |s| ensures Directions(r, s)[i] != v {
      assert s[i] in s;
    }
  }

  lemma JoinKeepsTurning(r: Rotation, v: Point, k: nat, e: HalfEdge)
    requires Paired(r) && v in r.star && StarOf(r, v) && Turning(r, v) && k < |r.star[v]| && r.star[v][k] in r.sym
    requires e in r.sym && e.orig == v && SlotAt(v, Directions(r, r.star[v]), k, r.sym[e].orig)
    requires Paired(Spliced(r, v, k, e)) && StarOf(Spliced(r, v, k, e), v)
    ensures Turning(Spliced(r, v, k, e), v)
  {
    var r', s, ds, d := Spliced(r, v, k, e), r.star[v], Directions(r, r.star[v]), r.sym[e].orig;
    StarAround(r', v);
    assert Directions(r', r'.star[v]) == Inserted(ds, k, d);
    if DistinctDirections(v, Inserted(ds, k, d)) {
      InsertedDirections(v, ds, k, d);
      InsertKeepsCounterClockwise(v, ds, k, d);
    }
  }

  lemma InsertedDirections(v: Point, ds: seq<Point>, k: nat, d: Point)
    requires k < |ds| && Around(v, ds) && Around(v, Inserted(ds, k, d)) && d != v
    requires DistinctDirections(v, Inserted(ds, k, d))
    ensures DistinctDirections(v, ds)
    ensures forall j :: 0 <= j < |ds| ==> CompareDirection(v, ds[j], d) != 0
  {
    var t := Inserted(ds, k, d);
    forall i, j | 0 <= i < j < |ds| ensures CompareDirection(v, ds[i], ds[j]) != 0 {
      var i', j' := if i <= k then i else i + 1, if j <= k then j else j + 1;
      assert CompareDirection(v, t[i'], t[j']) != 0;
    }
    forall j | 0 <= j < |ds| ensures CompareDirection(v, ds[j], d) != 0 {
      var j' := if j <= k then j else j + 1;
      CompareFacts(v, ds[j], d, ds[j]);
      if j' < k + 1 {
        assert CompareDirection(v, t[j'], t[k + 1]) != 0;
      } else {
        assert CompareDirection(v, t[k + 1], t[j']) != 0;
      }
    }
  }

  lemma StartTurns(r: Rotation, e: HalfEdge)
    requires Paired(r) && e in r.sym && StarOf(Started(r, e), e.orig)
    ensures Turning(Started(r, e), e.orig)
  {
    StarAround(Started(r, e), e.orig);
    assert RisesFrom(e.orig, Directions(Started(r, e), [e]), 0);
  }

  // ---- Everything an edge graph keeps

  ghost predicate Sound(r: Rotation, pending: set<HalfEdge>) {
    System(r, pending) && AllTurning(r)
  }

  lemma SameStarTurns(r: Rotation, r': Rotation, w: Point)
    requires Paired(r) && w in r.star && StarOf(r, w) && Turning(r, w)
    requires Paired(r') && w in r'.star && StarOf(r', w) && r'.star[w] == r.star[w]
    requires forall e :: e in r.sym ==> e in r'.sym && r'.sym[e] == r.sym[e]
    ensures Turning(r', w)
  {
    assert Directions(r', r.star[w]) == Directions(r, r.star[w]);
  }

  lemma PairKeepsSound(r: Rotation, e: HalfEdge, f: HalfEdge)
    requires Sound(r, {}) && NewPair(r, e, f)
    ensures Sound(WithPair(r, e, f), {e, f})
  {
    PairKeepsSystem(r, e, f);
    forall w | w in r.star ensures Turning(WithPair(r, e, f), w) {
      SameStarTurns(r, WithPair(r, e, f), w);
    }
  }

  lemma JoinKeepsSound(r: Rotation, pending: set<HalfEdge>, k: nat, e: HalfEdge)
    requires Sound(r, pending) && e in pending && e.orig in r.star && k < |r.star[e.orig]|
    requires SlotAt(e.orig, Directions(r, r.star[e.orig]), k, r.sym[e].orig)
    ensures r.star[e.orig][k] in r.sym && Sound(Spliced(r, e.orig, k, e), pending - {e})
  {
    var v := e.orig;
    assert StarOf(r, v);
    assert r.star[v][k] in r.star[v];
    JoinKeepsSystem(r, pending, v, k, e);
    var r' := Spliced(r, v, k, e);
    forall w | w in r'.star ensures Turning(r', w) {
      if w == v { JoinKeepsTurning(r, v, k, e); } else { SameStarTurns(r, r', w); }
    }
  }

  lemma StartKeepsSound(r: Rotation, pending: set<HalfEdge>, e: HalfEdge)
    requires Sound(r, pending) && e in pending && e.orig !in r.star
    ensures Sound(Started(r, e), pending - {e})
  {
    StartKeepsSystem(r, pending, e);
    var r' := Started(r, e);
    forall w | w in r'.star ensures Turning(r', w) {
      if w == e.orig { StartTurns(r, e); } else { SameStarTurns(r, r', w); }
    }
  }
}
