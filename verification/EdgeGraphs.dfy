/** The edge graph: half-edges, found by vertex, kept as a rotation system on the heap. */
module EdgeGraphs {
  import opened Planar
  import opened DirectionRings
  import opened HalfEdges
  import opened RotationSystems

  // The edges listed are those the map pairs.
  ghost predicate Lists(edges: seq<HalfEdge>, sym: map<HalfEdge, HalfEdge>) {
    && (forall e :: e in edges ==> e in sym)
    && (forall e :: e in sym ==> e in edges)
  }

  // The pointers of the paired edges are those of r.
  ghost predicate Follows(r: Rotation)
    requires r.next.Keys == r.sym.Keys
    reads r.sym.Keys`sym, r.sym.Keys`next
  {
    && (forall e {:trigger e.sym} {:trigger r.sym[e]} :: e in r.sym ==> e.sym == r.sym[e])
    && (forall e {:trigger e.next} {:trigger r.next[e]} :: e in r.sym ==> e.next == r.next[e])
  }

  // Each vertex is found by the first edge of its star.
  ghost predicate MapsTo(vertexMap: map<Point, HalfEdge>, star: map<Point, seq<HalfEdge>>) {
    && vertexMap.Keys == star.Keys
    && (forall v :: v in vertexMap ==> |star[v]| > 0 && vertexMap[v] == star[v][0])
  }

  lemma ListsMore(edges: seq<HalfEdge>, sym: map<HalfEdge, HalfEdge>, e: HalfEdge, f: HalfEdge)
    requires Lists(edges, sym)
    ensures Lists(edges + [e, f], sym[e := f][f := e])
  {
    var more := edges + [e, f];
    forall g | g in edges ensures g in more {}
    assert more[|edges|] == e && more[|edges| + 1] == f;
  }

  lemma PairFollows(r: Rotation, e: HalfEdge, f: HalfEdge)
    requires r.next.Keys == r.sym.Keys && Follows(r) && e != f && e.sym == f && f.sym == e && e.next == f && f.next == e
    ensures var r' := WithPair(r, e, f);
      r'.next.Keys == r'.sym.Keys && Follows(r') && r'.sym == r.sym[e := f][f := e] && r'.star == r.star
  {
  }

  // e was joined behind position k, a slot that fits its direction.
  ghost predicate JoinedAt(r: Rotation, k: nat, e: HalfEdge) {
    && e in r.sym && e.orig in r.star && Paired(r)
    && var s := r.star[e.orig];
       && k < |s| && (forall f :: f in s ==> f in r.sym) && s[k] in r.sym
       && Around(e.orig, Directions(r, s)) && r.sym[e].orig != e.orig
       && SlotAt(e.orig, Directions(r, s), k, r.sym[e].orig)
  }

  lemma JoinedAtFacts(r: Rotation, k: nat, e: HalfEdge)
    requires JoinedAt(r, k, e)
    ensures e.orig in r.star && k < |r.star[e.orig]| && r.star[e.orig][k] in r.sym && e in r.sym
  {
  }

  // e can be put into the star of its origin.
  ghost predicate Joinable(r: Rotation, e: HalfEdge) {
    && Paired(r) && e in r.sym && e.orig in r.star
    && var s := r.star[e.orig];
       && |s| > 0 && e !in s
       && (forall f :: f in s ==> f in r.sym)
       && Around(e.orig, Directions(r, s))
  }

  lemma JoinedAtSlot(r: Rotation, k: nat, e: HalfEdge)
    requires Joinable(r, e) && k < |r.star[e.orig]| && r.sym[e].orig != e.orig
    requires SlotAt(e.orig, Directions(r, r.star[e.orig]), k, r.sym[e].orig)
    ensures JoinedAt(r, k, e)
  {
    assert r.star[e.orig][k] in r.star[e.orig];
  }

  lemma JoinAtKeepsSound(r: Rotation, pending: set<HalfEdge>, k: nat, e: HalfEdge)
    requires Sound(r, pending) && e in pending && JoinedAt(r, k, e)
    ensures Sound(Spliced(r, e.orig, k, e), pending - {e})
    ensures Spliced(r, e.orig, k, e).sym == r.sym
  {
    JoinKeepsSound(r, pending, k, e);
  }

  lemma MapsToJoined(vertexMap: map<Point, HalfEdge>, r: Rotation, k: nat, e: HalfEdge)
    requires MapsTo(vertexMap, r.star) && JoinedAt(r, k, e)
    ensures MapsTo(vertexMap, Spliced(r, e.orig, k, e).star)
  {
  }

  lemma MapsToStarted(vertexMap: map<Point, HalfEdge>, r: Rotation, e: HalfEdge)
    requires MapsTo(vertexMap, r.star)
    ensures MapsTo(vertexMap[e.orig := e], Started(r, e).star)
  {
  }

  // The edges that the vertices are found by.
  ghost predicate OnePerVertex(vertexMap: map<Point, HalfEdge>, vertexEdges: seq<HalfEdge>) {
    && (forall e :: e in vertexEdges ==> exists v :: v in vertexMap && vertexMap[v] == e)
    && (forall v :: v in vertexMap ==> vertexMap[v] in vertexEdges)
  }

  class EdgeGraph {
    var edges: seq<HalfEdge>
    var vertexMap: map<Point, HalfEdge>
    // the rotation system that the pointers spell out
    ghost var rotation: Rotation

    // The pointers of the edges are those of the rotation system.
    ghost predicate Tracks()
      reads this, rotation.sym.Keys`sym, rotation.sym.Keys`next
    {
      rotation.next.Keys == rotation.sym.Keys && Follows(rotation)
    }

    ghost predicate ValidWith(pending: set<HalfEdge>)
      reads this, rotation.sym.Keys`sym, rotation.sym.Keys`next
    {
      Tracks() && Lists(edges, rotation.sym) && MapsTo(vertexMap, rotation.star) && Sound(rotation, pending)
    }

    ghost predicate Valid()
      reads this, rotation.sym.Keys`sym, rotation.sym.Keys`next
    {
      ValidWith({})
    }

    constructor ()
      ensures Valid() && edges == []
    {
      edges := [];
      vertexMap := map[];
      rotation := Rotation(map[], map[], map[]);
    }

    // The star of a vertex, as the walking methods need it.
    lemma StarOnHeap(v: Point)
      requires Tracks() && Paired(rotation) && v in rotation.star && StarOf(rotation, v)
      ensures HalfEdge.Star(rotation.star[v]) && HalfEdge.LeaveFrom(rotation.star[v], v)
      ensures HalfEdge.Dests(rotation.star[v]) == Directions(rotation, rotation.star[v])
    {
      var s := rotation.star[v];
      forall i | 0 <= i < |s|
        ensures s[i].ONext() == Succ(s, i) && s[i].orig == v && s[i].Dest() != v
      {
        assert s[i] in s;
        assert rotation.sym[s[i]] in rotation.sym;
        assert rotation.next[rotation.sym[s[i]]] == Succ(s, i);
      }
    }

    // Half-edges leaving p for q.
    ghost predicate Joins(p: Point, q: Point)
      reads this`rotation
    {
      exists g :: g in rotation.sym && g.orig == p && rotation.sym[g].orig == q
    }

    static method CreateLinked(p0: Point, p1: Point) returns (e: HalfEdge, e1: HalfEdge)
      ensures fresh(e) && fresh(e1) && e != e1 && e.orig == p0 && e1.orig == p1
      ensures e.sym == e1 && e1.sym == e && e.next == e1 && e1.next == e
      ensures !e.marked && !e.isStart && !e1.marked && !e1.isStart
    {
      e := new HalfEdge(p0);
      e1 := new HalfEdge(p1);
      e.Link(e1);
    }

    // Create the two half-edges of a new segment, not yet in the stars of their vertices.
    method Create(p0: Point, p1: Point) returns (e: HalfEdge)
      requires Valid() && p0 != p1 && !Joins(p0, p1)
      modifies this
      ensures fresh(e) && fresh(e.sym) && e.orig == p0 && e.sym.orig == p1
      ensures !e.marked && !e.isStart && !e.sym.marked && !e.sym.isStart
      ensures edges == old(edges) + [e, e.sym] && vertexMap == old(vertexMap)
      ensures rotation == WithPair(old(rotation), e, e.sym) && ValidWith({e, e.sym})
    {
      ghost var r := rotation;
      ValidParts({});
      hide *;
      var e1;
      e, e1 := CreateLinked(p0, p1);
      assert e !in r.sym && e1 !in r.sym;
      PairIsNew(e, e1);
      PairFollows(r, e, e1);
      ListsMore(edges, r.sym, e, e1);
      edges := edges + [e, e1];
      PairKeepsSound(r, e, e1);
      rotation := WithPair(r, e, e1);
      ValidFrom({e, e1});
    }

    lemma ValidParts(pending: set<HalfEdge>)
      requires ValidWith(pending)
      ensures rotation.next.Keys == rotation.sym.Keys && Follows(rotation) && Lists(edges, rotation.sym)
      ensures MapsTo(vertexMap, rotation.star) && Sound(rotation, pending)
    {
    }

    lemma ValidFrom(pending: set<HalfEdge>)
      requires rotation.next.Keys == rotation.sym.Keys && Follows(rotation) && Lists(edges, rotation.sym)
      requires MapsTo(vertexMap, rotation.star) && Sound(rotation, pending)
      ensures ValidWith(pending)
    {
    }

    lemma PairIsNew(e: HalfEdge, f: HalfEdge)
      requires Sound(rotation, {}) && !Joins(e.orig, f.orig) && e !in rotation.sym && f !in rotation.sym && e != f
      requires e.orig != f.orig
      ensures NewPair(rotation, e, f)
    {
    }

    // e can be inserted into the star that eAdj starts.
    ghost predicate Ready(e: HalfEdge, eAdj: HalfEdge)
      reads this, rotation.sym.Keys`sym, rotation.sym.Keys`next
    {
      && Tracks() && Joinable(rotation, e)
      && var s := rotation.star[e.orig];
         && HalfEdge.Star(s) && HalfEdge.LeaveFrom(s, e.orig) && s[0] == eAdj && eAdj.orig == e.orig
         && HalfEdge.Dests(s) == Directions(rotation, s)
    }

    // Let eAdj insert e into its star.
    method InsertPointers(e: HalfEdge, eAdj: HalfEdge, ghost s: seq<HalfEdge>) returns (ghost k: nat)
      requires Ready(e, eAdj) && s == rotation.star[e.orig]
      modifies rotation.sym.Keys`next
      ensures k < |s| && s[k] in rotation.sym
      ensures SlotAt(e.orig, Directions(rotation, s), k, rotation.sym[e].orig)
      ensures var r' := Spliced(rotation, e.orig, k, e); r'.next.Keys == r'.sym.Keys && Follows(r')
    {
      hide HalfEdge.Star;
      hide HalfEdge.LeaveFrom;
      hide SlotAt;
      hide HalfEdge.Dests;
      SymsDiffer(e, s);
      k := eAdj.Insert(e, s);
      assert s[k] in s;
    }

    lemma SymsDiffer(e: HalfEdge, s: seq<HalfEdge>)
      requires Tracks() && Joinable(rotation, e) && s == rotation.star[e.orig]
      ensures e.sym in rotation.sym && e.Dest() != e.orig
      ensures forall f :: f in s ==> f.sym in rotation.sym && f.sym != e.sym
    {
      assert rotation.sym[e] in rotation.sym;
      forall f | f in s ensures f.sym in rotation.sym && f.sym != e.sym {
        SymDistinct(rotation, e, f);
      }
    }

    lemma StarReady(pending: set<HalfEdge>, e: HalfEdge)
      requires rotation.next.Keys == rotation.sym.Keys && Follows(rotation) && Sound(rotation, pending)
      requires MapsTo(vertexMap, rotation.star)
      requires e in pending && e.orig in vertexMap
      ensures e.orig in rotation.star && e in rotation.sym && rotation.sym[e].orig != e.orig
      ensures Joinable(rotation, e) && Ready(e, vertexMap[e.orig])
    {
      StarMembers(rotation, pending, e.orig);
      StarAround(rotation, e.orig);
      StarOnHeap(e.orig);
      assert rotation.star[e.orig][0] in rotation.star[e.orig];
    }

    // Insert a pending half-edge into the star of its origin, pointers first.
    method JoinPointers(e: HalfEdge, eAdj: HalfEdge, ghost pending: set<HalfEdge>) returns (ghost k: nat)
      requires rotation.next.Keys == rotation.sym.Keys && Follows(rotation) && Sound(rotation, pending)
      requires MapsTo(vertexMap, rotation.star)
      requires e in pending && e.orig in vertexMap && eAdj == vertexMap[e.orig]
      modifies rotation.sym.Keys`next
      ensures JoinedAt(rotation, k, e)
      ensures var r' := Spliced(rotation, e.orig, k, e); r'.next.Keys == r'.sym.Keys && Follows(r')
    {
      hide Sound;
      hide Ready;
      hide JoinedAt;
      hide Joinable;
      hide MapsTo;
      hide Follows;
      hide SlotAt;
      StarReady(pending, e);
      k := InsertPointers(e, eAdj, rotation.star[e.orig]);
      JoinedAtSlot(rotation, k, e);
    }

    // Insert a pending half-edge into the star of its origin, which eAdj starts.
    method JoinStar(e: HalfEdge, eAdj: HalfEdge, ghost pending: set<HalfEdge>)
      requires ValidWith(pending) && e in pending && e.orig in vertexMap && eAdj == vertexMap[e.orig]
      modifies this`rotation, rotation.sym.Keys`next
      ensures ValidWith(pending - {e})
      ensures rotation.sym == old(rotation.sym)
    {
      hide *;
      ghost var r := rotation;
      ValidParts(pending);
      ghost var k := JoinPointers(e, eAdj, pending);
      JoinedAtFacts(r, k, e);
      rotation := Spliced(r, e.orig, k, e);
      JoinAtKeepsSound(r, pending, k, e);
      MapsToJoined(vertexMap, r, k, e);
      ValidFrom(pending - {e});
    }

    // Put a pending half-edge into the star of its origin, or start one.
    method Attach(e: HalfEdge, ghost pending: set<HalfEdge>)
      requires ValidWith(pending) && e in pending
      modifies this, rotation.sym.Keys`next
      ensures ValidWith(pending - {e})
      ensures edges == old(edges) && rotation.sym == old(rotation.sym)
    {
      hide Sound;
      hide Lists;
      if e.orig in vertexMap {
        JoinStar(e, vertexMap[e.orig], pending);
      } else {
        StartKeepsSound(rotation, pending, e);
        MapsToStarted(vertexMap, rotation, e);
        vertexMap := vertexMap[e.orig := e];
        rotation := Started(rotation, e);
      }
    }

    // ---- Adding and finding edges

    /** The half-edge from p to q, or null when the graph has none. */
    method FindEdge(p: Point, q: Point) returns (e: HalfEdge?)
      requires Valid()
      ensures e != null ==> e in rotation.sym && e.orig == p && e.Dest() == q
      ensures e == null ==> !Joins(p, q)
    {
      if p !in vertexMap {
        NoEdgeAt(p, q);
        return null;
      }
      VertexFacts(p);
      e := vertexMap[p].Find(q, rotation.star[p]);
      if e == null {
        NotInStar(p, q);
      }
    }

    lemma VertexFacts(v: Point)
      requires Valid() && v in vertexMap
      ensures v in rotation.star && HalfEdge.Star(rotation.star[v]) && rotation.star[v][0] == vertexMap[v]
      ensures forall e :: e in rotation.star[v] ==> e in rotation.sym && e.orig == v && e.sym == rotation.sym[e]
    {
      StarMembers(rotation, {}, v);
      StarOnHeap(v);
    }

    lemma NoEdgeAt(p: Point, q: Point)
      requires Valid() && p !in vertexMap
      ensures !Joins(p, q)
    {
    }

    lemma NotInStar(p: Point, q: Point)
      requires Valid() && p in vertexMap && p in rotation.star
      requires forall f :: f in rotation.star[p] ==> f.Dest() != q
      ensures !Joins(p, q)
    {
      forall g | g in rotation.sym && g.orig == p ensures rotation.sym[g].orig != q {
        assert g in rotation.star[p];
        assert g.sym == rotation.sym[g];
      }
    }

    predicate IsValidEdge(p: Point, q: Point) {
      CompareTo(q, p) != 0
    }

    // Create an edge that is not in the graph yet and put both halves into their stars.
    method InsertEdge(p: Point, q: Point) returns (e: HalfEdge)
      requires Valid() && p != q && !Joins(p, q)
      modifies this, rotation.sym.Keys`next
      ensures Valid()
      ensures e in rotation.sym && e.orig == p && e.sym.orig == q && fresh(e) && fresh(e.sym)
      ensures !e.marked && !e.sym.marked && !e.isStart && !e.sym.isStart
      ensures edges == old(edges) + [e, e.sym] && rotation.sym == old(rotation.sym)[e := e.sym][e.sym := e]
    {
      hide Sound;
      hide Lists;
      hide MapsTo;
      hide Joins;
      hide Follows;
      e := Create(p, q);
      Attach(e, {e, e.sym});
      Attach(e.sym, {e, e.sym} - {e});
      assert {e, e.sym} - {e} - {e.sym} == {};
    }

    // What AddEdge leaves when it had to create the edge.
    twostate predicate AddedPair(new e: HalfEdge)
      reads this, e, e.sym
    {
      && fresh(e) && fresh(e.sym)
      && !e.marked && !e.sym.marked && !e.isStart && !e.sym.isStart
      && edges == old(edges) + [e, e.sym]
      && rotation.sym == old(rotation.sym)[e := e.sym][e.sym := e]
    }

    /** One edge of each vertex, in the order the map happens to list them. */
    method GetVertexEdges() returns (vertexEdges: seq<HalfEdge>)
      ensures OnePerVertex(vertexMap, vertexEdges) && |vertexEdges| == |vertexMap.Keys|
    {
      vertexEdges := [];
      var rest := vertexMap.Keys;
      while rest != {}
        invariant rest <= vertexMap.Keys && |vertexEdges| + |rest| == |vertexMap.Keys|
        invariant forall e :: e in vertexEdges ==> exists v :: v in vertexMap && vertexMap[v] == e
        invariant forall v :: v in vertexMap && v !in rest ==> vertexMap[v] in vertexEdges
        decreases rest
      {
        var v :| v in rest;
        vertexEdges := vertexEdges + [vertexMap[v]];
        rest := rest - {v};
      }
    }

    /**
     The half-edge from p to q: null for a segment without length, the one already there
     if there is one, and otherwise a new one, together with its opposite.
     */
    method AddEdge(p: Point, q: Point) returns (e: HalfEdge?)
      requires Valid()
      modifies this, rotation.sym.Keys`next
      ensures Valid()
      ensures e == null <==> p == q
      ensures e != null ==> e in rotation.sym && e.orig == p && e.Dest() == q
      ensures e == null || e in old(rotation.sym) ==> rotation == old(rotation) && edges == old(edges)
      ensures e != null && e !in old(rotation.sym) ==> AddedPair(e)
    {
      hide Sound;
      hide Lists;
      hide MapsTo;
      hide Joins;
      hide Follows;
      if !IsValidEdge(p, q) {
        return null;
      }
      e := FindEdge(p, q);
      if e != null {
        return;
      }
      e := InsertEdge(p, q);
    }

    /**
     However the graph was built, the edges leaving a vertex are sorted exactly when no two
     of them have the same direction.
     */
    lemma SortedWhereDistinct(v: Point)
      requires Valid() && v in vertexMap
      ensures v in rotation.star && var s := rotation.star[v];
        && HalfEdge.Star(s) && s[0] == vertexMap[v] && v == s[0].orig && HalfEdge.LeaveFrom(s, v)
        && Around(v, HalfEdge.Dests(s))
        && (CounterClockwise(v, HalfEdge.Dests(s)) <==> DistinctDirections(v, HalfEdge.Dests(s)))
    {
      StarMembers(rotation, {}, v);
      StarOnHeap(v);
      var ds := HalfEdge.Dests(rotation.star[v]);
      assert Around(v, ds) && (DistinctDirections(v, ds) ==> CounterClockwise(v, ds));
      if CounterClockwise(v, ds) { RingsHaveDistinctDirections(v, ds); }
    }
  }
}
