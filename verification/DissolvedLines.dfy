/**
 What dissolving means: a cover of the edges of a rotation system by maximal lines,
 and the same said of the points of the lines.
 */
module DissolvedLines {
  import opened Planar
  import opened HalfEdges
  import opened RotationSystems
  import opened Chains

  // ---- Lines as edges: maximal chains, no edge in two of them

  ghost predicate Maximal(r: Rotation, es: seq<HalfEdge>)
    requires Paired(r)
  {
    NodeLine(r, es) || RingLine(r, es)
  }

  ghost function AllOf(r: Rotation, covers: seq<seq<HalfEdge>>): set<HalfEdge>
    requires Paired(r)
  {
    if covers == [] then {}
    else AllOf(r, covers[..|covers| - 1]) + Both(r, covers[|covers| - 1])
  }

  ghost predicate CoversApart(r: Rotation, covers: seq<seq<HalfEdge>>)
    requires Paired(r)
  {
    covers == [] ||
    var es := covers[|covers| - 1];
    var before := covers[..|covers| - 1];
    Maximal(r, es) && Both(r, es) !! AllOf(r, before) && CoversApart(r, before)
  }

  lemma AddCover(r: Rotation, covers: seq<seq<HalfEdge>>, es: seq<HalfEdge>)
    requires Paired(r) && CoversApart(r, covers) && Maximal(r, es) && Both(r, es) !! AllOf(r, covers)
    ensures CoversApart(r, covers + [es]) && AllOf(r, covers + [es]) == AllOf(r, covers) + Both(r, es)
  {
    assert (covers + [es])[..|covers|] == covers;
  }

  lemma {:induction false} AllMaximal(r: Rotation, covers: seq<seq<HalfEdge>>, i: nat)
    requires Paired(r) && CoversApart(r, covers) && i < |covers|
    ensures Maximal(r, covers[i])
  {
    if i < |covers| - 1 {
      AllMaximal(r, covers[..|covers| - 1], i);
    }
  }

  // ---- Lines as points

  ghost function PathOf(r: Rotation, es: seq<HalfEdge>): (line: seq<Point>)
    requires forall e :: e in es ==> e in r.sym
    ensures |es| > 0 ==> |line| == |es| + 1
  {
    if es == [] then []
    else seq(|es|, i requires 0 <= i < |es| => es[i].orig) + [r.sym[es[|es| - 1]].orig]
  }

  predicate SameSegment(a: Point, b: Point, p: Point, q: Point) {
    (a == p && b == q) || (a == q && b == p)
  }

  // How often a line runs between p and q, either way.
  function Passages(line: seq<Point>, p: Point, q: Point): nat {
    if |line| < 2 then 0
    else
      var n := |line| - 1;
      Passages(line[..n], p, q) + if SameSegment(line[n - 1], line[n], p, q) then 1 else 0
  }

  function AllPassages(lines: seq<seq<Point>>, p: Point, q: Point): nat {
    if lines == [] then 0
    else AllPassages(lines[..|lines| - 1], p, q) + Passages(lines[|lines| - 1], p, q)
  }

  // The set holds a half-edge from p to q.
  ghost predicate Links(r: Rotation, c: set<HalfEdge>, p: Point, q: Point) {
    exists e :: e in c && e in r.sym && e.orig == p && r.sym[e].orig == q
  }

  lemma ChainPrefix(r: Rotation, es: seq<HalfEdge>)
    requires Paired(r) && Chain(r, es) && |es| > 1
    ensures Chain(r, es[..|es| - 1])
  {
    var before := es[..|es| - 1];
    forall i | 0 <= i < |before| - 1 ensures Passes(r, before[i]) && r.next[before[i]] == before[i + 1] {
      assert r.next[es[i]] == es[i + 1];
    }
  }

  lemma ChainJoins(r: Rotation, es: seq<HalfEdge>, i: nat)
    requires Paired(r) && Good(r) && Chain(r, es) && 0 < i < |es|
    ensures r.sym[es[i - 1]].orig == es[i].orig
  {
    assert r.next[es[i - 1]] == es[i];
    hide Good;
    EdgeFacts(r, es[i - 1]);
  }

  lemma PathStep(r: Rotation, es: seq<HalfEdge>, e: HalfEdge)
    requires es != [] && (forall f :: f in es ==> f in r.sym) && e in r.sym
    requires r.sym[es[|es| - 1]].orig == e.orig
    ensures forall f :: f in es + [e] ==> f in r.sym
    ensures PathOf(r, es + [e]) == PathOf(r, es) + [r.sym[e].orig]
  {
    assert PathOf(r, es + [e]) == PathOf(r, es) + [r.sym[e].orig];
  }

  lemma BothAppend(r: Rotation, es: seq<HalfEdge>, n: HalfEdge)
    requires Paired(r) && n in r.sym
    ensures Both(r, es + [n]) == Both(r, es) + {n, r.sym[n]}
  {
    forall f | f in Both(r, es + [n]) ensures f in Both(r, es) + {n, r.sym[n]} {
      if f !in es && r.sym[f] == n { assert r.sym[r.sym[f]] == f; }
    }
    assert n in es + [n];
    assert r.sym[r.sym[n]] in es + [n];
  }

  // One step further along a chain.
  lemma PassagesStep(r: Rotation, es: seq<HalfEdge>, e: HalfEdge, p: Point, q: Point)
    requires Paired(r) && Good(r) && es != [] && (forall f :: f in es ==> f in r.sym) && e in r.sym
    requires r.sym[es[|es| - 1]].orig == e.orig && e !in Both(r, es) && r.sym[e] !in Both(r, es)
    requires PassedOnce(r, es, p, q)
    ensures forall f :: f in es + [e] ==> f in r.sym
    ensures PassedOnce(r, es + [e], p, q)
  {
    hide Good;
    PathStep(r, es, e);
    BothAppend(r, es, e);
    LinksPair(r, Both(r, es), e, p, q);
    hide *;
    PassagesAppend(PathOf(r, es), r.sym[e].orig, p, q);
  }

  lemma PassagesAppend(line: seq<Point>, v: Point, p: Point, q: Point)
    requires line != []
    ensures Passages(line + [v], p, q) == Passages(line, p, q) + if SameSegment(line[|line| - 1], v, p, q) then 1 else 0
  {
    assert (line + [v])[..|line|] == line;
  }

  lemma BothSingle(r: Rotation, e: HalfEdge)
    requires Paired(r) && e in r.sym
    ensures Both(r, [e]) == {} + {e, r.sym[e]}
  {
    hide Paired;
    BothAppend(r, [], e);
    assert [] + [e] == [e];
    assert Both(r, []) == {};
  }

  lemma SinglePath(r: Rotation, e: HalfEdge, p: Point, q: Point)
    requires e in r.sym
    ensures Passages(PathOf(r, [e]), p, q) == if SameSegment(e.orig, r.sym[e].orig, p, q) then 1 else 0
  {
    PassagesAppend([e.orig], r.sym[e].orig, p, q);
    assert PathOf(r, [e]) == [e.orig] + [r.sym[e].orig];
  }

  lemma PassedFrom(r: Rotation, es: seq<HalfEdge>, p: Point, q: Point)
    requires Paired(r) && forall f :: f in es ==> f in r.sym
    requires Passages(PathOf(r, es), p, q) == if Links(r, Both(r, es), p, q) then 1 else 0
    ensures PassedOnce(r, es, p, q)
  {
  }

  lemma SinglePassage(r: Rotation, e: HalfEdge, p: Point, q: Point)
    requires Paired(r) && Good(r) && e in r.sym
    ensures PassedOnce(r, [e], p, q)
  {
    assert !Links(r, {}, p, q);
    hide *;
    BothSingle(r, e);
    LinksPair(r, {}, e, p, q);
    SinglePath(r, e, p, q);
    PassedFrom(r, [e], p, q);
  }

  lemma NotInBefore(r: Rotation, es: seq<HalfEdge>)
    requires Paired(r) && Chain(r, es)
    ensures es[|es| - 1] !in Both(r, es[..|es| - 1]) && r.sym[es[|es| - 1]] !in Both(r, es[..|es| - 1])
  {
    var n := |es| - 1;
    var e := es[n];
    assert r.sym[r.sym[e]] == e;
    forall f | f in es[..n] ensures f != e && f != r.sym[e] {
      var i :| 0 <= i < n && es[i] == f;
    }
  }

  lemma ChainFacts(r: Rotation, es: seq<HalfEdge>)
    requires Paired(r) && Chain(r, es)
    ensures |es| > 0 && forall e :: e in es ==> e in r.sym
  {
  }

  // The last edge of a chain continues the rest and is not in it.
  lemma ChainLast(r: Rotation, es: seq<HalfEdge>, before: seq<HalfEdge>, e: HalfEdge)
    requires Paired(r) && Good(r) && Chain(r, es) && before != [] && es == before + [e]
    ensures Chain(r, before) && e in r.sym && before[|before| - 1] in r.sym
    ensures r.sym[before[|before| - 1]].orig == e.orig
    ensures e !in Both(r, before) && r.sym[e] !in Both(r, before)
  {
    hide Good;
    assert before == es[..|es| - 1];
    ChainJoins(r, es, |es| - 1);
    assert before[|before| - 1] == es[|es| - 2];
    ChainFacts(r, es);
    assert es[|es| - 1] in es && es[|es| - 2] in es;
    ChainPrefix(r, es);
    hide Chain;
    NotInBefore(r, es);
  }

  ghost predicate PassedOnce(r: Rotation, es: seq<HalfEdge>, p: Point, q: Point)
    requires Paired(r) && forall f :: f in es ==> f in r.sym
  {
    Passages(PathOf(r, es), p, q) == if Links(r, Both(r, es), p, q) then 1 else 0
  }

  // The edge between two points is unique, so a chain passes a segment of its own just once.
  lemma {:induction false} ChainPassages(r: Rotation, es: seq<HalfEdge>, p: Point, q: Point)
    requires Paired(r) && Good(r) && Chain(r, es)
    ensures forall f :: f in es ==> f in r.sym
    ensures PassedOnce(r, es, p, q)
  {
    hide *;
    ChainFacts(r, es);
    var n := |es| - 1;
    var before, e := es[..n], es[n];
    assert es == before + [e];
    if n == 0 {
      SinglePassage(r, e, p, q);
      assert es == [e];
    } else {
      ChainLast(r, es, before, e);
      ChainPassages(r, before, p, q);
      PassagesStep(r, before, e, p, q);
    }
  }

  lemma SameLink(r: Rotation, e: HalfEdge, f: HalfEdge)
    requires Paired(r) && Good(r) && e in r.sym && f in r.sym && e.orig == f.orig && r.sym[e].orig == r.sym[f].orig
    ensures e == f
  {
    assert Parallel(r, e, f);
  }

  // A further edge, with its opposite, adds the one segment.
  lemma LinksPair(r: Rotation, c: set<HalfEdge>, e: HalfEdge, p: Point, q: Point)
    requires Paired(r) && Good(r) && e in r.sym
    requires e !in c && r.sym[e] !in c
    ensures Links(r, c + {e, r.sym[e]}, p, q) <==> Links(r, c, p, q) || SameSegment(e.orig, r.sym[e].orig, p, q)
    ensures !(Links(r, c, p, q) && SameSegment(e.orig, r.sym[e].orig, p, q))
  {
    var d := c + {e, r.sym[e]};
    EdgeFacts(r, e);
    hide Good;
    if Links(r, c, p, q) {
      var f :| f in c && f in r.sym && f.orig == p && r.sym[f].orig == q;
      assert f in d;
      if e.orig == p && r.sym[e].orig == q { SameLink(r, e, f); }
      if e.orig == q && r.sym[e].orig == p { SameLink(r, r.sym[e], f); }
    }
    if SameSegment(e.orig, r.sym[e].orig, p, q) {
      var f := if e.orig == p then e else r.sym[e];
      assert f in d && f.orig == p;
    }
  }

  lemma LinksUnion(r: Rotation, c: set<HalfEdge>, d: set<HalfEdge>, p: Point, q: Point)
    requires Paired(r) && Good(r) && c !! d
    ensures Links(r, c + d, p, q) <==> Links(r, c, p, q) || Links(r, d, p, q)
    ensures !(Links(r, c, p, q) && Links(r, d, p, q))
  {
    hide Good;
    hide Paired;
    if Links(r, c, p, q) {
      var f :| f in c && f in r.sym && f.orig == p && r.sym[f].orig == q;
      assert f in c + d;
      if Links(r, d, p, q) {
        var g :| g in d && g in r.sym && g.orig == p && r.sym[g].orig == q;
        SameLink(r, f, g);
      }
    }
    if Links(r, d, p, q) {
      var g :| g in d && g in r.sym && g.orig == p && r.sym[g].orig == q;
      assert g in c + d;
    }
  }

  ghost predicate PathsOf(r: Rotation, covers: seq<seq<HalfEdge>>, lines: seq<seq<Point>>) {
    && |lines| == |covers|
    && forall i :: 0 <= i < |covers| ==>
         (forall e :: e in covers[i] ==> e in r.sym) && lines[i] == PathOf(r, covers[i])
  }

  // One more line of a cover.
  lemma CoverStep(r: Rotation, before: seq<seq<HalfEdge>>, es: seq<HalfEdge>, p: Point, q: Point)
    requires Paired(r) && Good(r) && Maximal(r, es) && Both(r, es) !! AllOf(r, before)
    ensures forall e :: e in es ==> e in r.sym
    ensures PassedOnce(r, es, p, q)
    ensures Links(r, AllOf(r, before) + Both(r, es), p, q) <==>
      Links(r, AllOf(r, before), p, q) || Links(r, Both(r, es), p, q)
    ensures !(Links(r, AllOf(r, before), p, q) && Links(r, Both(r, es), p, q))
  {
    ChainPassages(r, es, p, q);
    hide *;
    LinksUnion(r, AllOf(r, before), Both(r, es), p, q);
  }

  /** Each segment of the edges covered is passed exactly once, any other never. */
  lemma {:induction false} CoverPassages(r: Rotation, covers: seq<seq<HalfEdge>>, lines: seq<seq<Point>>, p: Point,
                                         q: Point)
    requires Paired(r) && Good(r) && CoversApart(r, covers) && PathsOf(r, covers, lines)
    ensures AllPassages(lines, p, q) == if Links(r, AllOf(r, covers), p, q) then 1 else 0
  {
    hide Good;
    hide Maximal;
    hide Both;
    if covers != [] {
      var n := |covers| - 1;
      CoverPassages(r, covers[..n], lines[..n], p, q);
      CoverStep(r, covers[..n], covers[n], p, q);
    }
  }

  // ---- The same said of points alone

  // The segments of a line, in both directions; segments without length do not count.
  function LineSegments(line: seq<Point>): set<(Point, Point)> {
    if |line| < 2 then {}
    else
      var n := |line| - 1;
      LineSegments(line[..n]) + SegmentPair(line[n - 1], line[n])
  }

  function SegmentPair(p: Point, q: Point): set<(Point, Point)> {
    if p == q then {} else {(p, q), (q, p)}
  }

  function InputSegments(lines: seq<seq<Point>>): set<(Point, Point)> {
    if lines == [] then {}
    else InputSegments(lines[..|lines| - 1]) + LineSegments(lines[|lines| - 1])
  }

  // The vertices joined to v by a segment.
  function NeighboursOf(segments: set<(Point, Point)>, v: Point): set<Point> {
    set s | s in segments && s.0 == v :: s.1
  }

  ghost function PairsOf(r: Rotation): set<(Point, Point)>
    requires Paired(r)
  {
    set e | e in r.sym :: (e.orig, r.sym[e].orig)
  }

  // A line that cannot be made longer: all inner vertices have two neighbours,
  // and its ends do not, unless it is closed and they do too.
  predicate MaximalPath(segments: set<(Point, Point)>, line: seq<Point>) {
    && |line| >= 2
    && (forall i :: 0 < i < |line| - 1 ==> |NeighboursOf(segments, line[i])| == 2)
    && (if |NeighboursOf(segments, line[0])| == 2 then line[0] == line[|line| - 1]
        else |NeighboursOf(segments, line[|line| - 1])| != 2)
  }

  // What dissolving makes of the input lines.
  ghost predicate Dissolved(inputs: seq<seq<Point>>, outputs: seq<seq<Point>>) {
    var segments := InputSegments(inputs);
    && (forall p, q :: AllPassages(outputs, p, q) == if (p, q) in segments then 1 else 0)
    && (forall line :: line in outputs ==> MaximalPath(segments, line))
  }

  ghost function Ends(r: Rotation, s: seq<HalfEdge>): set<Point>
    requires forall e :: e in s ==> e in r.sym
  {
    set i | 0 <= i < |s| :: r.sym[s[i]].orig
  }

  lemma NewEnd(r: Rotation, s: seq<HalfEdge>, v: Point)
    requires Paired(r) && NoParallels(r) && Distinct(s) && s != [] && forall e :: e in s ==> e in r.sym && e.orig == v
    ensures s[|s| - 1] in r.sym && r.sym[s[|s| - 1]].orig !in Ends(r, s[..|s| - 1])
  {
    var n := |s| - 1;
    assert s[n] in s;
    forall i | 0 <= i < n ensures r.sym[s[i]].orig != r.sym[s[n]].orig {
      assert s[i] in s;
      NotParallel(r, s[i], s[n]);
    }
  }

  lemma NotParallel(r: Rotation, e: HalfEdge, f: HalfEdge)
    requires Paired(r) && NoParallels(r) && e in r.sym && f in r.sym && e != f && e.orig == f.orig
    ensures r.sym[e].orig != r.sym[f].orig
  {
    assert !Parallel(r, e, f);
  }

  lemma {:induction false} EndsCount(r: Rotation, s: seq<HalfEdge>, v: Point)
    requires Paired(r) && NoParallels(r) && Distinct(s) && forall e :: e in s ==> e in r.sym && e.orig == v
    ensures |Ends(r, s)| == |s|
  {
    hide NoParallels;
    hide Paired;
    if s != [] {
      var n := |s| - 1;
      EndsCount(r, s[..n], v);
      NewEnd(r, s, v);
      assert Ends(r, s) == Ends(r, s[..n]) + {r.sym[s[n]].orig};
    }
  }

  /** The degree of a vertex is the number of its neighbours. */
  lemma DegreeIsNeighbours(r: Rotation, v: Point)
    requires Paired(r) && Good(r)
    ensures DegreeAt(r, v) == |NeighboursOf(PairsOf(r), v)|
  {
    var near := NeighboursOf(PairsOf(r), v);
    if v in r.star {
      var s := r.star[v];
      StarMembers(r, {}, v);
      EndsCount(r, s, v);
      forall q | q in near ensures q in Ends(r, s) {
        var e :| e in r.sym && (e.orig, r.sym[e].orig) == (v, q);
        var i := StarIndex(r, {}, e);
      }
      forall i | 0 <= i < |s| ensures r.sym[s[i]].orig in near {
        assert s[i] in s;
        assert (s[i].orig, r.sym[s[i]].orig) in PairsOf(r);
      }
      assert near == Ends(r, s);
    } else {
      assert near == {};
    }
  }

  lemma PathPoint(r: Rotation, es: seq<HalfEdge>, i: nat)
    requires Paired(r) && Good(r) && Chain(r, es) && i < |es|
    ensures forall e :: e in es ==> e in r.sym
    ensures PathOf(r, es)[i] == es[i].orig && PathOf(r, es)[|es|] == r.sym[es[|es| - 1]].orig
    ensures i > 0 ==> DegreeAt(r, es[i].orig) == 2
  {
    if i > 0 {
      ChainJoins(r, es, i);
      assert r.next[es[i - 1]] == es[i];
    }
  }

  /** A maximal chain, seen as points. */
  lemma MaximalIsPath(r: Rotation, es: seq<HalfEdge>)
    requires Paired(r) && Good(r) && Maximal(r, es)
    ensures forall e :: e in es ==> e in r.sym
    ensures MaximalPath(PairsOf(r), PathOf(r, es))
  {
    var line := PathOf(r, es);
    PathPoint(r, es, 0);
    DegreeIsNeighbours(r, line[0]);
    DegreeIsNeighbours(r, line[|es|]);
    forall i | 0 < i < |line| - 1 ensures |NeighboursOf(PairsOf(r), line[i])| == 2 {
      PathPoint(r, es, i);
      DegreeIsNeighbours(r, line[i]);
    }
    EdgeFacts(r, es[|es| - 1]);
  }

  /** Lines that cover all edges dissolve the lines that the edges came from. */
  lemma CoverDissolves(r: Rotation, covers: seq<seq<HalfEdge>>, lines: seq<seq<Point>>, inputs: seq<seq<Point>>)
    requires Paired(r) && Good(r) && CoversApart(r, covers) && PathsOf(r, covers, lines)
    requires AllOf(r, covers) == r.sym.Keys && PairsOf(r) == InputSegments(inputs)
    ensures Dissolved(inputs, lines)
  {
    forall p, q ensures AllPassages(lines, p, q) == if (p, q) in InputSegments(inputs) then 1 else 0 {
      CoverPassages(r, covers, lines, p, q);
      LinksAll(r, p, q);
    }
    forall line | line in lines ensures MaximalPath(PairsOf(r), line) {
      var i :| 0 <= i < |lines| && lines[i] == line;
      AllMaximal(r, covers, i);
      MaximalIsPath(r, covers[i]);
    }
  }

  lemma LinksAll(r: Rotation, p: Point, q: Point)
    requires Paired(r)
    ensures Links(r, r.sym.Keys, p, q) <==> (p, q) in PairsOf(r)
  {
  }

  lemma PairsWith(r: Rotation, r': Rotation, e: HalfEdge, f: HalfEdge)
    requires Paired(r) && Paired(r') && e != f && e !in r.sym && f !in r.sym && r'.sym == r.sym[e := f][f := e]
    ensures PairsOf(r') == PairsOf(r) + SegmentPair(e.orig, f.orig)
  {
    forall g | g in r.sym ensures (g.orig, r.sym[g].orig) in PairsOf(r') {
      assert g in r'.sym && r'.sym[g] == r.sym[g];
    }
    assert e in r'.sym && f in r'.sym && r'.sym[e] == f;
    forall g | g in r'.sym ensures (g.orig, r'.sym[g].orig) in PairsOf(r) + SegmentPair(e.orig, f.orig) {
      if g != e && g != f { assert g in r.sym; }
    }
  }
}
