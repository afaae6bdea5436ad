/** Simplifying the edges of a coverage, or its inner edges only, and building the coverage again. */
module CoverageSimplifier {
  import opened Planar
  import opened CoordinateLists
  import opened CoverageRings
  import opened CoverageSections
  import opened CoverageKeys
  import opened CoverageEdges
  import opened RingSplits
  import opened RingRebuilds
  import opened EdgeTables
  import opened EdgeLogs
  import opened CoverageRingEdges
  import opened RepeatedPoints
  import opened CoverageAreas
  import opened RebuiltAreas
  import opened CoverageTotals
  import opened CoveragePlanarity
  import opened SimplifiedCoverages
  import opened CoverageNodes
  import Arrangement
  import Intersections
  import Runs = SimplifyRuns
  import Tpvw
  import T = TpvwSimplifier
  import SmallCorners

  // ---- Selecting edges

  ghost function Selected(edges: seq<CoverageEdge>, ringCount: nat): seq<CoverageEdge>
    reads edges
  {
    if edges == [] then []
    else
      var e := edges[|edges| - 1];
      Selected(edges[..|edges| - 1], ringCount) + if e.ringCount == ringCount then [e] else []
  }

  method SelectEdges(edges: seq<CoverageEdge>, ringCount: nat) returns (result: seq<CoverageEdge>)
    ensures result == Selected(edges, ringCount)
  {
    result := [];
    for i := 0 to |edges|
      invariant result == Selected(edges[..i], ringCount)
    {
      assert edges[..i + 1][..i] == edges[..i];
      if edges[i].ringCount == ringCount {
        result := result + [edges[i]];
      }
    }
    assert edges[..|edges|] == edges;
  }

  predicate EdgesDistinct(s: seq<CoverageEdge>) {
    forall i, j :: 0 <= i < j < |s| ==> s[i] != s[j]
  }

  lemma AppendDistinct(s: seq<CoverageEdge>, e: CoverageEdge)
    requires EdgesDistinct(s) && e !in s
    ensures EdgesDistinct(s + [e])
  {
  }

  lemma AppendKeeps(s: seq<CoverageEdge>, t: seq<CoverageEdge>, e: CoverageEdge)
    requires e in s
    ensures e in s + t
  {
    var i :| 0 <= i < |s| && s[i] == e;
    assert (s + t)[i] == e;
  }

  lemma {:induction false} SelectedAre(edges: seq<CoverageEdge>, ringCount: nat)
    requires EdgesDistinct(edges)
    ensures forall e :: e in Selected(edges, ringCount) ==> e in edges && e.ringCount == ringCount
    ensures forall e :: e in edges && e.ringCount == ringCount ==> e in Selected(edges, ringCount)
    ensures EdgesDistinct(Selected(edges, ringCount))
  {
    if edges != [] {
      var n := |edges| - 1;
      SelectedAre(edges[..n], ringCount);
      assert edges == edges[..n] + [edges[n]];
      forall e | e in edges[..n] ensures e != edges[n] {
        var i :| 0 <= i < n && edges[i] == e;
      }
      var r, before := Selected(edges, ringCount), Selected(edges[..n], ringCount);
      if edges[n].ringCount == ringCount { AppendDistinct(before, edges[n]); }
      forall e | e in edges && e.ringCount == ringCount ensures e in r {
        if e == edges[n] { assert r[|r| - 1] == e; } else { assert e in before; AppendKeeps(before, [edges[n]], e); }
      }
    }
  }

  // ---- Setting coordinates

  method SetAllCoordinates(edges: seq<CoverageEdge>, lines: seq<seq<Point>>)
    requires |lines| == |edges| && EdgesDistinct(edges)
    modifies edges`pts
    ensures Coords(edges) == lines
    ensures forall e: CoverageEdge | old(allocated(e)) && e !in edges :: e.pts == old(e.pts)
  {
    for i := 0 to |edges|
      invariant forall j :: 0 <= j < i ==> edges[j].pts == lines[j]
      invariant forall e: CoverageEdge | old(allocated(e)) && e !in edges :: e.pts == old(e.pts)
    {
      edges[i].SetCoordinates(lines[i]);
    }
  }

  ghost function FreeFlags(edges: seq<CoverageEdge>): (r: seq<bool>)
    ensures |r| == |edges| && forall i :: 0 <= i < |r| ==> r[i] == edges[i].isFreeRing
  {
    seq(|edges|, i requires 0 <= i < |edges| => edges[i].isFreeRing)
  }

  method GetFreeRings(edges: seq<CoverageEdge>) returns (freeRings: seq<bool>)
    ensures freeRings == FreeFlags(edges)
  {
    freeRings := [];
    for i := 0 to |edges|
      invariant |freeRings| == i && forall j :: 0 <= j < i ==> freeRings[j] == edges[j].isFreeRing
    {
      freeRings := freeRings + [edges[i].isFreeRing];
    }
  }

  method CreateLines(edges: seq<CoverageEdge>) returns (lines: seq<seq<Point>>)
    ensures lines == Coords(edges)
  {
    lines := [];
    for i := 0 to |edges|
      invariant |lines| == i && forall j :: 0 <= j < i ==> lines[j] == edges[j].pts
    {
      lines := lines + [edges[i].pts];
    }
  }

  // ---- What simplified points keep

  lemma OutputOpen(ls: seq<Arrangement.Line>, i: nat)
    requires Arrangement.Arranged(ls) && i < |ls| && Arrangement.WellFormed(ls[i])
    ensures NoRepeats(Tpvw.Output(ls[i])) && |Tpvw.Output(ls[i])| >= 2
    ensures Tpvw.Output(ls[i])[0] == ls[i].pts[0]
    ensures !ls[i].closed ==> Tpvw.Output(ls[i])[|Tpvw.Output(ls[i])| - 1] == ls[i].pts[|ls[i].pts| - 1]
    ensures ls[i].closed ==> Tpvw.Output(ls[i])[|Tpvw.Output(ls[i])| - 1] == ls[i].pts[0]
  {
    T.OutputIsLine(ls, i);
    var out := Tpvw.Output(ls[i]);
    forall k | 0 < k < |out| ensures out[k - 1] != out[k] {
      Arrangement.SegmentProper(ls, i, k - 1);
    }
  }

  /** A simplified edge repeats no point and, unless it is a free ring, ends where it ended. */
  lemma SimplifiedPoints(after: seq<Arrangement.Line>, i: nat, stored: seq<Point>, free: bool, tolerance: real)
    requires Arrangement.Arranged(after) && i < |after| && T.EdgeInput(stored, free)
    requires T.SimplifiedFrom(after[i], Tpvw.LineOf(stored, free), tolerance)
    ensures NoRepeats(Tpvw.Output(after[i])) && |Tpvw.Output(after[i])| >= 2
    ensures !free ==> Refit(stored, Tpvw.Output(after[i]))
  {
    OutputOpen(after, i);
  }

  // Edges and constraint lines as the line simplifier gets them.
  ghost function EdgeLines(edges: seq<CoverageEdge>, constraints: seq<seq<Point>>): seq<Arrangement.Line>
    reads edges
  {
    T.AllLines(Coords(edges), FreeFlags(edges), constraints)
  }

  lemma FlagsChosen(edges: seq<CoverageEdge>)
    ensures (if FreeFlags(edges) == [] then T.NoneFree(|Coords(edges)|) else FreeFlags(edges)) == FreeFlags(edges)
  {
  }

  lemma SimplifiedIs(ls: seq<Arrangement.Line>, after: seq<Arrangement.Line>, n: nat, tolerance: real,
                     lines: seq<seq<Point>>)
    requires T.Results(ls, after, n, tolerance, lines) && Arrangement.Arranged(ls)
    ensures T.SimplifiedUpTo(ls, after, n, tolerance) && n <= |after| && lines == T.Outputs(after, n)
  {
    hide Arrangement.Arranged;
    hide Intersections.NoMoreIntersections;
    hide T.Outputs;
  }

  lemma ArrangedEnds(ls: seq<Arrangement.Line>)
    requires Arrangement.Arranged(ls)
    ensures Arrangement.AllEndsDiffer(ls)
  {
  }

  /** Simplify the edges against each other and the constraints, and set their new points. */
  method SimplifyEdges(edges: seq<CoverageEdge>, constraints: seq<seq<Point>>, tolerance: real)
    returns (lines: seq<seq<Point>>, ghost after: seq<Arrangement.Line>)
    requires EdgesDistinct(edges)
    requires T.Inputs(Coords(edges), FreeFlags(edges)) && T.Inputs(constraints, T.NoneFree(|constraints|))
    requires Arrangement.Arranged(EdgeLines(edges, constraints))
    modifies edges`pts
    ensures T.SimplifiedUpTo(old(EdgeLines(edges, constraints)), after, |edges|, tolerance * tolerance)
    ensures lines == T.Outputs(after, |edges|) && Coords(edges) == lines
    ensures forall e: CoverageEdge | old(allocated(e)) && e !in edges :: e.pts == old(e.pts)
  {
    ArrangedEnds(EdgeLines(edges, constraints));
    hide Arrangement.Arranged;
    hide Arrangement.AllEndsDiffer;
    hide T.Inputs;
    hide T.SimplifiedUpTo;
    hide T.Outputs;
    hide T.Results;
    FlagsChosen(edges);
    var input := CreateLines(edges);
    var freeRings := GetFreeRings(edges);
    ghost var ls := EdgeLines(edges, constraints);
    lines := T.SimplifyLines(input, freeRings, constraints, tolerance);
    after :| T.Results(ls, after, |edges|, tolerance * tolerance, lines);
    SimplifiedIs(ls, after, |edges|, tolerance * tolerance, lines);
    SetAllCoordinates(edges, lines);
  }

  // ---- The edges before and after

  lemma EdgeRecord(cov: CoverageRingEdges, e: CoverageEdge) returns (k: Key)
    requires cov.Progress(|cov.rings|) && e in cov.edges
    ensures k in cov.unique && cov.unique[k] == e && k in cov.table && Entry(cov.coverage, k, cov.table[k])
    ensures cov.table[k] == Record(e.pts, e.ringCount, e.isFreeRing)
  {
    cov.ProgressParts(|cov.rings|);
    TableEntries(cov.coverage, |cov.rings|, {}, cov.table);
    hide TableOk;
    hide Entry;
    k :| k in cov.unique && cov.unique[k] == e;
  }

  lemma EdgeIsInput(cov: CoverageRingEdges, e: CoverageEdge)
    requires cov.Progress(|cov.rings|) && e in cov.edges
    ensures T.EdgeInput(e.pts, e.isFreeRing) && T.EdgeInput(e.pts, false)
  {
    hide *;
    var k := EdgeRecord(cov, e);
    EntryShape(cov.coverage, k, cov.table[k]);
    ShapeIsInput(e.pts, e.isFreeRing);
  }

  lemma ShapeIsInput(pts: seq<Point>, free: bool)
    requires |pts| >= 2 && (pts[0] == pts[|pts| - 1] ==> |pts| >= 4) && (free ==> pts[0] == pts[|pts| - 1])
    ensures T.EdgeInput(pts, free) && T.EdgeInput(pts, false)
  {
  }

  lemma AllInputs(cov: CoverageRingEdges, edges: seq<CoverageEdge>)
    requires cov.Progress(|cov.rings|) && forall e :: e in edges ==> e in cov.edges
    ensures T.Inputs(Coords(edges), FreeFlags(edges)) && T.Inputs(Coords(edges), T.NoneFree(|Coords(edges)|))
  {
    hide T.EdgeInput;
    hide CoverageRingEdges.Progress;
    forall i | 0 <= i < |edges|
      ensures T.EdgeInput(edges[i].pts, edges[i].isFreeRing) && T.EdgeInput(edges[i].pts, false)
    {
      assert edges[i] in edges;
      EdgeIsInput(cov, edges[i]);
    }
  }

  // Every edge of the coverage is in one of the two lists, once.
  ghost predicate Divided(edges: seq<CoverageEdge>, inner: seq<CoverageEdge>, outer: seq<CoverageEdge>) {
    && EdgesDistinct(inner + outer)
    && (forall e :: e in edges ==> e in inner + outer)
    && (forall e :: e in inner + outer ==> e in edges)
  }

  lemma DividedParts(edges: seq<CoverageEdge>, inner: seq<CoverageEdge>, outer: seq<CoverageEdge>)
    requires Divided(edges, inner, outer)
    ensures EdgesDistinct(inner) && EdgesDistinct(outer)
    ensures (forall e :: e in inner ==> e in edges) && (forall e :: e in outer ==> e in edges && e !in inner)
  {
    var all := inner + outer;
    forall i | 0 <= i < |inner| ensures all[i] == inner[i] {}
    forall j | 0 <= j < |outer| ensures all[|inner| + j] == outer[j] {}
    forall i | 0 <= i < |inner| ensures inner[i] in edges { assert all[i] in all; }
    forall j | 0 <= j < |outer| ensures outer[j] in edges && outer[j] !in inner { assert all[|inner| + j] in all; }
  }

  // The line of an edge, as the line simplifier gets it.
  lemma LineForEdge(cov: CoverageRingEdges, e: CoverageEdge, free: bool)
    requires cov.Progress(|cov.rings|) && e in cov.edges && (free ==> e.isFreeRing)
    ensures LineFor(cov.coverage, e.pts, Tpvw.LineOf(e.pts, free))
  {
    hide *;
    var k := EdgeRecord(cov, e);
    LineForRecord(cov.coverage, k, cov.table[k], free);
  }

  lemma LineForRecord(c: Coverage, k: Key, rec: Record, free: bool)
    requires Entry(c, k, rec) && (free ==> rec.free)
    ensures LineFor(c, rec.pts, Tpvw.LineOf(rec.pts, free))
  {
    hide IsEdge;
    hide IsKey;
    hide NodeFree;
    hide Ready;
    hide Tpvw.LineOf;
    var i := EntryRing(c, k, rec);
    assert EdgeOfSome(c, i, rec.pts, rec.free);
    assert EdgePoints(c, rec.pts, rec.free);
  }

  // Line i of the input is edge i of the two lists.
  lemma LineOfEdge(inner: seq<CoverageEdge>, outer: seq<CoverageEdge>, i: nat)
    requires i < |inner| + |outer|
    ensures |EdgeLines(inner, Coords(outer))| == |inner| + |outer|
    ensures var e := (inner + outer)[i];
      EdgeLines(inner, Coords(outer))[i] == Tpvw.LineOf(e.pts, i < |inner| && e.isFreeRing)
  {
    hide Tpvw.LineOf;
    var ls := EdgeLines(inner, Coords(outer));
    if i < |inner| {
      assert ls[i] == Tpvw.LineOf(Coords(inner)[i], FreeFlags(inner)[i]);
    } else {
      var j := i - |inner|;
      assert ls[|inner| + j] == Tpvw.LineOf(Coords(outer)[j], false);
    }
  }

  lemma EdgesDisjoint(cov: CoverageRingEdges, all: seq<CoverageEdge>, i: nat, j: nat)
    requires cov.Progress(|cov.rings|) && EdgesDistinct(all) && i < j < |all| && all[i] in cov.edges
    requires all[j] in cov.edges
    ensures Segments(all[i].pts) * Segments(all[j].pts) == {}
  {
    assert all[i] != all[j];
    hide *;
    cov.EdgesApart(all[i], all[j]);
  }

  /** The edges of a planar coverage, as lines, touch only at their fixed vertices. */
  lemma EdgeLinesArranged(cov: CoverageRingEdges, inner: seq<CoverageEdge>, outer: seq<CoverageEdge>)
    requires cov.Progress(|cov.rings|) && Divided(cov.edges, inner, outer) && PlanarCoverage(cov.rings)
    ensures Arrangement.Arranged(EdgeLines(inner, Coords(outer)))
  {
    hide *;
    var all, ls, c := inner + outer, EdgeLines(inner, Coords(outer)), cov.coverage;
    var ps := Coords(all);
    cov.ProgressParts(|cov.rings|);
    LineCount(inner, outer);
    forall i | 0 <= i < |ls| ensures LineFor(c, ps[i], ls[i]) && ps[i] == all[i].pts {
      LineOfEdge(inner, outer, i);
      DividedIndex(cov.edges, inner, outer, i);
      LineForEdge(cov, all[i], i < |inner| && all[i].isFreeRing);
      CoordsIndex(all, i);
    }
    forall i, j | 0 <= i < j < |ls| ensures Segments(ps[i]) * Segments(ps[j]) == {} {
      DividedIndex(cov.edges, inner, outer, i);
      DividedIndex(cov.edges, inner, outer, j);
      EdgesDisjoint(cov, all, i, j);
    }
    LinesForFrom(c, ps, ls);
    LinesArranged(c, ps, ls);
  }

  lemma LineCount(inner: seq<CoverageEdge>, outer: seq<CoverageEdge>)
    ensures |EdgeLines(inner, Coords(outer))| == |inner| + |outer| == |Coords(inner + outer)|
  {
  }

  // A list without repeats has as many members as it is long.
  lemma {:induction false} SizeOfSet(edges: seq<CoverageEdge>)
    requires EdgesDistinct(edges)
    ensures |set e | e in edges| == |edges|
  {
    if edges != [] {
      var n := |edges| - 1;
      SizeOfSet(edges[..n]);
      assert edges == edges[..n] + [edges[n]];
      assert (set e | e in edges) == (set e | e in edges[..n]) + {edges[n]};
    }
  }

  lemma SameMembers(edges: seq<CoverageEdge>, inner: seq<CoverageEdge>, outer: seq<CoverageEdge>)
    requires EdgesDistinct(edges) && Divided(edges, inner, outer)
    ensures |inner| + |outer| == |edges|
  {
    SizeOfSet(edges);
    SizeOfSet(inner + outer);
    assert (set e | e in edges) == (set e | e in inner + outer);
  }

  lemma ListedSize(cov: CoverageRingEdges)
    requires |cov.edges| == |cov.unique| && cov.unique.Keys == cov.table.Keys
    ensures |cov.edges| == |cov.table|
  {
    assert |cov.unique.Keys| == |cov.table.Keys|;
  }

  lemma ListedParts(edges: seq<CoverageEdge>, unique: map<Key, CoverageEdge>, log: seq<Use>)
    requires EdgesListed(edges, unique, log)
    ensures |edges| == |unique| && InOrder(edges, unique, FirstSeen(log))
  {
  }

  // There is one line for every edge and no other.
  lemma OneLineEach(cov: CoverageRingEdges, inner: seq<CoverageEdge>, outer: seq<CoverageEdge>)
    requires cov.Progress(|cov.rings|) && Divided(cov.edges, inner, outer)
    ensures |inner| + |outer| == |cov.table|
  {
    hide *;
    BuiltFrom(cov);
    cov.ProgressParts(|cov.rings|);
    SameMembers(cov.edges, inner, outer);
    ListedParts(cov.edges, cov.unique, AllUses(cov.coverage, cov.allCuts, cov.allKeys));
    ListedSize(cov);
  }

  lemma DividedIndex(edges: seq<CoverageEdge>, inner: seq<CoverageEdge>, outer: seq<CoverageEdge>, i: nat)
    requires Divided(edges, inner, outer) && i < |inner| + |outer|
    ensures (inner + outer)[i] in edges && EdgesDistinct(inner + outer)
  {
    assert (inner + outer)[i] in inner + outer;
  }

  lemma CoordsIndex(all: seq<CoverageEdge>, i: nat)
    requires i < |all|
    ensures Coords(all)[i] == all[i].pts
  {
  }

  lemma LinesForFrom(c: Coverage, ps: seq<seq<Point>>, ls: seq<Arrangement.Line>)
    requires |ps| == |ls| && (forall i :: 0 <= i < |ls| ==> LineFor(c, ps[i], ls[i]))
    requires forall i, j :: 0 <= i < j < |ls| ==> Segments(ps[i]) * Segments(ps[j]) == {}
    ensures LinesFor(c, ps, ls)
  {
    hide LineFor;
    hide Segments;
  }

  // ---- Where each edge is among the lines

  ghost function PlaceIn(all: seq<CoverageEdge>, e: CoverageEdge): (a: nat)
    requires e in all
    ensures a < |all| && all[a] == e
  {
    var a :| 0 <= a < |all| && all[a] == e;
    a
  }

  ghost function Places(unique: map<Key, CoverageEdge>, all: seq<CoverageEdge>): (at: map<Key, nat>)
    requires forall k :: k in unique ==> unique[k] in all
    ensures at.Keys == unique.Keys && forall k :: k in unique ==> at[k] < |all| && all[at[k]] == unique[k]
  {
    map k | k in unique :: PlaceIn(all, unique[k])
  }

  // Each edge is found at the place under its key.
  ghost predicate AtTheirPlaces(unique: map<Key, CoverageEdge>, all: seq<CoverageEdge>, at: map<Key, nat>) {
    at.Keys == unique.Keys && forall k :: k in unique ==> at[k] < |all| && all[at[k]] == unique[k]
  }

  lemma PlacesAre(unique: map<Key, CoverageEdge>, all: seq<CoverageEdge>)
    requires forall k :: k in unique ==> unique[k] in all
    ensures AtTheirPlaces(unique, all, Places(unique, all))
  {
    hide Places;
  }

  // The present points of the edges.
  ghost function CurrentPoints(unique: map<Key, CoverageEdge>): map<Key, seq<Point>>
    reads unique.Values
  {
    map k | k in unique :: unique[k].pts
  }

  // What is known of edge k before it is simplified.
  ghost predicate KnownAs(c: Coverage, k: Key, rec: Record, ls: seq<Arrangement.Line>, n: nat, a: nat) {
    && Entry(c, k, rec) && T.EdgeInput(rec.pts, rec.free) && a < |ls| && n <= |ls|
    && ls[a] == Tpvw.LineOf(rec.pts, a < n && rec.free)
  }

  // The new points of the edge at place a: the first n lines are simplified.
  ghost function NewPoints(rec: Record, after: seq<Arrangement.Line>, n: nat, a: nat): seq<Point>
    requires a < |after|
  {
    if a < n then Tpvw.Output(after[a]) else rec.pts
  }

  lemma LineOfCloses(pts: seq<Point>, free: bool)
    requires T.EdgeInput(pts, free) && (pts[0] == pts[|pts| - 1] ==> |pts| >= 4)
    ensures |pts| >= 2 && (Tpvw.LineOf(pts, free).closed <==> pts[0] == pts[|pts| - 1])
  {
  }

  lemma LineDrawn(after: seq<Arrangement.Line>, a: nat, pts: seq<Point>)
    requires Arrangement.Arranged(after) && a < |after| && after[a] == Tpvw.LineOf(pts, false)
    ensures Tpvw.Output(after[a]) == pts
  {
    T.OutputIsLine(after, a);
    hide Arrangement.Arranged;
    hide Tpvw.Output;
  }

  lemma UpToAt(ls: seq<Arrangement.Line>, after: seq<Arrangement.Line>, n: nat, tolerance: real, a: nat)
    requires T.SimplifiedUpTo(ls, after, n, tolerance) && a < |ls|
    ensures Arrangement.Arranged(after) && |after| == |ls|
    ensures a < n ==> T.SimplifiedFrom(after[a], ls[a], tolerance)
    ensures a >= n ==> after[a] == ls[a]
  {
    hide Arrangement.Arranged;
    hide T.SimplifiedFrom;
  }

  lemma SimplifiedCloses(later: Arrangement.Line, earlier: Arrangement.Line, tolerance: real)
    requires T.SimplifiedFrom(later, earlier, tolerance)
    ensures later.closed == earlier.closed
  {
    hide Runs.Subsequence;
    hide Runs.LineSum;
  }

  /** A simplified edge, or one left alone, is drawn by its line and keeps what it must. */
  lemma EdgeDrawn(c: Coverage, k: Key, rec: Record, ls: seq<Arrangement.Line>, after: seq<Arrangement.Line>, n: nat,
                  a: nat, tolerance: real)
    requires KnownAs(c, k, rec, ls, n, a) && T.SimplifiedUpTo(ls, after, n, tolerance)
    ensures a < |after| && DrawnAs(rec, NewPoints(rec, after, n, a), after, a)
    ensures KeptEdge(rec, NewPoints(rec, after, n, a))
  {
    hide *;
    KnownParts(c, k, rec, ls, n, a);
    UpToAt(ls, after, n, tolerance, a);
    EntryShape(c, k, rec);
    ShapeIsInput(rec.pts, rec.free);
    LineOfCloses(rec.pts, a < n && rec.free);
    if a < n {
      SimplifiedCloses(after[a], ls[a], tolerance);
      SimplifiedPoints(after, a, rec.pts, rec.free, tolerance);
      SimplifiedSubset(after, a, rec.pts, rec.free, tolerance);
    } else {
      LineDrawn(after, a, rec.pts);
      LeftAlone(rec.pts);
    }
    DrawnAndKept(rec, after, n, a);
  }

  lemma SubsequenceWithin(s: seq<Point>, t: seq<Point>)
    requires Runs.Subsequence(s, t)
    ensures forall p :: p in s ==> p in t
  {
    var from :| Runs.PickedBy(s, t, from);
    forall x | 0 <= x < |s| ensures s[x] in t {
      assert s[x] == t[from[x]];
    }
  }

  lemma LineOfWithin(pts: seq<Point>, free: bool)
    ensures forall p :: p in Tpvw.LineOf(pts, free).pts ==> p in pts
  {
  }

  lemma OutputWithin(after: seq<Arrangement.Line>, i: nat)
    requires Arrangement.Arranged(after) && i < |after|
    ensures forall p :: p in Tpvw.Output(after[i]) ==> p in after[i].pts
  {
    T.OutputIsLine(after, i);
    hide Arrangement.Arranged;
    hide Tpvw.Output;
  }

  lemma SimplifiedIsSubsequence(later: Arrangement.Line, earlier: Arrangement.Line, tolerance: real)
    requires T.SimplifiedFrom(later, earlier, tolerance)
    ensures Runs.Subsequence(later.pts, earlier.pts)
  {
    hide Runs.Subsequence;
    hide Runs.LineSum;
  }

  // A simplified edge visits points of the edge only.
  lemma SimplifiedSubset(after: seq<Arrangement.Line>, i: nat, pts: seq<Point>, free: bool, tolerance: real)
    requires Arrangement.Arranged(after) && i < |after|
    requires T.SimplifiedFrom(after[i], Tpvw.LineOf(pts, free), tolerance)
    ensures forall p :: p in Tpvw.Output(after[i]) ==> p in pts
  {
    hide *;
    OutputWithin(after, i);
    SimplifiedIsSubsequence(after[i], Tpvw.LineOf(pts, free), tolerance);
    SubsequenceWithin(after[i].pts, Tpvw.LineOf(pts, free).pts);
    LineOfWithin(pts, free);
  }

  lemma KnownParts(c: Coverage, k: Key, rec: Record, ls: seq<Arrangement.Line>, n: nat, a: nat)
    requires KnownAs(c, k, rec, ls, n, a)
    ensures Entry(c, k, rec) && T.EdgeInput(rec.pts, rec.free) && a < |ls| && n <= |ls|
    ensures ls[a] == Tpvw.LineOf(rec.pts, a < n && rec.free)
  {
  }

  lemma LeftAlone(pts: seq<Point>)
    requires |pts| >= 2 && NoRepeats(pts)
    ensures Refit(pts, pts)
  {
  }

  lemma DrawnAndKept(rec: Record, after: seq<Arrangement.Line>, n: nat, a: nat)
    requires a < |after| && |rec.pts| >= 2 && (after[a].closed <==> rec.pts[0] == rec.pts[|rec.pts| - 1])
    requires n <= a ==> Tpvw.Output(after[a]) == rec.pts
    requires |Tpvw.Output(after[a])| >= 2 && NoRepeats(Tpvw.Output(after[a]))
    requires !rec.free ==> Refit(rec.pts, Tpvw.Output(after[a]))
    requires forall p :: p in Tpvw.Output(after[a]) ==> p in rec.pts
    ensures DrawnAs(rec, NewPoints(rec, after, n, a), after, a) && KeptEdge(rec, NewPoints(rec, after, n, a))
  {
    hide Tpvw.Output;
    hide Refit;
    hide NoRepeats;
  }

  // ---- Simplifying some of the edges

  lemma InEdges(cov: CoverageRingEdges, k: Key)
    requires cov.Progress(|cov.rings|) && k in cov.unique
    ensures cov.unique[k] in cov.edges
  {
    cov.ProgressParts(|cov.rings|);
    hide TableOk;
    hide AllSplit;
  }

  lemma SameKey(cov: CoverageRingEdges, k: Key, k': Key)
    requires cov.Progress(|cov.rings|) && k in cov.unique && k' in cov.unique && cov.unique[k] == cov.unique[k']
    ensures k == k'
  {
    cov.ProgressParts(|cov.rings|);
    hide TableOk;
    hide AllSplit;
  }

  lemma AllPlaced(cov: CoverageRingEdges, inner: seq<CoverageEdge>, outer: seq<CoverageEdge>)
    requires cov.Progress(|cov.rings|) && Divided(cov.edges, inner, outer)
    ensures cov.unique.Keys == cov.table.Keys
    ensures forall k :: k in cov.unique ==> cov.unique[k] in inner + outer
  {
    BuiltFrom(cov);
    forall k | k in cov.unique ensures cov.unique[k] in inner + outer { InEdges(cov, k); }
  }

  lemma BuiltFrom(cov: CoverageRingEdges)
    requires cov.Progress(|cov.rings|)
    ensures cov.coverage.rings == cov.rings && Built(cov.coverage, cov.allCuts, cov.allKeys, cov.table)
    ensures cov.unique.Keys == cov.table.Keys && EdgesDistinct(cov.edges)
  {
    cov.ProgressParts(|cov.rings|);
    hide TableOk;
    hide SplitInto;
    hide Under;
  }

  // The recorded points of an edge are those it has.
  lemma RecordOf(cov: CoverageRingEdges, k: Key)
    requires cov.Progress(|cov.rings|) && k in cov.unique
    ensures cov.unique[k] in cov.edges && k in cov.table && Entry(cov.coverage, k, cov.table[k])
    ensures cov.table[k] == Record(cov.unique[k].pts, cov.unique[k].ringCount, cov.unique[k].isFreeRing)
  {
    hide *;
    InEdges(cov, k);
    var k' := EdgeRecord(cov, cov.unique[k]);
    SameKey(cov, k, k');
  }

  lemma KnowEdge(cov: CoverageRingEdges, inner: seq<CoverageEdge>, outer: seq<CoverageEdge>, k: Key, a: nat)
    requires cov.Progress(|cov.rings|) && Divided(cov.edges, inner, outer) && k in cov.unique && k in cov.table
    requires a < |inner + outer| && (inner + outer)[a] == cov.unique[k]
    ensures KnownAs(cov.coverage, k, cov.table[k], EdgeLines(inner, Coords(outer)), |inner|, a)
  {
    RecordOf(cov, k);
    EdgeIsInput(cov, cov.unique[k]);
    LineOfEdge(inner, outer, a);
    hide Entry;
    hide T.EdgeInput;
    hide Tpvw.LineOf;
    hide EdgeLines;
  }

  lemma OutputIs(after: seq<Arrangement.Line>, ls: seq<Arrangement.Line>, n: nat, tolerance: real, i: nat)
    requires T.SimplifiedUpTo(ls, after, n, tolerance) && i < n
    ensures n <= |after| && T.Outputs(after, n)[i] == Tpvw.Output(after[i])
  {
    hide Arrangement.Arranged;
  }

  // What the edges have become, when the first n lines have been simplified.
  ghost predicate Renewed(c: Coverage, table: map<Key, Record>, cur: map<Key, seq<Point>>, ls: seq<Arrangement.Line>,
                          after: seq<Arrangement.Line>, n: nat, at: map<Key, nat>) {
    && cur.Keys == table.Keys && at.Keys == table.Keys && |after| == |ls|
    && (forall k {:trigger cur[k]} :: k in table ==>
         KnownAs(c, k, table[k], ls, n, at[k]) && at[k] < |after| && cur[k] == NewPoints(table[k], after, n, at[k]))
    && (forall k, k' :: k in table && k' in table && at[k] == at[k'] ==> k == k')
  }

  lemma RenewedAt(c: Coverage, table: map<Key, Record>, cur: map<Key, seq<Point>>, ls: seq<Arrangement.Line>,
                  after: seq<Arrangement.Line>, n: nat, at: map<Key, nat>, k: Key)
    requires Renewed(c, table, cur, ls, after, n, at) && k in table
    ensures k in cur && k in at && KnownAs(c, k, table[k], ls, n, at[k]) && at[k] < |after|
    ensures cur[k] == NewPoints(table[k], after, n, at[k])
  {
    assert cur[k] == cur[k];
    hide KnownAs;
    hide NewPoints;
  }

  /** All edges are drawn by the lines, and keep what they must. */
  lemma RenewedIsDrawn(c: Coverage, table: map<Key, Record>, cur: map<Key, seq<Point>>, ls: seq<Arrangement.Line>,
                       after: seq<Arrangement.Line>, n: nat, at: map<Key, nat>, tolerance: real)
    requires Renewed(c, table, cur, ls, after, n, at) && T.SimplifiedUpTo(ls, after, n, tolerance)
    ensures Kept(table, cur) && Drawn(table, cur, after, at)
  {
    assert cur.Keys == table.Keys && at.Keys == table.Keys;
    assert forall k, k' :: k in table && k' in table && at[k] == at[k'] ==> k == k';
    hide *;
    forall k | k in table ensures DrawnAs(table[k], cur[k], after, at[k]) && KeptEdge(table[k], cur[k]) {
      RenewedAt(c, table, cur, ls, after, n, at, k);
      EdgeDrawn(c, k, table[k], ls, after, n, at[k], tolerance);
    }
    IsArranged(ls, after, n, tolerance);
    KeptAndDrawn(table, cur, after, at);
  }

  lemma IsArranged(ls: seq<Arrangement.Line>, after: seq<Arrangement.Line>, n: nat, tolerance: real)
    requires T.SimplifiedUpTo(ls, after, n, tolerance)
    ensures Arrangement.Arranged(after) && |after| == |ls|
  {
    hide Arrangement.Arranged;
  }

  lemma KeptAndDrawn(table: map<Key, Record>, cur: map<Key, seq<Point>>, after: seq<Arrangement.Line>,
                     at: map<Key, nat>)
    requires cur.Keys == table.Keys && at.Keys == table.Keys && Arrangement.Arranged(after)
    requires forall k, k' :: k in table && k' in table && at[k] == at[k'] ==> k == k'
    requires forall k :: k in table ==> DrawnAs(table[k], cur[k], after, at[k]) && KeptEdge(table[k], cur[k])
    ensures Kept(table, cur) && Drawn(table, cur, after, at)
  {
    hide Arrangement.Arranged;
    hide DrawnAs;
    hide KeptEdge;
  }

  lemma PlacesApart(unique: map<Key, CoverageEdge>, all: seq<CoverageEdge>, cov: CoverageRingEdges)
    requires cov.Progress(|cov.rings|) && unique == cov.unique && forall k :: k in unique ==> unique[k] in all
    ensures forall k, k' :: k in unique && k' in unique && Places(unique, all)[k] == Places(unique, all)[k'] ==> k == k'
  {
    forall k, k' | k in unique && k' in unique && Places(unique, all)[k] == Places(unique, all)[k'] ensures k == k' {
      SameKey(cov, k, k');
    }
  }

  /**
   Simplify the inner edges, with the outer ones as constraints: each inner edge gets the points of its
   simplified line, the outer ones keep theirs, and all lines together still touch only at fixed vertices.
   */
  method SimplifySelected(cov: CoverageRingEdges, inner: seq<CoverageEdge>, outer: seq<CoverageEdge>,
                          distanceTolerance: real)
    returns (ghost ls: seq<Arrangement.Line>, ghost after: seq<Arrangement.Line>, ghost at: map<Key, nat>)
    requires cov.Progress(|cov.rings|) && Divided(cov.edges, inner, outer) && PlanarCoverage(cov.rings)
    modifies cov.edges`pts
    ensures ls == old(EdgeLines(inner, Coords(outer))) && |ls| == |cov.table|
    ensures T.SimplifiedUpTo(ls, after, |inner|, distanceTolerance * distanceTolerance)
    ensures Renewed(cov.coverage, cov.table, CurrentPoints(cov.unique), ls, after, |inner|, at)
    ensures forall k :: k in cov.unique ==> k in at && (at[k] < |inner| <==> cov.unique[k] in inner)
    ensures AtTheirPlaces(cov.unique, inner + outer, at)
    ensures |inner| <= |after| && forall i :: 0 <= i < |inner| ==> inner[i].pts == Tpvw.Output(after[i])
    ensures forall j :: 0 <= j < |outer| ==> outer[j].pts == old(outer[j].pts)
    ensures Kept(cov.table, CurrentPoints(cov.unique)) && Drawn(cov.table, CurrentPoints(cov.unique), after, at)
    ensures forall k ::
      k in cov.unique && k in cov.table && cov.unique[k] !in inner ==> CurrentPoints(cov.unique)[k] == cov.table[k].pts
  {
    hide *;
    ghost var c, unique, table, all, n := cov.coverage, cov.unique, cov.table, inner + outer, |inner|;
    DividedParts(cov.edges, inner, outer);
    AllInputs(cov, inner);
    AllInputs(cov, outer);
    EdgeLinesArranged(cov, inner, outer);
    AllPlaced(cov, inner, outer);
    PlacesApart(unique, all, cov);
    PlacesAre(unique, all);
    at := Places(unique, all);
    ls := EdgeLines(inner, Coords(outer));
    LineCount(inner, outer);
    OneLineEach(cov, inner, outer);
    forall k | k in unique ensures KnownAs(c, k, table[k], ls, n, at[k]) && table[k].pts == unique[k].pts {
      KnowEdge(cov, inner, outer, k, at[k]);
      RecordOf(cov, k);
    }
    forall i | 0 <= i < |inner| ensures inner[i] in cov.edges { assert inner[i] in inner; }
    var constraints := CreateLines(outer);
    var lines;
    lines, after := SimplifyEdges(inner, constraints, distanceTolerance);
    IsArranged(ls, after, n, distanceTolerance * distanceTolerance);
    forall i | 0 <= i < n ensures i < |after| && inner[i].pts == Tpvw.Output(after[i]) {
      OutputIs(after, ls, n, distanceTolerance * distanceTolerance, i);
      CoordsIndex(inner, i);
    }
    forall j | 0 <= j < |outer| ensures outer[j].pts == old(outer[j].pts) { assert outer[j] in outer; }
    ghost var cur := CurrentPoints(unique);
    forall k | k in unique
      ensures k in cur && at[k] < |after| && cur[k] == NewPoints(table[k], after, n, at[k])
      ensures unique[k] !in inner ==> cur[k] == table[k].pts
      ensures at[k] < n <==> unique[k] in inner
    {
      PointsOf(unique, k);
      NewPointsAre(table[k], after, n, at[k]);
      AtPlace(inner, outer, at[k]);
      assert unique[k].pts == if at[k] < n then inner[at[k]].pts else old(unique[k].pts);
    }
    CurrentKeysAre(unique);
    RenewedFrom(c, table, cur, ls, after, n, at);
    RenewedIsDrawn(c, table, cur, ls, after, n, at, distanceTolerance * distanceTolerance);
  }

  lemma PointsOf(unique: map<Key, CoverageEdge>, k: Key)
    requires k in unique
    ensures k in CurrentPoints(unique) && CurrentPoints(unique)[k] == unique[k].pts
  {
  }

  lemma CurrentKeysAre(unique: map<Key, CoverageEdge>)
    ensures CurrentPoints(unique).Keys == unique.Keys
  {
  }

  lemma NewPointsAre(rec: Record, after: seq<Arrangement.Line>, n: nat, a: nat)
    requires a < |after|
    ensures NewPoints(rec, after, n, a) == if a < n then Tpvw.Output(after[a]) else rec.pts
  {
  }

  lemma AtPlace(inner: seq<CoverageEdge>, outer: seq<CoverageEdge>, a: nat)
    requires a < |inner + outer|
    ensures a < |inner| ==> (inner + outer)[a] == inner[a] && inner[a] in inner
    ensures a >= |inner| ==> (inner + outer)[a] in outer
    ensures a >= |inner| && (forall e :: e in outer ==> e !in inner) ==> (inner + outer)[a] !in inner
  {
  }

  lemma RenewedFrom(c: Coverage, table: map<Key, Record>, cur: map<Key, seq<Point>>, ls: seq<Arrangement.Line>,
                    after: seq<Arrangement.Line>, n: nat, at: map<Key, nat>)
    requires cur.Keys == table.Keys && at.Keys == table.Keys && |after| == |ls|
    requires forall k :: k in table ==> KnownAs(c, k, table[k], ls, n, at[k])
    requires forall k :: k in table ==> at[k] < |after| && cur[k] == NewPoints(table[k], after, n, at[k])
    requires forall k, k' :: k in table && k' in table && at[k] == at[k'] ==> k == k'
    ensures Renewed(c, table, cur, ls, after, n, at)
  {
    hide KnownAs;
    hide NewPoints;
  }

  // ---- Building the rings

  // What splitting left behind, apart from the points of the edges.
  ghost predicate SplitUp(cov: CoverageRingEdges)
    reads cov
  {
    && cov.coverage.rings == cov.rings && cov.rings == Compacted(cov.input)
    && Built(cov.coverage, cov.allCuts, cov.allKeys, cov.table) && cov.unique.Keys == cov.table.Keys
    && AllSplit(cov.coverage, |cov.rings|, cov.allCuts, cov.allKeys, cov.table, cov.parts, cov.unique)
    && MapOf(cov.input, |cov.input|, cov.ringEdgesMap, cov.parts)
    && Listed(cov.coverage, cov.allCuts, cov.allKeys, cov.table, cov.edges, cov.unique)
  }

  lemma ProgressSplits(cov: CoverageRingEdges)
    requires cov.Progress(|cov.rings|) && cov.rings == Compacted(cov.input) && cov.Mapped(|cov.input|)
    ensures SplitUp(cov) && EdgesDistinct(cov.edges)
  {
    assert MapOf(cov.input, |cov.input|, cov.ringEdgesMap, cov.parts);
    hide *;
    BuiltFrom(cov);
    cov.ProgressParts(|cov.rings|);
    SplitUpFrom(cov);
  }

  lemma SplitUpFrom(cov: CoverageRingEdges)
    requires cov.coverage.rings == cov.rings && Built(cov.coverage, cov.allCuts, cov.allKeys, cov.table)
    requires cov.unique.Keys == cov.table.Keys && cov.rings == Compacted(cov.input)
    requires AllSplit(cov.coverage, |cov.rings|, cov.allCuts, cov.allKeys, cov.table, cov.parts, cov.unique)
    requires MapOf(cov.input, |cov.input|, cov.ringEdgesMap, cov.parts)
    requires Listed(cov.coverage, cov.allCuts, cov.allKeys, cov.table, cov.edges, cov.unique)
    ensures SplitUp(cov)
  {
    hide Listed;
    hide MapOf;
    hide Built;
    hide AllSplit;
  }

  lemma RingUnder(cov: CoverageRingEdges, n: nat)
    requires SplitUp(cov) && n < |cov.rings|
    ensures |cov.allKeys| == |cov.rings| && n in cov.parts && Under(cov.parts[n], cov.allKeys[n], cov.unique)
  {
    assert AllSplit(cov.coverage, |cov.rings|, cov.allCuts, cov.allKeys, cov.table, cov.parts, cov.unique);
    hide *;
    AllSplitAt(cov.coverage, |cov.rings|, cov.allCuts, cov.allKeys, cov.table, cov.parts, cov.unique, n);
  }

  lemma PointsNow(unique: map<Key, CoverageEdge>, keys: seq<Key>, es: seq<CoverageEdge>)
    requires Under(es, keys, unique)
    ensures forall k :: k in keys ==> k in CurrentPoints(unique)
    ensures Coords(es) == PointsUnder(keys, CurrentPoints(unique))
  {
    forall k | k in keys ensures k in CurrentPoints(unique) {
      var m :| 0 <= m < |keys| && keys[m] == k;
      assert unique[keys[m]] == es[m];
    }
    forall m | 0 <= m < |keys| ensures Coords(es)[m] == PointsUnder(keys, CurrentPoints(unique))[m] {
      assert unique[keys[m]] == es[m];
    }
  }

  // The edges of ring n have the present points found under its keys.
  lemma RingPoints(cov: CoverageRingEdges, n: nat)
    requires SplitUp(cov) && n < |cov.rings|
    ensures |cov.allKeys| == |cov.rings| && n in cov.parts
    ensures forall k :: k in cov.allKeys[n] ==> k in CurrentPoints(cov.unique)
    ensures Coords(cov.parts[n]) == PointsUnder(cov.allKeys[n], CurrentPoints(cov.unique))
  {
    hide *;
    RingUnder(cov, n);
    PointsNow(cov.unique, cov.allKeys[n], cov.parts[n]);
  }

  // Ring n built from the present points of its edges.
  ghost predicate BuiltRing(cov: CoverageRingEdges, n: nat, ring: seq<Point>)
    reads cov, cov.unique.Values
  {
    && n < |cov.allKeys| && (forall k :: k in cov.allKeys[n] ==> k in CurrentPoints(cov.unique))
    && NonEmpty(PointsUnder(cov.allKeys[n], CurrentPoints(cov.unique)))
    && ring == RingNow(cov.allKeys[n], CurrentPoints(cov.unique))
  }

  lemma ReadyToBuild(cov: CoverageRingEdges, n: nat)
    requires SplitUp(cov) && n < |cov.rings| && Kept(cov.table, CurrentPoints(cov.unique))
    ensures n in cov.parts && NonEmpty(Coords(cov.parts[n]))
    ensures forall ring :: ring == Rebuilt(Coords(cov.parts[n]), |cov.parts[n]|) ==> BuiltRing(cov, n, ring)
  {
    RingPoints(cov, n);
    RingEdgesFrom(cov.coverage, cov.allCuts, cov.allKeys, cov.table, CurrentPoints(cov.unique), n);
    hide Built;
    hide AllSplit;
    hide MapOf;
    hide Kept;
    hide Rebuilt;
    hide NonEmpty;
    hide RingEdges;
  }

  // The edges recorded for an input ring, if it does not collapse, are those of its place among the rings.
  lemma PlaceOf(cov: CoverageRingEdges, n: nat)
    requires SplitUp(cov) && n < |cov.input|
    ensures n in cov.ringEdgesMap <==> !Collapsed(cov.input[n])
    ensures !Collapsed(cov.input[n]) ==>
      var m := Rank(cov.input, n);
      m < |cov.rings| && m in cov.parts && cov.ringEdgesMap[n] == cov.parts[m]
  {
    MapAt(cov.input, |cov.input|, cov.ringEdgesMap, cov.parts, n);
    CompactedAt(cov.input, n);
    hide MapOf;
    hide Rank;
    hide Collapsed;
  }

  method BuildOne(cov: CoverageRingEdges, n: nat) returns (ring: seq<Point>)
    requires SplitUp(cov) && n < |cov.input| && Kept(cov.table, CurrentPoints(cov.unique))
    ensures Collapsed(cov.input[n]) ==> ring == cov.input[n]
    ensures !Collapsed(cov.input[n]) ==> BuiltRing(cov, Rank(cov.input, n), ring)
  {
    hide *;
    PlaceOf(cov, n);
    if !Collapsed(cov.input[n]) { ReadyToBuild(cov, Rank(cov.input, n)); }
    ring := cov.BuildRing(n);
  }

  // Of the rings built, those whose input does not collapse.
  function Standing(input: seq<seq<Point>>, result: seq<seq<Point>>): seq<seq<Point>>
    requires |result| == |input|
  {
    if input == [] then []
    else
      var n := |input| - 1;
      var rest := Standing(input[..n], result[..n]);
      if Collapsed(input[n]) then rest else rest + [result[n]]
  }

  lemma StandingNone()
    ensures Standing([], []) == []
  {
  }

  lemma StandingNext(input: seq<seq<Point>>, result: seq<seq<Point>>, n: nat, ring: seq<Point>)
    requires n < |input| && |result| == n
    ensures |input[..n + 1]| == |result + [ring]|
    ensures Standing(input[..n + 1], result + [ring]) ==
      Standing(input[..n], result) + if Collapsed(input[n]) then [] else [ring]
  {
    assert input[..n + 1][..n] == input[..n] && (result + [ring])[..n] == result;
  }

  lemma {:induction false} StandingSize(input: seq<seq<Point>>, result: seq<seq<Point>>)
    requires |result| == |input|
    ensures |Standing(input, result)| == |Compacted(input)|
  {
    hide Collapsed;
    if input != [] { StandingSize(input[..|input| - 1], result[..|input| - 1]); }
  }

  /** A ring that does not collapse has its place among those that stand. */
  lemma {:induction false} StandingAt(input: seq<seq<Point>>, result: seq<seq<Point>>, n: nat)
    requires |result| == |input| && n < |input| && !Collapsed(input[n])
    ensures Rank(input, n) < |Standing(input, result)| && Standing(input, result)[Rank(input, n)] == result[n]
  {
    var l := |input| - 1;
    StandingSize(input[..l], result[..l]);
    hide Collapsed;
    if n < l {
      StandingAt(input[..l], result[..l], n);
      assert input[..l][..n] == input[..n];
    }
  }

  // A ring that collapses is copied, the others are built from their edges.
  ghost predicate BuiltFor(input: seq<seq<Point>>, allKeys: seq<seq<Key>>, cur: map<Key, seq<Point>>,
                           result: seq<seq<Point>>) {
    && |result| == |input| && (forall n :: 0 <= n < |input| && Collapsed(input[n]) ==> result[n] == input[n])
    && BuiltNow(allKeys, cur, Standing(input, result))
  }

  /** Build all rings from their edges; rings that collapse are copied. */
  method BuildCoverage(cov: CoverageRingEdges) returns (result: seq<seq<Point>>)
    requires SplitUp(cov) && Kept(cov.table, CurrentPoints(cov.unique))
    ensures BuiltFor(cov.input, cov.allKeys, CurrentPoints(cov.unique), result)
  {
    hide *;
    result := [];
    ghost var rings: seq<seq<Point>> := [];
    StandingNone();
    assert cov.input[..0] == [];
    for n := 0 to |cov.input|
      invariant |result| == n && forall i :: 0 <= i < n && Collapsed(cov.input[i]) ==> result[i] == cov.input[i]
      invariant rings == Standing(cov.input[..n], result)
      invariant forall i :: 0 <= i < |rings| ==> BuiltRing(cov, i, rings[i])
    {
      var ring := BuildOne(cov, n);
      StandingNext(cov.input, result, n, ring);
      StandingRank(cov.input, result, n);
      result := result + [ring];
      rings := rings + if Collapsed(cov.input[n]) then [] else [ring];
    }
    assert cov.input[..|cov.input|] == cov.input;
    SplitUpParts(cov);
    StandingSize(cov.input, result);
    AllBuilt(cov, rings);
    IsBuiltFor(cov.input, cov.allKeys, CurrentPoints(cov.unique), result);
  }

  lemma StandingRank(input: seq<seq<Point>>, result: seq<seq<Point>>, n: nat)
    requires n <= |input| && |result| == n
    ensures |Standing(input[..n], result)| == Rank(input, n)
  {
    StandingSize(input[..n], result);
  }

  lemma IsBuiltFor(input: seq<seq<Point>>, allKeys: seq<seq<Key>>, cur: map<Key, seq<Point>>, result: seq<seq<Point>>)
    requires |result| == |input| && forall n :: 0 <= n < |input| && Collapsed(input[n]) ==> result[n] == input[n]
    requires BuiltNow(allKeys, cur, Standing(input, result))
    ensures BuiltFor(input, allKeys, cur, result)
  {
    hide BuiltNow;
    hide Standing;
    hide Collapsed;
  }

  lemma BuiltForParts(cov: CoverageRingEdges, cur: map<Key, seq<Point>>, result: seq<seq<Point>>)
    requires BuiltFor(cov.input, cov.allKeys, cur, result) && cov.rings == Compacted(cov.input)
    ensures |result| == |cov.input| && BuiltNow(cov.allKeys, cur, Standing(cov.input, result))
    ensures |Standing(cov.input, result)| == |cov.rings|
  {
    StandingSize(cov.input, result);
    hide BuiltNow;
  }

  lemma AllBuilt(cov: CoverageRingEdges, result: seq<seq<Point>>)
    requires |result| == |cov.allKeys| && forall i :: 0 <= i < |result| ==> BuiltRing(cov, i, result[i])
    ensures BuiltNow(cov.allKeys, CurrentPoints(cov.unique), result)
  {
    hide NonEmpty;
    hide RingNow;
    hide CurrentPoints;
    var cur := CurrentPoints(cov.unique);
    forall i | 0 <= i < |result|
      ensures forall k :: k in cov.allKeys[i] ==> k in cur
      ensures NonEmpty(PointsUnder(cov.allKeys[i], cur)) && result[i] == RingNow(cov.allKeys[i], cur)
    {
      assert BuiltRing(cov, i, result[i]);
    }
  }

  // ---- The two kinds of simplification

  lemma OneOrTwo(cov: CoverageRingEdges, e: CoverageEdge)
    requires cov.Progress(|cov.rings|) && e in cov.edges
    ensures e.ringCount == 1 || e.ringCount == 2
  {
    hide *;
    var k := EdgeRecord(cov, e);
    EntryShape(cov.coverage, k, cov.table[k]);
    var s := FirstOf(e.pts);
    cov.EdgeCount(e, s);
  }

  lemma FirstOf(p: seq<Point>) returns (s: (Point, Point))
    requires |p| >= 2
    ensures s in Segments(p)
  {
    SegmentAt(p, 0);
    s := Normalized(p[0], p[1]);
  }

  lemma SelectedDivide(cov: CoverageRingEdges)
    requires cov.Progress(|cov.rings|)
    ensures Divided(cov.edges, Selected(cov.edges, 2), Selected(cov.edges, 1))
    ensures forall e :: e in cov.edges && e !in Selected(cov.edges, 2) ==> e.ringCount != 2
  {
    var inner, outer := Selected(cov.edges, 2), Selected(cov.edges, 1);
    hide Selected;
    BuiltFrom(cov);
    SelectedAre(cov.edges, 2);
    SelectedAre(cov.edges, 1);
    hide Built;
    forall e | e in cov.edges ensures e in inner || e in outer { OneOrTwo(cov, e); }
    DividedFrom(cov.edges, inner, outer);
  }

  lemma DividedFrom(edges: seq<CoverageEdge>, inner: seq<CoverageEdge>, outer: seq<CoverageEdge>)
    requires EdgesDistinct(inner) && EdgesDistinct(outer)
    requires forall e :: e in edges ==> e in inner || e in outer
    requires (forall e :: e in inner ==> e in edges) && (forall e :: e in outer ==> e in edges)
    requires forall e :: e in inner ==> e !in outer
    ensures Divided(edges, inner, outer)
  {
    var all := inner + outer;
    forall i, j | 0 <= i < j < |all| ensures all[i] != all[j] {
      if i < |inner| <= j { assert inner[i] in inner && outer[j - |inner|] in outer; }
    }
  }

  lemma AllInner(edges: seq<CoverageEdge>)
    requires EdgesDistinct(edges)
    ensures Divided(edges, edges, [])
  {
    assert edges + [] == edges;
  }

  // Which edges are simplified: all of them, or those that two rings share.
  ghost predicate Chosen(cov: CoverageRingEdges, inner: seq<CoverageEdge>, innerOnly: bool)
    reads cov
  {
    forall k :: k in cov.unique && k in cov.table ==>
      (cov.unique[k] in inner <==> !innerOnly || cov.table[k].count == 2)
  }

  // Only edges of two rings have been given other points.
  lemma ChangedInside(cov: CoverageRingEdges, inner: seq<CoverageEdge>)
    requires cov.unique.Keys == cov.table.Keys
    requires forall k ::
      k in cov.unique && k in cov.table && cov.unique[k] !in inner ==> CurrentPoints(cov.unique)[k] == cov.table[k].pts
    requires Chosen(cov, inner, true)
    ensures InnerOnly(cov.table, Original(cov.table), CurrentPoints(cov.unique))
  {
  }

  // The edges are those found under the keys.
  lemma EdgesUnique(cov: CoverageRingEdges)
    requires cov.Progress(|cov.rings|)
    ensures forall i :: 0 <= i < |cov.edges| ==> cov.edges[i] in cov.unique.Values
    ensures cov.coverage.rings == cov.rings
  {
    cov.ProgressParts(|cov.rings|);
    hide TableOk;
    hide AllSplit;
    forall i | 0 <= i < |cov.edges| ensures cov.edges[i] in cov.unique.Values {
      assert cov.edges[i] in cov.edges;
      var k :| k in cov.unique && cov.unique[k] == cov.edges[i];
    }
  }

  // A new coverage, split into edges.
  method SplitRings(input: seq<seq<Point>>) returns (cov: CoverageRingEdges)
    requires AllLinear(input) && ValidCoverage(Compacted(input))
    ensures fresh(cov) && CoverageOf(cov, input)
    ensures cov.Progress(|cov.rings|) && cov.Mapped(|input|) && Ready(cov.coverage)
    ensures forall i :: 0 <= i < |cov.edges| ==> fresh(cov.edges[i])
  {
    hide *;
    cov := new CoverageRingEdges(input);
    cov.Build();
    EdgesUnique(cov);
    IsCoverageOf(cov);
  }

  // The coverage is that of the input without repeated points, and its nodes are where they have to be.
  ghost predicate CoverageOf(cov: CoverageRingEdges, input: seq<seq<Point>>)
    reads cov
  {
    && cov.input == input && cov.rings == Compacted(input) && cov.coverage.rings == cov.rings
    && NodesAreNeeded(input, cov.coverage)
  }

  lemma IsCoverageOf(cov: CoverageRingEdges)
    requires cov.rings == Compacted(cov.input) && cov.coverage.rings == cov.rings
    requires NodesAreNeeded(cov.input, cov.coverage)
    ensures CoverageOf(cov, cov.input)
  {
  }

  lemma CoverageParts(cov: CoverageRingEdges, input: seq<seq<Point>>)
    requires CoverageOf(cov, input)
    ensures cov.input == input && cov.rings == Compacted(input) && cov.coverage.rings == cov.rings
  {
  }

  // Those of the keys whose edges have so many rings.
  function KeysWith(order: seq<Key>, table: map<Key, Record>, ringCount: nat): seq<Key> {
    if order == [] then []
    else
      var k := order[|order| - 1];
      KeysWith(order[..|order| - 1], table, ringCount) + if k in table && table[k].count == ringCount then [k] else []
  }

  // The keys of the edges in the order in which they come to the line simplifier: as they came up when the rings
  // were split, if only inner edges are simplified these before the others.
  function LineOrder(order: seq<Key>, table: map<Key, Record>, innerOnly: bool): seq<Key> {
    if innerOnly then KeysWith(order, table, 2) + KeysWith(order, table, 1) else order
  }

  // The keys of the edges in the order in which they came up.
  ghost function EdgeOrder(cov: CoverageRingEdges): seq<Key>
    requires AllParted(cov.coverage, cov.allCuts, cov.allKeys)
    reads cov
  {
    FirstSeen(AllUses(cov.coverage, cov.allCuts, cov.allKeys))
  }

  // The lines are in this order.
  ghost predicate InTurn(order: seq<Key>, at: map<Key, nat>) {
    && (forall i :: 0 <= i < |order| ==> order[i] in at && at[order[i]] == i)
    && forall k :: k in at ==> k in order
  }

  // The lines are those of the edges in the order in which these came up and no others, and have been simplified in
  // turn as far as their edges are chosen; these have the points of their lines, and the others those they had.
  ghost predicate EdgesSimplified(cov: CoverageRingEdges, cur: map<Key, seq<Point>>, innerOnly: bool, tolerance: real,
                                  ls: seq<Arrangement.Line>, after: seq<Arrangement.Line>, at: map<Key, nat>, n: nat)
    reads cov
  {
    && Renewed(cov.coverage, cov.table, cur, ls, after, n, at) && |ls| == |cov.table|
    && T.SimplifiedUpTo(ls, after, n, tolerance * tolerance)
    && AllParted(cov.coverage, cov.allCuts, cov.allKeys)
    && InTurn(LineOrder(EdgeOrder(cov), cov.table, innerOnly), at)
    && (forall k :: k in cov.table && k in at ==> (at[k] < n <==> !innerOnly || cov.table[k].count == 2))
  }

  // The edges that the rings were split into have been simplified.
  ghost predicate SimplifiedTo(cov: CoverageRingEdges, cur: map<Key, seq<Point>>, innerOnly: bool, tolerance: real)
    reads cov
  {
    SplitUp(cov) && exists ls, after, at, n: nat :: EdgesSimplified(cov, cur, innerOnly, tolerance, ls, after, at, n)
  }

  function FirstNumbers(n: nat): (r: set<nat>)
    ensures |r| == n && forall a: nat :: a in r <==> a < n
  {
    if n == 0 then {} else FirstNumbers(n - 1) + {n - 1}
  }

  // Different places, one of those there are left out, are fewer than there are.
  lemma PlacesFewer(at: map<Key, nat>, n: nat, a: nat)
    requires a < n && forall k :: k in at ==> at[k] < n && at[k] != a
    requires forall k, k' :: k in at && k' in at && at[k] == at[k'] ==> k == k'
    ensures |at| < n
  {
    ImageSize(at, at.Keys);
    SubsetSize(set k | k in at.Keys :: at[k], FirstNumbers(n) - {a});
    assert |at.Keys| == |at|;
  }

  // As many different places as there are leave none out.
  lemma PlacesFilled(at: map<Key, nat>, n: nat, a: nat) returns (k: Key)
    requires |at| == n && a < n && (forall k :: k in at ==> at[k] < n)
    requires forall k, k' :: k in at && k' in at && at[k] == at[k'] ==> k == k'
    ensures k in at && at[k] == a
  {
    if k' :| k' in at && at[k'] == a {
      k := k';
    } else {
      PlacesFewer(at, n, a);
      assert false;
    }
  }

  lemma {:induction false} ImageSize(at: map<Key, nat>, ks: set<Key>)
    requires ks <= at.Keys && forall k, k' :: k in at && k' in at && at[k] == at[k'] ==> k == k'
    ensures |set k | k in ks :: at[k]| == |ks|
  {
    if ks != {} {
      var k :| k in ks;
      ImageSize(at, ks - {k});
      assert (set k' | k' in ks :: at[k']) == (set k' | k' in ks - {k} :: at[k']) + {at[k]};
    }
  }

  /** Every line simplified, or in the way of others, is the line of an edge of the coverage. */
  lemma LinesAreEdges(cov: CoverageRingEdges, cur: map<Key, seq<Point>>, innerOnly: bool, tolerance: real,
                      ls: seq<Arrangement.Line>, after: seq<Arrangement.Line>, at: map<Key, nat>, n: nat, a: nat)
    returns (k: Key)
    requires EdgesSimplified(cov, cur, innerOnly, tolerance, ls, after, at, n) && a < |ls|
    ensures k in cov.table && k in at && at[k] == a && KnownAs(cov.coverage, k, cov.table[k], ls, n, a)
  {
    hide KnownAs;
    hide NewPoints;
    hide T.SimplifiedUpTo;
    assert at.Keys == cov.table.Keys && |at.Keys| == |at|;
    assert |cov.table.Keys| == |cov.table|;
    forall k | k in at ensures at[k] < |ls| {
      RenewedAt(cov.coverage, cov.table, cur, ls, after, n, at, k);
    }
    k := PlacesFilled(at, |ls|, a);
    RenewedAt(cov.coverage, cov.table, cur, ls, after, n, at, k);
  }

  lemma LineIsWellFormed(c: Coverage, k: Key, rec: Record, ls: seq<Arrangement.Line>, n: nat, a: nat)
    requires KnownAs(c, k, rec, ls, n, a)
    ensures a < |ls| && Arrangement.WellFormed(ls[a])
  {
    hide Entry;
    T.LineOfWellFormed(rec.pts, a < n && rec.free);
  }

  lemma SimplifiedReached(cov: CoverageRingEdges, cur: map<Key, seq<Point>>, innerOnly: bool, tolerance: real,
                          ls: seq<Arrangement.Line>, after: seq<Arrangement.Line>, at: map<Key, nat>, n: nat, k: Key)
    requires EdgesSimplified(cov, cur, innerOnly, tolerance, ls, after, at, n) && k in cov.table
    ensures n <= |ls| && T.Reached(ls, after, n, tolerance * tolerance)
    ensures k in cur && k in at && at[k] < |ls| == |after|
    ensures at[k] < n ==> cur[k] == Tpvw.Output(after[at[k]])
  {
    RenewedAt(cov.coverage, cov.table, cur, ls, after, n, at, k);
    hide KnownAs;
    hide Tpvw.Output;
  }

  /** An edge that is simplified and that no edge stands in the way of is left without small corners. */
  lemma NothingLeftOfEdge(cov: CoverageRingEdges, cur: map<Key, seq<Point>>, innerOnly: bool, tolerance: real,
                          ls: seq<Arrangement.Line>, after: seq<Arrangement.Line>, at: map<Key, nat>, n: nat, k: Key,
                          m: nat)
    requires EdgesSimplified(cov, cur, innerOnly, tolerance, ls, after, at, n) && k in cov.table && k in at
    requires at[k] < n && SmallCorners.NeverInTheWay(ls, at[k], tolerance * tolerance)
    requires Arrangement.Cuttable(after, at[k], m)
    ensures k in cur && at[k] < |after| && cur[k] == Tpvw.Output(after[at[k]])
    ensures Runs.CornerArea(after, at[k], m) > tolerance * tolerance
  {
    hide *;
    SimplifiedReached(cov, cur, innerOnly, tolerance, ls, after, at, n, k);
    forall a: nat | a < |ls| ensures Arrangement.WellFormed(ls[a]) {
      var k' := LinesAreEdges(cov, cur, innerOnly, tolerance, ls, after, at, n, a);
      LineIsWellFormed(cov.coverage, k', cov.table[k'], ls, n, a);
    }
    SmallCorners.NothingIsLeft(ls, after, n, at[k], m, tolerance * tolerance);
  }

  lemma IsSimplifiedTo(cov: CoverageRingEdges, inner: seq<CoverageEdge>, innerOnly: bool, tolerance: real,
                       ls: seq<Arrangement.Line>, after: seq<Arrangement.Line>, at: map<Key, nat>)
    requires SplitUp(cov) && Renewed(cov.coverage, cov.table, CurrentPoints(cov.unique), ls, after, |inner|, at)
    requires T.SimplifiedUpTo(ls, after, |inner|, tolerance * tolerance)
    requires forall k :: k in cov.unique ==> k in at && (at[k] < |inner| <==> cov.unique[k] in inner)
    requires Chosen(cov, inner, innerOnly) && |ls| == |cov.table|
    requires AllParted(cov.coverage, cov.allCuts, cov.allKeys)
    requires InTurn(LineOrder(EdgeOrder(cov), cov.table, innerOnly), at)
    ensures SimplifiedTo(cov, CurrentPoints(cov.unique), innerOnly, tolerance)
  {
    hide *;
    var cur := CurrentPoints(cov.unique);
    SplitUpParts(cov);
    ChosenSimplified(cov, inner, cur, innerOnly, tolerance, ls, after, at);
    IsSimplified(cov, cur, innerOnly, tolerance, ls, after, at, |inner|);
  }

  lemma IsSimplified(cov: CoverageRingEdges, cur: map<Key, seq<Point>>, innerOnly: bool, tolerance: real,
                     ls: seq<Arrangement.Line>, after: seq<Arrangement.Line>, at: map<Key, nat>, n: nat)
    requires SplitUp(cov) && EdgesSimplified(cov, cur, innerOnly, tolerance, ls, after, at, n)
    ensures SimplifiedTo(cov, cur, innerOnly, tolerance)
  {
    hide SplitUp;
    hide EdgesSimplified;
  }

  lemma SplitUpLists(cov: CoverageRingEdges)
    requires SplitUp(cov)
    ensures AllParted(cov.coverage, cov.allCuts, cov.allKeys)
    ensures cov.table == Filled(AllUses(cov.coverage, cov.allCuts, cov.allKeys))
  {
    hide Built;
    hide AllSplit;
    hide MapOf;
  }

  lemma ChosenSimplified(cov: CoverageRingEdges, inner: seq<CoverageEdge>, cur: map<Key, seq<Point>>, innerOnly: bool,
                         tolerance: real, ls: seq<Arrangement.Line>, after: seq<Arrangement.Line>, at: map<Key, nat>)
    requires cov.unique.Keys == cov.table.Keys && Renewed(cov.coverage, cov.table, cur, ls, after, |inner|, at)
    requires T.SimplifiedUpTo(ls, after, |inner|, tolerance * tolerance) && Chosen(cov, inner, innerOnly)
    requires forall k :: k in cov.unique ==> k in at && (at[k] < |inner| <==> cov.unique[k] in inner)
    requires |ls| == |cov.table| && AllParted(cov.coverage, cov.allCuts, cov.allKeys)
    requires InTurn(LineOrder(EdgeOrder(cov), cov.table, innerOnly), at)
    ensures EdgesSimplified(cov, cur, innerOnly, tolerance, ls, after, at, |inner|)
  {
    hide Renewed;
    hide T.SimplifiedUpTo;
    hide InTurn;
    hide LineOrder;
    hide AllParted;
  }

  // These are the edges under these keys, each once.
  ghost predicate Ordered(all: seq<CoverageEdge>, unique: map<Key, CoverageEdge>, order: seq<Key>) {
    && |all| == |order| && EdgesDistinct(all)
    && (forall i :: 0 <= i < |order| ==> order[i] in unique && unique[order[i]] == all[i])
    && (forall k, k' :: k in unique && k' in unique && unique[k] == unique[k'] ==> k == k')
  }

  // Edges in the order of their keys have their lines in that order.
  lemma PlacedInTurn(all: seq<CoverageEdge>, unique: map<Key, CoverageEdge>, order: seq<Key>, at: map<Key, nat>)
    requires Ordered(all, unique, order) && AtTheirPlaces(unique, all, at)
    ensures InTurn(order, at)
  {
    forall k | k in at ensures k in order {
      assert unique[order[at[k]]] == unique[k];
    }
    forall i | 0 <= i < |order| ensures order[i] in at && at[order[i]] == i {
      assert all[at[order[i]]] == all[i];
    }
  }

  lemma KeysApart(cov: CoverageRingEdges)
    requires cov.Progress(|cov.rings|)
    ensures forall k, k' :: k in cov.unique && k' in cov.unique && cov.unique[k] == cov.unique[k'] ==> k == k'
  {
    forall k, k' | k in cov.unique && k' in cov.unique && cov.unique[k] == cov.unique[k'] ensures k == k' {
      SameKey(cov, k, k');
    }
  }

  // All edges come as they were listed.
  lemma AllInOrder(cov: CoverageRingEdges)
    requires cov.Progress(|cov.rings|)
    ensures AllParted(cov.coverage, cov.allCuts, cov.allKeys)
    ensures Ordered(cov.edges + [], cov.unique, LineOrder(EdgeOrder(cov), cov.table, false))
  {
    hide *;
    cov.ProgressParts(|cov.rings|);
    var log := AllUses(cov.coverage, cov.allCuts, cov.allKeys);
    ListedParts(cov.edges, cov.unique, log);
    BuiltFrom(cov);
    KeysApart(cov);
    OrderIs(cov);
    OrderedAll(cov.edges, cov.unique, FirstSeen(log));
  }

  lemma OrderIs(cov: CoverageRingEdges)
    requires AllParted(cov.coverage, cov.allCuts, cov.allKeys)
    ensures EdgeOrder(cov) == FirstSeen(AllUses(cov.coverage, cov.allCuts, cov.allKeys))
    ensures LineOrder(EdgeOrder(cov), cov.table, false) == EdgeOrder(cov)
  {
    hide AllParted;
    hide AllUses;
    hide FirstSeen;
  }

  lemma OrderedAll(edges: seq<CoverageEdge>, unique: map<Key, CoverageEdge>, order: seq<Key>)
    requires InOrder(edges, unique, order) && EdgesDistinct(edges)
    requires forall k, k' :: k in unique && k' in unique && unique[k] == unique[k'] ==> k == k'
    ensures Ordered(edges + [], unique, order)
  {
    assert edges + [] == edges;
  }

  lemma CountsAre(cov: CoverageRingEdges)
    requires cov.Progress(|cov.rings|)
    ensures cov.unique.Keys == cov.table.Keys
    ensures forall k :: k in cov.unique ==> cov.table[k].count == cov.unique[k].ringCount
  {
    cov.ProgressParts(|cov.rings|);
    hide TableOk;
    hide AllSplit;
    hide Listed;
  }

  // Selecting edges by their count is selecting their keys.
  lemma {:induction false} SelectedInOrder(edges: seq<CoverageEdge>, unique: map<Key, CoverageEdge>, order: seq<Key>,
                                           table: map<Key, Record>, ringCount: nat)
    requires |edges| == |order| && unique.Keys == table.Keys
    requires forall i :: 0 <= i < |order| ==> order[i] in unique && unique[order[i]] == edges[i]
    requires forall k :: k in unique ==> table[k].count == unique[k].ringCount
    ensures var es, ks := Selected(edges, ringCount), KeysWith(order, table, ringCount);
      |es| == |ks| && forall i :: 0 <= i < |ks| ==> ks[i] in unique && unique[ks[i]] == es[i]
  {
    if edges != [] {
      var n := |edges| - 1;
      SelectedInOrder(edges[..n], unique, order[..n], table, ringCount);
      assert unique[order[n]] == edges[n];
    }
  }

  // Inner edges come first, in the order in which they were listed.
  lemma InnerInOrder(cov: CoverageRingEdges)
    requires cov.Progress(|cov.rings|)
    requires Divided(cov.edges, Selected(cov.edges, 2), Selected(cov.edges, 1))
    ensures AllParted(cov.coverage, cov.allCuts, cov.allKeys)
    ensures Ordered(Selected(cov.edges, 2) + Selected(cov.edges, 1), cov.unique,
                    LineOrder(EdgeOrder(cov), cov.table, true))
  {
    AllInOrder(cov);
    CountsAre(cov);
    hide CoverageRingEdges.Progress;
    assert cov.edges + [] == cov.edges;
    hide Selected;
    hide KeysWith;
    hide EdgeOrder;
    hide AllParted;
    SelectedInOrder(cov.edges, cov.unique, EdgeOrder(cov), cov.table, 2);
    SelectedInOrder(cov.edges, cov.unique, EdgeOrder(cov), cov.table, 1);
    hide Ordered;
    OrderedJoin(cov.edges, Selected(cov.edges, 2), Selected(cov.edges, 1), cov.unique, EdgeOrder(cov),
                KeysWith(EdgeOrder(cov), cov.table, 2), KeysWith(EdgeOrder(cov), cov.table, 1));
  }

  lemma OrderedJoin(edges: seq<CoverageEdge>, inner: seq<CoverageEdge>, outer: seq<CoverageEdge>,
                    unique: map<Key, CoverageEdge>, order: seq<Key>, ks: seq<Key>, ls: seq<Key>)
    requires Ordered(edges, unique, order) && Divided(edges, inner, outer) && |ks| == |inner| && |ls| == |outer|
    requires forall i :: 0 <= i < |ks| ==> ks[i] in unique && unique[ks[i]] == inner[i]
    requires forall i :: 0 <= i < |ls| ==> ls[i] in unique && unique[ls[i]] == outer[i]
    ensures Ordered(inner + outer, unique, ks + ls)
  {
  }

  lemma AllEdgesChosen(cov: CoverageRingEdges)
    requires cov.Progress(|cov.rings|)
    ensures Chosen(cov, cov.edges, false)
  {
    hide CoverageRingEdges.Progress;
    forall k | k in cov.unique && k in cov.table ensures cov.unique[k] in cov.edges { InEdges(cov, k); }
  }

  lemma TopologyOf(cov: CoverageRingEdges, after: seq<Arrangement.Line>, at: map<Key, nat>, result: seq<seq<Point>>)
    requires SplitUp(cov) && Ready(cov.coverage) && Kept(cov.table, CurrentPoints(cov.unique))
    requires Drawn(cov.table, CurrentPoints(cov.unique), after, at)
    requires |result| == |cov.rings| && BuiltNow(cov.allKeys, CurrentPoints(cov.unique), result)
    ensures cov.coverage.rings == cov.rings && SameTopology(cov.coverage, result)
    ensures Simplified(cov.coverage, cov.allCuts, cov.allKeys, cov.table, CurrentPoints(cov.unique), after, at, result)
  {
    SplitUpParts(cov);
    hide Built;
    hide Kept;
    hide Drawn;
    hide BuiltNow;
    hide AllSplit;
    hide Ready;
    assert Simplified(cov.coverage, cov.allCuts, cov.allKeys, cov.table, CurrentPoints(cov.unique), after, at, result);
    hide Simplified;
    hide SameTopology;
    TopologyKept(cov.coverage, cov.allCuts, cov.allKeys, cov.table, CurrentPoints(cov.unique), after, at, result);
  }

  lemma SplitUpParts(cov: CoverageRingEdges)
    requires SplitUp(cov)
    ensures cov.coverage.rings == cov.rings && Built(cov.coverage, cov.allCuts, cov.allKeys, cov.table)
    ensures cov.unique.Keys == cov.table.Keys && |cov.allKeys| == |cov.rings|
    ensures cov.rings == Compacted(cov.input)
  {
    hide TableOk;
    hide AllSplit;
    hide MapOf;
  }

  // Twice the signed area of rebuilt ring n, read in the direction of the input ring. A ring of three or more
  // edges has that direction; one of fewer runs as the first of its edges was stored when it was split off.
  ghost function InputSum(cov: CoverageRingEdges, n: nat, ring: seq<Point>): real
    requires n < |cov.rings| && n < |cov.allKeys|
    reads cov
  {
    var keys := cov.allKeys[n];
    if |keys| >= 3 || keys == [] || keys[0] !in cov.table then Runs.PathSum(ring)
    else Sign(cov.rings[n], cov.table[keys[0]].pts) * Runs.PathSum(ring)
  }

  ghost function InputSums(cov: CoverageRingEdges, rings: seq<seq<Point>>): (sums: seq<real>)
    requires |rings| == |cov.rings| == |cov.allKeys|
    reads cov
    ensures |sums| == |rings| && forall n :: 0 <= n < |rings| ==> sums[n] == InputSum(cov, n, rings[n])
  {
    seq(|rings|, n requires 0 <= n < |rings| && n < |cov.rings| && n < |cov.allKeys| reads cov =>
      InputSum(cov, n, rings[n]))
  }

  lemma InputSumIs(cov: CoverageRingEdges, n: nat, ring: seq<Point>)
    requires n < |cov.rings| && n < |cov.allKeys| && cov.coverage.rings == cov.rings
    requires forall k :: k in cov.allKeys[n] ==> k in Original(cov.table)
    ensures InputSum(cov, n, ring) == TurnedSum(cov.rings[n], PointsUnder(cov.allKeys[n], Original(cov.table)), ring)
  {
    var keys, olds := cov.allKeys[n], PointsUnder(cov.allKeys[n], Original(cov.table));
    if keys != [] { assert keys[0] in keys; }
    TurnIs(cov.rings[n], olds, Runs.PathSum(ring));
    hide Sign;
    hide Runs.PathSum;
  }

  /** The rebuilt rings, read in input direction, have the total area that the edges contribute. */
  lemma AreaOfRings(cov: CoverageRingEdges, rings: seq<seq<Point>>)
    requires SplitUp(cov) && Kept(cov.table, CurrentPoints(cov.unique))
    requires |rings| == |cov.rings| && BuiltNow(cov.allKeys, CurrentPoints(cov.unique), rings)
    ensures |cov.allKeys| == |cov.rings| && cov.coverage.rings == cov.rings
    ensures KeysKnown(cov.allKeys, cov.table, CurrentPoints(cov.unique))
    ensures Sum(InputSums(cov, rings)) ==
            Sum(EdgeSums(cov.coverage, cov.allKeys, cov.table, CurrentPoints(cov.unique)))
  {
    hide *;
    var c, keys, table, cur := cov.coverage, cov.allKeys, cov.table, CurrentPoints(cov.unique);
    SplitUpParts(cov);
    KeptCurrent(table, cur);
    BuiltKnows(c, cov.allCuts, keys, table, cur);
    var xs, ys := InputSums(cov, rings), EdgeSums(c, keys, table, cur);
    forall n | 0 <= n < |rings| ensures xs[n] == ys[n] {
      RingRebuilt(c, cov.allCuts, keys, table, cur, n);
      BuiltNowAt(keys, cur, rings, n);
      RingNowIs(keys[n], cur);
      InputSumIs(cov, n, rings[n]);
    }
    assert xs == ys;
  }

  // In whatever order the edges are listed, the change of the total area adds up from the changes under them.
  ghost predicate AreaChanges(cov: CoverageRingEdges, cur: map<Key, seq<Point>>, result: seq<seq<Point>>)
    reads cov
  {
    && |result| == |cov.input| && |Standing(cov.input, result)| == |cov.rings| == |cov.allKeys|
    && (forall k :: k in cov.table ==> k in cur)
    && forall order :: Lists(order, cov.table.Keys) ==>
         Sum(InputSums(cov, Standing(cov.input, result))) - Sum(Sums(cov.input)) ==
           EdgeChanges(cov.rings, cov.table, Original(cov.table), cur, order)
  }

  lemma AreaOfAll(cov: CoverageRingEdges, result: seq<seq<Point>>)
    requires SplitUp(cov) && Kept(cov.table, CurrentPoints(cov.unique))
    requires BuiltFor(cov.input, cov.allKeys, CurrentPoints(cov.unique), result)
    requires AllLinear(cov.input)
    ensures AreaChanges(cov, CurrentPoints(cov.unique), result)
  {
    var cur := CurrentPoints(cov.unique);
    hide *;
    SplitUpParts(cov);
    BuiltForParts(cov, cur, result);
    var rings := Standing(cov.input, result);
    AreaOfRings(cov, rings);
    AreasWithout(cov.input);
    KeptCurrent(cov.table, cur);
    CurrentAll(cov.table, cur);
    forall order | Lists(order, cov.table.Keys)
      ensures forall k :: k in order ==> k in cov.table && k in Original(cov.table) && k in cur
      ensures Sum(InputSums(cov, rings)) - Sum(Sums(cov.input)) ==
              EdgeChanges(cov.rings, cov.table, Original(cov.table), cur, order)
    {
      TotalChanges(cov.coverage, cov.allCuts, cov.allKeys, cov.table, cur, order);
    }
    AreaChangesFrom(cov, cur, result);
  }

  lemma CurrentAll(table: map<Key, Record>, cur: map<Key, seq<Point>>)
    requires Current(table, cur)
    ensures forall k :: k in table ==> k in cur && k in Original(table)
  {
  }

  lemma AreaChangesFrom(cov: CoverageRingEdges, cur: map<Key, seq<Point>>, result: seq<seq<Point>>)
    requires |result| == |cov.input| && |Standing(cov.input, result)| == |cov.rings| == |cov.allKeys|
    requires forall k :: k in cov.table ==> k in cur
    requires forall order :: Lists(order, cov.table.Keys) ==>
      && (forall k :: k in order ==> k in cov.table && k in Original(cov.table) && k in cur)
      && Sum(InputSums(cov, Standing(cov.input, result))) - Sum(Sums(cov.input)) ==
           EdgeChanges(cov.rings, cov.table, Original(cov.table), cur, order)
    ensures AreaChanges(cov, cur, result)
  {
    hide Sum;
    hide EdgeChanges;
    hide Standing;
  }

  // When no two rings run along a segment in the same direction, changes of inner edges change no area.
  lemma AreaOfInner(cov: CoverageRingEdges, result: seq<seq<Point>>)
    requires SplitUp(cov) && Kept(cov.table, CurrentPoints(cov.unique)) && OppositeTraversal(cov.rings)
    requires InnerOnly(cov.table, Original(cov.table), CurrentPoints(cov.unique))
    requires BuiltFor(cov.input, cov.allKeys, CurrentPoints(cov.unique), result)
    requires AllLinear(cov.input)
    ensures |result| == |cov.input| && |Standing(cov.input, result)| == |cov.rings| == |cov.allKeys|
    ensures Sum(InputSums(cov, Standing(cov.input, result))) == Sum(Sums(cov.input))
  {
    hide *;
    SplitUpParts(cov);
    BuiltForParts(cov, CurrentPoints(cov.unique), result);
    AreaOfRings(cov, Standing(cov.input, result));
    TotalConserved(cov.coverage, cov.allCuts, cov.allKeys, cov.table, CurrentPoints(cov.unique));
    AreasWithout(cov.input);
  }

  /**
   Simplify all edges of a coverage: the rings keep their nodes and meet at common ends only, as before, and the
   total signed area changes by what it changes under the edges. Rings that collapse are copied.
   */
  method Simplify(input: seq<seq<Point>>, tolerance: real) returns (result: seq<seq<Point>>, cov: CoverageRingEdges)
    requires AllLinear(input) && ValidCoverage(Compacted(input)) && PlanarCoverage(Compacted(input))
    ensures fresh(cov) && CoverageOf(cov, input)
    ensures BuiltFor(input, cov.allKeys, CurrentPoints(cov.unique), result)
    ensures SameTopology(cov.coverage, Standing(input, result))
    ensures SimplifiedTo(cov, CurrentPoints(cov.unique), false, tolerance)
    ensures AreaChanges(cov, CurrentPoints(cov.unique), result)
  {
    hide *;
    cov := SplitRings(input);
    CoverageParts(cov, input);
    ProgressSplits(cov);
    AllInner(cov.edges);
    AllEdgesChosen(cov);
    ghost var ls, after, at;
    AllInOrder(cov);
    ls, after, at := SimplifySelected(cov, cov.edges, [], tolerance);
    PlacedInTurn(cov.edges + [], cov.unique, LineOrder(EdgeOrder(cov), cov.table, false), at);
    result := BuildCoverage(cov);
    BuiltForParts(cov, CurrentPoints(cov.unique), result);
    TopologyOf(cov, after, at, Standing(input, result));
    IsSimplifiedTo(cov, cov.edges, false, tolerance, ls, after, at);
    AreaOfAll(cov, result);
  }

  /**
   Simplify the inner edges of a coverage: the same, and the boundary is unchanged. If no two rings run along a
   segment in the same direction the total signed area is what it was.
   */
  method SimplifyInner(input: seq<seq<Point>>, tolerance: real)
    returns (result: seq<seq<Point>>, cov: CoverageRingEdges)
    requires AllLinear(input) && ValidCoverage(Compacted(input)) && PlanarCoverage(Compacted(input))
    ensures fresh(cov) && CoverageOf(cov, input)
    ensures BuiltFor(input, cov.allKeys, CurrentPoints(cov.unique), result)
    ensures SameTopology(cov.coverage, Standing(input, result))
    ensures SimplifiedTo(cov, CurrentPoints(cov.unique), true, tolerance)
    ensures forall s :: SegmentRings(Standing(input, result), s) == 1 <==> SegmentRings(Compacted(input), s) == 1
    ensures AreaChanges(cov, CurrentPoints(cov.unique), result)
    ensures OppositeTraversal(cov.rings) ==> Sum(InputSums(cov, Standing(input, result))) == Sum(Sums(input))
  {
    hide *;
    cov := SplitRings(input);
    CoverageParts(cov, input);
    ProgressSplits(cov);
    SelectedDivide(cov);
    var innerEdges := SelectEdges(cov.edges, 2);
    var outerEdges := SelectEdges(cov.edges, 1);
    InnerExactly(cov);
    InnerInOrder(cov);
    ghost var ls, after, at;
    ls, after, at := SimplifySelected(cov, innerEdges, outerEdges, tolerance);
    PlacedInTurn(innerEdges + outerEdges, cov.unique, LineOrder(EdgeOrder(cov), cov.table, true), at);
    SplitUpParts(cov);
    ChangedInside(cov, innerEdges);
    result := BuildCoverage(cov);
    BuiltForParts(cov, CurrentPoints(cov.unique), result);
    ghost var rings := Standing(input, result);
    TopologyOf(cov, after, at, rings);
    forall s ensures SegmentRings(rings, s) == 1 <==> SegmentRings(Compacted(input), s) == 1 {
      BoundaryStays(cov.coverage, cov.allCuts, cov.allKeys, cov.table, CurrentPoints(cov.unique), after, at, rings, s);
    }
    AreaOfAll(cov, result);
    if OppositeTraversal(cov.rings) { AreaOfInner(cov, result); }
    IsSimplifiedTo(cov, innerEdges, true, tolerance, ls, after, at);
    AreaSizes(cov, CurrentPoints(cov.unique), result);
  }

  lemma AreaSizes(cov: CoverageRingEdges, cur: map<Key, seq<Point>>, result: seq<seq<Point>>)
    requires AreaChanges(cov, cur, result)
    ensures |result| == |cov.input| && |Standing(cov.input, result)| == |cov.rings| == |cov.allKeys|
  {
  }

  lemma PathSumStep(s: seq<Point>, p: Point)
    requires s != []
    ensures Runs.PathSum(s + [p]) == Runs.PathSum(s) + Runs.EdgeTerm(s[|s| - 1], p)
  {
    Runs.PathSumJoin(s, [p]);
  }

  // Repeated points have no area.
  lemma {:induction false} AreaWithout(ring: seq<Point>)
    ensures Runs.PathSum(Compact(ring)) == Runs.PathSum(ring)
  {
    if |ring| >= 2 {
      var n := |ring| - 1;
      var r, p := Compact(ring[..n]), ring[n];
      AreaWithout(ring[..n]);
      CompactNext(ring);
      PathSumStep(ring[..n], p);
      if ring[n - 1] != p { PathSumStep(r, p); }
      assert ring == ring[..n] + [p];
    } else {
      CompactShort(ring);
    }
  }

  lemma {:induction false} PointArea(ring: seq<Point>)
    requires forall p :: p in ring ==> p == ring[0]
    ensures Runs.PathSum(ring) == 0.0
  {
    if |ring| >= 2 {
      assert ring[1] in ring;
      assert forall p :: p in ring[1..] ==> p in ring;
      PointArea(ring[1..]);
    }
  }

  // Nor have rings that collapse.
  lemma {:induction false} AreasWithout(rings: seq<seq<Point>>)
    requires AllLinear(rings)
    ensures Sum(Sums(Compacted(rings))) == Sum(Sums(rings))
  {
    if rings != [] {
      var n := |rings| - 1;
      AreasWithout(rings[..n]);
      assert Sums(rings)[..n] == Sums(rings[..n]);
      hide Runs.PathSum;
      if Collapsed(rings[n]) {
        forall p | p in rings[n] ensures p == rings[n][0] { CollapsedIsPoint(rings[n], p); }
        PointArea(rings[n]);
      } else {
        AreaWithout(rings[n]);
        var r := Compacted(rings[..n]);
        assert Sums(Compacted(rings))[..|r|] == Sums(r);
      }
    }
  }

  // The inner edges are exactly those recorded with two rings.
  lemma InnerExactly(cov: CoverageRingEdges)
    requires cov.Progress(|cov.rings|)
    ensures Chosen(cov, Selected(cov.edges, 2), true)
  {
    hide Built;
    BuiltFrom(cov);
    SelectedAre(cov.edges, 2);
    var inner := Selected(cov.edges, 2);
    forall k | k in cov.unique && k in cov.table
      ensures cov.unique[k] in inner <==> cov.table[k].count == 2
    {
      RecordOf(cov, k);
    }
    hide Selected;
  }
}
