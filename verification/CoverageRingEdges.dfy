/** Splitting all rings of a coverage into shared edges, and building the rings again. */
module CoverageRingEdges {
  import opened Planar
  import opened CoordinateLists
  import opened CoverageRings
  import opened CoverageNodes
  import opened CoverageSections
  import opened CoverageKeys
  import opened CoverageEdges
  import opened RingSplits
  import opened RingRebuilds
  import opened EdgeTables
  import opened EdgeLogs
  import opened RepeatedPoints

  // The edges found under the keys are recorded in the table.
  ghost predicate Records(unique: map<Key, CoverageEdge>, table: map<Key, Record>)
    reads unique.Values
  {
    && unique.Keys == table.Keys
    && (forall k :: k in unique ==>
         && unique[k].pts == table[k].pts && unique[k].ringCount == table[k].count
         && unique[k].isFreeRing == table[k].free)
    && (forall k, k' :: k in unique && k' in unique && unique[k] == unique[k'] ==> k == k')
  }

  // The edges listed are those under the keys, each once, in the order in which their keys came up.
  ghost predicate EdgesListed(edges: seq<CoverageEdge>, unique: map<Key, CoverageEdge>, log: seq<Use>) {
    && |edges| == |unique| && InOrder(edges, unique, FirstSeen(log))
    && (forall i, j :: 0 <= i < j < |edges| ==> edges[i] != edges[j])
    && (forall e :: e in edges ==> exists k :: k in unique && unique[k] == e)
    && (forall k :: k in unique ==> unique[k] in edges)
  }

  ghost predicate InOrder(edges: seq<CoverageEdge>, unique: map<Key, CoverageEdge>, order: seq<Key>) {
    && |edges| == |order| && (forall k :: k in unique ==> k in order)
    && forall i :: 0 <= i < |order| ==> order[i] in unique && unique[order[i]] == edges[i]
  }

  class CoverageRingEdges {
    const input: seq<seq<Point>>
    // the rings without repeated points, those left out that collapse
    ghost const rings: seq<seq<Point>>
    var edges: seq<CoverageEdge>
    var ringEdgesMap: map<nat, seq<CoverageEdge>>
    // the edges by the place of a ring in rings
    ghost var parts: map<nat, seq<CoverageEdge>>
    // the coverage with its boundary and first nodes, and how its rings were split
    ghost var coverage: Coverage
    ghost var unique: map<Key, CoverageEdge>
    ghost var table: map<Key, Record>
    ghost var allCuts: seq<seq<nat>>
    ghost var allKeys: seq<seq<Key>>

    constructor (input: seq<seq<Point>>)
      ensures this.input == input && rings == Compacted(input) && edges == [] && ringEdgesMap == map[]
    {
      this.input := input;
      rings := Compacted(input);
      edges := [];
      ringEdgesMap, parts := map[], map[];
      coverage, unique, table, allCuts, allKeys := Coverage(rings, {}, {}), map[], map[], [], [];
    }

    // A new edge under its key, used by no ring yet.
    method AddEdge(key: Key, pts: seq<Point>, isFree: bool, uniqueEdgeMap: map<Key, CoverageEdge>,
                   ghost log: seq<Use>)
      returns (edge: CoverageEdge, unique: map<Key, CoverageEdge>)
      requires Records(uniqueEdgeMap, Filled(log)) && EdgesListed(edges, uniqueEdgeMap, log) && key !in uniqueEdgeMap
      modifies this`edges
      ensures fresh(edge) && unique == uniqueEdgeMap[key := edge]
      ensures Records(unique, Filled(log)[key := Record(pts, 0, isFree)])
      ensures EdgesListed(edges, unique, log + [Use(key, pts, isFree)])
    {
      edge := new CoverageEdge(pts, isFree);
      hide *;
      NotListed(edges, uniqueEdgeMap, log, edge);
      EdgesListedMore(edges, uniqueEdgeMap, log, Use(key, pts, isFree), edge);
      RecordsMore(uniqueEdgeMap, Filled(log), key, edge);
      edges := edges + [edge];
      unique := uniqueEdgeMap[key := edge];
    }

    // The edge found under a key, created when there is none, and counted once more.
    method CreateEdge(ring: seq<Point>, start: nat, end: nat, isFree: bool, edgeKey: Key,
                      uniqueEdgeMap: map<Key, CoverageEdge>, ghost log: seq<Use>)
      returns (edge: CoverageEdge, unique: map<Key, CoverageEdge>)
      requires |ring| >= 2 && start < |ring| && end < |ring|
      requires Records(uniqueEdgeMap, Filled(log)) && EdgesListed(edges, uniqueEdgeMap, log)
      modifies this`edges, uniqueEdgeMap.Values`ringCount
      ensures var log' := log + [Use(edgeKey, Section(ring, start, end), isFree)];
        Records(unique, Filled(log')) && EdgesListed(edges, unique, log')
      ensures edgeKey in unique && edge == unique[edgeKey] && Extends(unique, uniqueEdgeMap)
      ensures fresh(unique.Values - uniqueEdgeMap.Values)
    {
      hide Records;
      hide EdgesListed;
      hide Section;
      hide Filled;
      hide Added;
      ghost var use := Use(edgeKey, Section(ring, start, end), isFree);
      RecordsKeys(uniqueEdgeMap, Filled(log));
      if edgeKey in uniqueEdgeMap {
        edge := uniqueEdgeMap[edgeKey];
        unique := uniqueEdgeMap;
        ListedAgain(edges, unique, log, use);
      } else {
        var pts := ExtractEdgePoints(ring, start, end);
        edge, unique := AddEdge(edgeKey, pts, isFree, uniqueEdgeMap, log);
      }
      AddedIs(Filled(log), edgeKey, use.pts, isFree);
      FilledMore(log, use);
      UseOnce(edge, unique, edgeKey, Present(Filled(log), edgeKey, use.pts, isFree));
    }

    // The edge of a whole ring without nodes.
    method CreateRingEdge(ring: seq<Point>, uniqueEdgeMap: map<Key, CoverageEdge>, ghost log: seq<Use>)
      returns (edge: CoverageEdge, unique: map<Key, CoverageEdge>, ghost key: Key)
      requires SimpleRing(ring) && Records(uniqueEdgeMap, Filled(log)) && EdgesListed(edges, uniqueEdgeMap, log)
      modifies this`edges, uniqueEdgeMap.Values`ringCount
      ensures IsKey(ring, key)
      ensures var log' := log + [Use(key, ring, true)];
        Records(unique, Filled(log')) && EdgesListed(edges, unique, log')
      ensures key in unique && edge == unique[key] && Extends(unique, uniqueEdgeMap)
      ensures fresh(unique.Values - uniqueEdgeMap.Values)
    {
      hide *;
      var edgeKey := RingKey(ring);
      key := edgeKey;
      RingKeyIsKey(ring, key);
      edge, unique := CreateEdge(ring, 0, |ring| - 1, true, edgeKey, uniqueEdgeMap, log);
    }

    // The edge of the section from one node to the next.
    method CreateSectionEdge(ring: seq<Point>, start: nat, end: nat, uniqueEdgeMap: map<Key, CoverageEdge>,
                             ghost log: seq<Use>)
      returns (edge: CoverageEdge, unique: map<Key, CoverageEdge>, ghost key: Key)
      requires SimpleRing(ring) && start < |ring| - 1 && end < |ring| - 1
      requires Records(uniqueEdgeMap, Filled(log)) && EdgesListed(edges, uniqueEdgeMap, log)
      modifies this`edges, uniqueEdgeMap.Values`ringCount
      ensures IsKey(Section(ring, start, end), key)
      ensures var log' := log + [Use(key, Section(ring, start, end), false)];
        Records(unique, Filled(log')) && EdgesListed(edges, unique, log')
      ensures key in unique && edge == unique[key] && Extends(unique, uniqueEdgeMap)
      ensures fresh(unique.Values - uniqueEdgeMap.Values)
    {
      var edgeKey := SectionKeyOf(ring, start, end);
      key := edgeKey;
      hide *;
      edge, unique := CreateEdge(ring, start, end, false, edgeKey, uniqueEdgeMap, log);
    }

    // Cut a ring at its nodes into edges, shared with the rings split before.
    method CutAtNodes(ring: seq<Point>, ghost n: nat, uniqueEdgeMap: map<Key, CoverageEdge>, nodes: set<Point>,
                      ghost c: Coverage, ghost log: seq<Use>)
      returns (ringEdges: seq<CoverageEdge>, unique: map<Key, CoverageEdge>,
               ghost cuts: seq<nat>, ghost keys: seq<Key>, ghost log': seq<Use>)
      requires n < |rings| && ring == rings[n]
      requires TableOk(c, n, {}, Filled(log)) && c.rings == rings && Ready(c) && SimpleRing(rings[n])
      requires forall v :: v in rings[n] ==> (v in nodes <==> v in Nodes(c))
      requires Records(uniqueEdgeMap, Filled(log)) && EdgesListed(edges, uniqueEdgeMap, log)
      modifies this`edges, uniqueEdgeMap.Values`ringCount
      ensures Parted(c, n, cuts, keys) && log' == log + UsesOf(c, n, cuts, keys)
      ensures TableOk(c, n + 1, {}, Filled(log')) && SplitInto(c, n, cuts, keys, Filled(log'))
      ensures Records(unique, Filled(log')) && EdgesListed(edges, unique, log') && Extends(unique, uniqueEdgeMap)
      ensures Under(ringEdges, keys, unique) && fresh(unique.Values - uniqueEdgeMap.Values)
      ensures Grows(Filled(log), Filled(log'))
    {
      hide *;
      ringEdges, unique, keys, log' := [], uniqueEdgeMap, [], log;
      ghost var table := Filled(log);
      ghost var key;
      var edge;
      Unchanged(unique, table);
      var first := FindNextNodeIndex(ring, NO_COORD, nodes);
      if first == NO_COORD {
        cuts := [];
        WholeIsNext(c, n, nodes);
        BeginRing(c, n, nodes, cuts, table);
        NoneYet(c, n, cuts, log, table);
        edge, unique, key := CreateRingEdge(ring, unique, log);
        ContinueRing(c, n, cuts, keys, table, ring, true, key);
        LogMore(c, n, cuts, keys, log, log, table, ring, true, key);
        UnderMore(ringEdges, keys, uniqueEdgeMap, unique, edge, key);
        assert [] + [edge] == [edge] && [] + [key] == [key];
        log' := log + [Use(key, ring, true)];
        ringEdges, keys, table := [edge], [key], Filled(log');
      } else {
        cuts := CutsExist(ring, nodes);
        FirstCut(ring, nodes, cuts, first);
        HasNode(ring, nodes, first);
        BeginRing(c, n, nodes, cuts, table);
        NoneYet(c, n, cuts, log, table);
        var start := first;
        while true
          invariant |keys| < |cuts| && start == cuts[|keys|] && InProgress(c, n, cuts, keys, table)
          invariant Logged(c, n, cuts, keys, log, log', table) && Grows(Filled(log), table)
          invariant Records(unique, Filled(log')) && EdgesListed(edges, unique, log') && Extends(unique, uniqueEdgeMap)
          invariant Under(ringEdges, keys, unique) && fresh(unique.Values - uniqueEdgeMap.Values)
          decreases |cuts| - |keys|
        {
          CutsInside(ring, nodes, cuts, |keys|);
          var end := FindNextNodeIndex(ring, start, nodes);
          SectionIsNext(c, n, nodes, cuts, |keys|, start, end);
          ghost var was, q := unique, Section(ring, start, end);
          edge, unique, key := CreateSectionEdge(ring, start, end, unique, log');
          ContinueRing(c, n, cuts, keys, table, q, false, key);
          LogMore(c, n, cuts, keys, log, log', table, q, false, key);
          log' := log' + [Use(key, q, false)];
          GrowsOn(Filled(log), table, Filled(log'));
          ExtendsOn(uniqueEdgeMap, was, unique);
          UnderMore(ringEdges, keys, was, unique, edge, key);
          ringEdges, keys, table := ringEdges + [edge], keys + [key], Filled(log');
          start := end;
          if end == first {
            break;
          }
        }
      }
      LoggedIs(c, n, cuts, keys, log, log', table);
      FinishRing(c, n, cuts, keys, table);
    }

    /** Split ring n at its nodes into edges, shared with the rings split before; one that collapses has none. */
    method ExtractRingEdges(n: nat, ghost m: nat, uniqueEdgeMap: map<Key, CoverageEdge>, nodes: set<Point>,
                            ghost c: Coverage, ghost log: seq<Use>)
      returns (ringEdges: seq<CoverageEdge>, unique: map<Key, CoverageEdge>,
               ghost cuts: seq<nat>, ghost keys: seq<Key>, ghost log': seq<Use>)
      requires n < |input| && TableOk(c, m, {}, Filled(log)) && c.rings == rings && Ready(c)
      requires !Collapsed(input[n]) ==> m < |rings| && rings[m] == Compact(input[n]) && SimpleRing(rings[m])
      requires !Collapsed(input[n]) ==> forall v :: v in rings[m] ==> (v in nodes <==> v in Nodes(c))
      requires Records(uniqueEdgeMap, Filled(log)) && EdgesListed(edges, uniqueEdgeMap, log)
      modifies this`edges, uniqueEdgeMap.Values`ringCount
      ensures Collapsed(input[n]) ==> ringEdges == [] && unique == uniqueEdgeMap && log' == log
      ensures !Collapsed(input[n]) ==> Parted(c, m, cuts, keys) && log' == log + UsesOf(c, m, cuts, keys)
      ensures !Collapsed(input[n]) ==>
        && TableOk(c, m + 1, {}, Filled(log')) && SplitInto(c, m, cuts, keys, Filled(log'))
        && Under(ringEdges, keys, unique)
      ensures Grows(Filled(log), Filled(log')) && Extends(unique, uniqueEdgeMap)
      ensures Records(unique, Filled(log')) && EdgesListed(edges, unique, log')
      ensures fresh(unique.Values - uniqueEdgeMap.Values)
    {
      hide *;
      CollapsedMeans(input[n]);
      Unchanged(uniqueEdgeMap, Filled(log));
      var pts := RemoveRepeatedPoints(input[n]);
      if |pts| < 3 {
        ringEdges, unique, cuts, keys, log' := [], uniqueEdgeMap, [], [], log;
      } else {
        ringEdges, unique, cuts, keys, log' := CutAtNodes(pts, m, uniqueEdgeMap, nodes, c, log);
      }
    }

    // The edges of the input rings are those of their places among the rings.
    ghost predicate Mapped(n: nat)
      reads this
    {
      MapOf(input, n, ringEdgesMap, parts)
    }

    // The first n rings have been split.
    ghost predicate Progress(n: nat)
      reads this, unique.Values
    {
      && coverage.rings == rings && TableOk(coverage, n, {}, table)
      && Records(unique, table) && Listed(coverage, allCuts, allKeys, table, edges, unique)
      && AllSplit(coverage, n, allCuts, allKeys, table, parts, unique)
    }

    // The first n rings of the input have been split, and the nodes are those known then.
    ghost predicate SplitUpTo(n: nat, nodes: set<Point>, boundarySegs: set<(Point, Point)>)
      reads this, unique.Values
    {
      && n <= |input| && rings == Compacted(input) && Mapped(n) && Ready(coverage)
      && Progress(Rank(input, n)) && NodesAfter(coverage, Rank(input, n), nodes)
      && FoundNodes(input, boundarySegs, coverage)
    }

    lemma SplitUpToParts(n: nat, nodes: set<Point>, boundarySegs: set<(Point, Point)>)
      requires SplitUpTo(n, nodes, boundarySegs)
      ensures n <= |input| && rings == Compacted(input) && MapOf(input, n, ringEdgesMap, parts) && Ready(coverage)
      ensures Progress(Rank(input, n)) && NodesAfter(coverage, Rank(input, n), nodes)
      ensures FoundNodes(input, boundarySegs, coverage)
    {
      hide Progress;
      hide MapOf;
    }

    lemma SplitUpToFrom(n: nat, nodes: set<Point>, boundarySegs: set<(Point, Point)>)
      requires n <= |input| && rings == Compacted(input) && MapOf(input, n, ringEdgesMap, parts) && Ready(coverage)
      requires Progress(Rank(input, n)) && NodesAfter(coverage, Rank(input, n), nodes)
      requires FoundNodes(input, boundarySegs, coverage)
      ensures SplitUpTo(n, nodes, boundarySegs)
    {
      hide Progress;
      hide MapOf;
    }

    // Record the edges of a ring that was split.
    method StoreRing(n: nat, ringEdges: seq<CoverageEdge>, ghost m: nat, ghost unique': map<Key, CoverageEdge>,
                     ghost log': seq<Use>, ghost cuts: seq<nat>, ghost keys: seq<Key>)
      requires n < |input| && !Collapsed(input[n]) && m == Rank(input, n) && MapOf(input, n, ringEdgesMap, parts)
      requires AllSplit(coverage, m, allCuts, allKeys, table, parts, unique)
      requires coverage.rings == rings && TableOk(coverage, m + 1, {}, Filled(log')) && Records(unique', Filled(log'))
      requires AllParted(coverage, allCuts, allKeys) && Parted(coverage, m, cuts, keys)
      requires log' == AllUses(coverage, allCuts, allKeys) + UsesOf(coverage, m, cuts, keys)
      requires EdgesListed(edges, unique', log') && Grows(table, Filled(log')) && Extends(unique', unique)
      requires SplitInto(coverage, m, cuts, keys, Filled(log')) && Under(ringEdges, keys, unique')
      modifies this`ringEdgesMap, this`parts, this`unique, this`table, this`allCuts, this`allKeys
      ensures Progress(m + 1) && MapOf(input, n + 1, ringEdgesMap, parts) && unique == unique'
    {
      hide *;
      ghost var table' := Filled(log');
      SplitLengths(coverage, m, allCuts, allKeys, table, parts, unique);
      AllUsesMore(coverage, allCuts, allKeys, cuts, keys);
      ListedFrom(coverage, allCuts + [cuts], allKeys + [keys], log', edges, unique');
      NonEmptySplit(coverage, m, cuts, keys, table', ringEdges, unique');
      AllSplitMore(coverage, m, allCuts, allKeys, table, table', parts, unique, unique', cuts, keys, ringEdges);
      MapMore(input, n, ringEdgesMap, parts, ringEdges);
      if |ringEdges| > 0 {
        ringEdgesMap := ringEdgesMap[n := ringEdges];
      }
      parts := parts[m := ringEdges];
      unique, table := unique', table';
      allCuts, allKeys := allCuts + [cuts], allKeys + [keys];
      ProgressFrom(m + 1);
    }

    // Split one ring, after adding to the nodes the vertices where it turns inward.
    method AddRingEdges(n: nat, nodes: set<Point>, boundarySegs: set<(Point, Point)>,
                        uniqueEdgeMap: map<Key, CoverageEdge>)
      returns (nodes': set<Point>, uniqueEdgeMap': map<Key, CoverageEdge>)
      requires n < |input| && input[n] != [] && SplitUpTo(n, nodes, boundarySegs) && uniqueEdgeMap == unique
      modifies this, unique.Values`ringCount
      ensures coverage == old(coverage) && SplitUpTo(n + 1, nodes', boundarySegs)
      ensures uniqueEdgeMap' == unique && fresh(unique.Values - old(unique.Values))
    {
      hide *;
      SplitUpToParts(n, nodes, boundarySegs);
      ghost var m := Rank(input, n);
      ProgressParts(m);
      RankNext(input, n);
      NodesOnRing(input, boundarySegs, coverage, n, nodes);
      nodes' := AddBoundaryInnerNodes(input[n], boundarySegs, nodes);
      ghost var log := AllUses(coverage, allCuts, allKeys);
      ghost var cuts, keys, log';
      var ringEdges;
      if Collapsed(input[n]) {
        ringEdges, uniqueEdgeMap', cuts, keys, log' := ExtractRingEdges(n, m, uniqueEdgeMap, nodes', coverage, log);
        MapSkip(input, n, ringEdgesMap, parts);
        ProgressFrom(m);
      } else {
        NodesNext(coverage, m, nodes, nodes');
        ringEdges, uniqueEdgeMap', cuts, keys, log' := ExtractRingEdges(n, m, uniqueEdgeMap, nodes', coverage, log);
        StoreRing(n, ringEdges, m, uniqueEdgeMap', log', cuts, keys);
      }
      SplitUpToFrom(n + 1, nodes', boundarySegs);
    }

    lemma ProgressParts(n: nat)
      requires Progress(n)
      ensures coverage.rings == rings && TableOk(coverage, n, {}, table) && Records(unique, table)
      ensures Listed(coverage, allCuts, allKeys, table, edges, unique)
      ensures AllParted(coverage, allCuts, allKeys) && table == Filled(AllUses(coverage, allCuts, allKeys))
      ensures EdgesListed(edges, unique, AllUses(coverage, allCuts, allKeys))
      ensures AllSplit(coverage, n, allCuts, allKeys, table, parts, unique)
    {
    }

    lemma ProgressFrom(n: nat)
      requires coverage.rings == rings && TableOk(coverage, n, {}, table) && Records(unique, table)
      requires Listed(coverage, allCuts, allKeys, table, edges, unique)
      requires AllSplit(coverage, n, allCuts, allKeys, table, parts, unique)
      ensures Progress(n)
    {
    }

    // Split the rings one after another, the nodes growing on the way; empty ones are skipped.
    method SplitRings(first: set<Point>, boundarySegs: set<(Point, Point)>)
      requires SplitUpTo(0, first, boundarySegs) && unique == map[]
      modifies this
      ensures coverage == old(coverage) && Progress(|rings|) && Mapped(|input|) && fresh(unique.Values)
    {
      hide *;
      var nodes := first;
      var uniqueEdgeMap: map<Key, CoverageEdge> := map[];
      var n := 0;
      while n < |input|
        invariant 0 <= n <= |input| && coverage == old(coverage)
        invariant SplitUpTo(n, nodes, boundarySegs) && uniqueEdgeMap == unique && fresh(unique.Values)
      {
        if input[n] != [] {
          nodes, uniqueEdgeMap := AddRingEdges(n, nodes, boundarySegs, uniqueEdgeMap);
        } else {
          SkipEmpty(n, nodes, boundarySegs);
        }
        n := n + 1;
      }
      AllDone(nodes, boundarySegs);
    }

    lemma SkipEmpty(n: nat, nodes: set<Point>, boundarySegs: set<(Point, Point)>)
      requires n < |input| && input[n] == [] && SplitUpTo(n, nodes, boundarySegs)
      ensures SplitUpTo(n + 1, nodes, boundarySegs)
    {
      CollapsedMeans(input[n]);
      CompactShort(input[n]);
      hide *;
      SplitUpToParts(n, nodes, boundarySegs);
      RankNext(input, n);
      MapSkip(input, n, ringEdgesMap, parts);
      SplitUpToFrom(n + 1, nodes, boundarySegs);
    }

    lemma AllDone(nodes: set<Point>, boundarySegs: set<(Point, Point)>)
      requires SplitUpTo(|input|, nodes, boundarySegs)
      ensures Progress(|rings|) && Mapped(|input|)
    {
      hide Progress;
      hide MapOf;
      assert input[..|input|] == input;
    }

    /** Split all rings. */
    method Build()
      requires rings == Compacted(input) && AllLinear(input) && ValidCoverage(rings)
      requires edges == [] && ringEdgesMap == map[]
      modifies this
      ensures Ready(coverage) && Progress(|rings|) && Mapped(|input|) && fresh(unique.Values)
      ensures NodesAreNeeded(input, coverage)
    {
      hide *;
      var nodes, boundarySegs := FindNodes(input);
      FoundAreNeeded(input, boundarySegs, Coverage(rings, Proper(boundarySegs), nodes));
      coverage := Coverage(rings, Proper(boundarySegs), nodes);
      NothingSplit(coverage);
      MapNone(input);
      unique, table, allCuts, allKeys, parts := map[], map[], [], [], map[];
      ProgressFrom(0);
      SplitUpToFrom(0, nodes, boundarySegs);
      SplitRings(nodes, boundarySegs);
    }

    // Whether edge index is to be read forward.
    method EdgeDirForward(ringEdges: seq<CoverageEdge>, index: nat, pts: seq<Point>) returns (isForward: bool)
      requires index < |ringEdges| && NonEmpty(Coords(ringEdges)) && (index > 0 ==> pts != [])
      ensures isForward == IsEdgeDirForward(Coords(ringEdges), index, pts)
    {
      CoordsAt(ringEdges, index);
      var size := |ringEdges|;
      if size <= 1 {
        return true;
      }
      if index == 0 {
        if size == 2 {
          return true;
        }
        CoordsAt(ringEdges, 1);
        var endPt0 := ringEdges[0].pts[|ringEdges[0].pts| - 1];
        return endPt0 == ringEdges[1].pts[0] || endPt0 == ringEdges[1].pts[|ringEdges[1].pts| - 1];
      }
      return pts[|pts| - 1] == ringEdges[index].pts[0];
    }

    /** Build ring n from its edges; a ring that was not split is copied. */
    method BuildRing(n: nat) returns (pts: seq<Point>)
      requires n < |input| && (n in ringEdgesMap ==> NonEmpty(Coords(ringEdgesMap[n])))
      ensures n !in ringEdgesMap ==> pts == input[n]
      ensures n in ringEdgesMap ==> pts == Rebuilt(Coords(ringEdgesMap[n]), |ringEdgesMap[n]|)
    {
      if n !in ringEdgesMap {
        return input[n];
      }
      hide *;
      var ringEdges := ringEdgesMap[n];
      pts := [];
      RebuiltNone(Coords(ringEdges));
      var i := 0;
      while i < |ringEdges|
        invariant 0 <= i <= |ringEdges| && pts == Rebuilt(Coords(ringEdges), i)
      {
        var isForward := EdgeDirForward(ringEdges, i, pts);
        CoordsAt(ringEdges, i);
        RebuiltMore(Coords(ringEdges), i);
        pts := AddAll(pts, Directed(ringEdges[i].pts, isForward));
        i := i + 1;
      }
    }

    // ---- What the split coverage means

    /** An edge is used by as many rings as have its segments: by one when it is on the boundary, otherwise by two. */
    lemma EdgeCount(e: CoverageEdge, s: (Point, Point))
      requires Progress(|rings|) && e in edges && s in Segments(e.pts)
      ensures e.ringCount == SegmentRings(rings, s)
      ensures e.ringCount == 1 || e.ringCount == 2
      ensures e.ringCount == 1 <==> s in coverage.boundary
    {
      hide TableOk;
      hide Segments;
      hide AllSplit;
      hide SegmentRings;
      var k :| k in unique && unique[k] == e;
      FinalCount(coverage, table, k, s);
    }

    /** Different edges have no segment in common. */
    lemma EdgesApart(e: CoverageEdge, f: CoverageEdge)
      requires Progress(|rings|) && e in edges && f in edges && e != f
      ensures Segments(e.pts) * Segments(f.pts) == {}
    {
      hide AllSplit;
      hide Segments;
      hide Counted;
      hide RingsCovered;
      hide EdgeOf;
      hide Ready;
      var k :| k in unique && unique[k] == e;
      var k' :| k' in unique && unique[k'] == f;
      assert Entry(coverage, k, table[k]) && Entry(coverage, k', table[k']);
      var i := EntryRing(coverage, k, table[k]);
      var j := EntryRing(coverage, k', table[k']);
      SameKeySameSegments(coverage, i, j, table[k].pts, table[k'].pts, k, k');
    }

    /** The edges of a ring are its parts between nodes, in ring order, each in one direction or the other. */
    lemma RingStored(n: nat)
      requires Progress(|rings|) && n < |rings|
      ensures SimpleRing(rings[n]) && |allCuts| > n && Rising(rings[n], allCuts[n]) && n in parts
      ensures Stored(rings[n], allCuts[n], Coords(parts[n]))
      ensures NonEmpty(Coords(parts[n]))
      ensures allCuts[n] == [] ==> |parts[n]| == 1 && SimpleRing(Coords(parts[n])[0])
    {
      ProgressParts(|rings|);
      TableEntries(coverage, |rings|, {}, table);
      hide *;
      AllSplitAt(coverage, |rings|, allCuts, allKeys, table, parts, unique, n);
      var ringEdges := parts[n];
      SplitCuts(coverage, n, allCuts[n], allKeys[n], table);
      UnderLength(ringEdges, allKeys[n], unique);
      forall m | 0 <= m < |ringEdges|
        ensures Coords(ringEdges)[m] != []
        ensures SameEdge(Pieces(rings[n], allCuts[n])[m], Coords(ringEdges)[m], allCuts[n] == [])
        ensures allCuts[n] == [] ==> SimpleRing(Coords(ringEdges)[m])
      {
        UnderAt(ringEdges, allKeys[n], unique, table, m);
        StoredPart(coverage, n, allCuts[n], allKeys[n], table, m);
      }
      StoredFrom(rings[n], allCuts[n], Coords(ringEdges));
    }

    /** Built again with the edges as they are, every ring comes back as the cycle it was but for repeated points. */
    lemma RingComesBack(n: nat)
      requires Progress(|rings|) && Mapped(|input|) && rings == Compacted(input)
      requires n < |input| && !Collapsed(input[n])
      ensures n in ringEdgesMap && NonEmpty(Coords(ringEdgesMap[n])) && SimpleRing(Compact(input[n]))
      ensures SameCycle(Compact(input[n]), Rebuilt(Coords(ringEdgesMap[n]), |ringEdgesMap[n]|))
      ensures |ringEdgesMap[n]| >= 3 ==>
        Rotated(Compact(input[n]), Rebuilt(Coords(ringEdgesMap[n]), |ringEdgesMap[n]|))
    {
      MapAt(input, |input|, ringEdgesMap, parts, n);
      hide *;
      CompactedAt(input, n);
      var m := Rank(input, n);
      RingStored(m);
      RoundTrip(rings[m], allCuts[m], Coords(parts[m]));
    }
  }

  // The edges recorded for the first n rings are those of their places; a ring that collapses has none.
  ghost predicate MapOf(input: seq<seq<Point>>, n: nat, ringEdges: map<nat, seq<CoverageEdge>>,
                        parts: map<nat, seq<CoverageEdge>>) {
    && n <= |input|
    && (forall k :: k in ringEdges ==> k < n && !Collapsed(input[k]))
    && (forall k: nat :: k < n && !Collapsed(input[k]) ==>
          k in ringEdges && Rank(input, k) in parts && ringEdges[k] == parts[Rank(input, k)])
  }

  lemma MapNone(input: seq<seq<Point>>)
    ensures MapOf(input, 0, map[], map[]) && Rank(input, 0) == 0
  {
  }

  lemma MapAt(input: seq<seq<Point>>, n: nat, ringEdges: map<nat, seq<CoverageEdge>>,
              parts: map<nat, seq<CoverageEdge>>, k: nat)
    requires MapOf(input, n, ringEdges, parts) && k < n
    ensures k in ringEdges <==> !Collapsed(input[k])
    ensures k in ringEdges ==> Rank(input, k) in parts && ringEdges[k] == parts[Rank(input, k)]
  {
  }

  lemma MapSkip(input: seq<seq<Point>>, n: nat, ringEdges: map<nat, seq<CoverageEdge>>,
                parts: map<nat, seq<CoverageEdge>>)
    requires MapOf(input, n, ringEdges, parts) && n < |input| && Collapsed(input[n])
    ensures MapOf(input, n + 1, ringEdges, parts)
  {
    hide Collapsed;
    hide Rank;
  }

  lemma MapMore(input: seq<seq<Point>>, n: nat, ringEdges: map<nat, seq<CoverageEdge>>,
                parts: map<nat, seq<CoverageEdge>>, es: seq<CoverageEdge>)
    requires MapOf(input, n, ringEdges, parts) && n < |input| && !Collapsed(input[n])
    ensures MapOf(input, n + 1, ringEdges[n := es], parts[Rank(input, n) := es])
  {
    hide Collapsed;
    hide Rank;
    forall k: nat | k < n && !Collapsed(input[k]) ensures Rank(input, k) != Rank(input, n) {
      RankNext(input, k);
      RankGrows(input, k + 1, n);
    }
  }

  lemma CollapsedMeans(ring: seq<Point>)
    ensures Collapsed(ring) <==> |Compact(ring)| < 3
  {
  }

  lemma AllSplitAt(c: Coverage, n: nat, cuts: seq<seq<nat>>, keys: seq<seq<Key>>, table: map<Key, Record>,
                   ringEdges: map<nat, seq<CoverageEdge>>, unique: map<Key, CoverageEdge>, i: nat)
    requires AllSplit(c, n, cuts, keys, table, ringEdges, unique) && i < n
    ensures |cuts| == |keys| == n && i in ringEdges
    ensures SplitInto(c, i, cuts[i], keys[i], table) && Under(ringEdges[i], keys[i], unique)
  {
    assert SplitInto(c, i, cuts[i], keys[i], table);
  }

  lemma UnderLength(ringEdges: seq<CoverageEdge>, keys: seq<Key>, unique: map<Key, CoverageEdge>)
    requires Under(ringEdges, keys, unique)
    ensures |ringEdges| == |keys|
  {
  }

  lemma UnderAt(ringEdges: seq<CoverageEdge>, keys: seq<Key>, unique: map<Key, CoverageEdge>, table: map<Key, Record>,
                m: nat)
    requires Under(ringEdges, keys, unique) && Records(unique, table) && m < |ringEdges|
    ensures m < |keys| && keys[m] in table && Coords(ringEdges)[m] == table[keys[m]].pts
  {
    assert unique[keys[m]] == ringEdges[m];
  }

  // The boundary segments and first nodes of a coverage are those found on the rings with their repeats.
  ghost predicate FoundNodes(input: seq<seq<Point>>, segs: set<(Point, Point)>, c: Coverage) {
    SimpleApart(input) && FirstNodes(input, segs, c.first) && c.rings == Compacted(input) && c.boundary == Proper(segs)
  }

  // There are no nodes at first but those that splitting calls for and repeated points.
  ghost predicate NodesAreNeeded(input: seq<seq<Point>>, c: Coverage) {
    forall v :: v in c.first <==>
      VertexRings(c.rings, v) > 2 || |Touching(c.boundary, v)| > 2 || RepeatsSomewhere(input, v)
  }

  lemma FoundAreNeeded(input: seq<seq<Point>>, segs: set<(Point, Point)>, c: Coverage)
    requires FoundNodes(input, segs, c)
    ensures NodesAreNeeded(input, c)
  {
    forall v ensures v in c.first <==>
      VertexRings(c.rings, v) > 2 || |Touching(c.boundary, v)| > 2 || RepeatsSomewhere(input, v)
    {
      FirstNodesExactly(input, segs, c.first, v);
    }
  }

  // On the next ring it makes no difference whether the nodes are looked for with its repeats.
  lemma NodesOnRing(input: seq<seq<Point>>, segs: set<(Point, Point)>, c: Coverage, n: nat, nodes: set<Point>)
    requires FoundNodes(input, segs, c) && n < |input| && NodesAfter(c, Rank(input, n), nodes) && input[n] != []
    ensures |input[n]| >= 2
    ensures Collapsed(input[n]) ==> nodes + Transitions(input[n], segs) == nodes
    ensures var m := Rank(input, n); !Collapsed(input[n]) ==>
      && m < |c.rings| && c.rings[m] == Compact(input[n]) && SimpleRing(c.rings[m])
      && nodes + Transitions(input[n], segs) == nodes + Transitions(c.rings[m], c.boundary)
  {
    CompactedAt(input, n);
    FirstAmong(c, Rank(input, n), nodes);
    if Collapsed(input[n]) {
      CollapsedTurnsNowhere(input[n], segs);
    } else {
      TransitionsAlike(input, segs, c.first, nodes, n);
    }
    hide Transitions;
  }

  lemma FirstAmong(c: Coverage, n: nat, nodes: set<Point>)
    requires NodesAfter(c, n, nodes)
    ensures c.first <= nodes
  {
  }

  // The nodes known before any ring is split, and the boundary segments.
  method FindNodes(input: seq<seq<Point>>) returns (nodes: set<Point>, boundarySegs: set<(Point, Point)>)
    requires AllLinear(input) && ValidCoverage(Compacted(input))
    ensures var c := Coverage(Compacted(input), Proper(boundarySegs), nodes);
      FoundNodes(input, boundarySegs, c) && Ready(c) && NodesAfter(c, 0, nodes)
  {
    nodes := FindMultiRingNodes(input);
    boundarySegs := FindBoundarySegments(input);
    var boundaryNodes := FindBoundaryNodes(boundarySegs);
    ghost var multi := nodes;
    nodes := nodes + boundaryNodes;
    hide *;
    FoundFirst(input, boundarySegs, multi, boundaryNodes);
    IsReady(Coverage(Compacted(input), Proper(boundarySegs), nodes));
  }

  lemma FoundFirst(input: seq<seq<Point>>, segs: set<(Point, Point)>, multi: set<Point>, meeting: set<Point>)
    requires AllLinear(input) && ValidCoverage(Compacted(input)) && IsOddSet(input, segs)
    requires forall v :: v in multi <==> TotalUses(input, v) > 2
    requires forall v :: v in meeting <==> Ends(segs, v) > 2
    ensures FoundNodes(input, segs, Coverage(Compacted(input), Proper(segs), multi + meeting))
    ensures Setting(Compacted(input), Proper(segs), multi + meeting)
  {
    CompactedApart(input);
    hide ValidCoverage;
    hide IsOddSet;
    hide Ends;
    hide TotalUses;
    assert FirstNodes(input, segs, multi + meeting);
    FirstNodesSuffice(input, segs, multi + meeting);
  }

  lemma IsReady(c: Coverage)
    requires Setting(c.rings, c.boundary, c.first)
    ensures Ready(c) && NodesAfter(c, 0, c.first)
  {
  }

  lemma NothingSplit(c: Coverage)
    requires Ready(c)
    ensures TableOk(c, 0, {}, map[]) && Records(map[], map[]) && Listed(c, [], [], map[], [], map[])
    ensures AllSplit(c, 0, [], [], map[], map[], map[])
  {
  }

  ghost function Coords(ringEdges: seq<CoverageEdge>): (coords: seq<seq<Point>>)
    reads ringEdges
    ensures |coords| == |ringEdges| && forall i :: 0 <= i < |coords| ==> coords[i] == ringEdges[i].pts
  {
    seq(|ringEdges|, i requires 0 <= i < |ringEdges| reads ringEdges => ringEdges[i].pts)
  }

  lemma CoordsAt(ringEdges: seq<CoverageEdge>, i: nat)
    requires i < |ringEdges| && NonEmpty(Coords(ringEdges))
    ensures Coords(ringEdges)[i] == ringEdges[i].pts && ringEdges[i].pts != [] && ringEdges[0].pts != []
  {
    assert Coords(ringEdges)[0] != [];
  }

  lemma RebuiltNone(coords: seq<seq<Point>>)
    requires NonEmpty(coords)
    ensures Rebuilt(coords, 0) == []
  {
  }

  lemma RebuiltMore(coords: seq<seq<Point>>, m: nat)
    requires m < |coords| && NonEmpty(coords)
    ensures (m > 0 ==> Rebuilt(coords, m) != []) && coords[m] != []
    ensures Rebuilt(coords, m + 1) ==
      AddAll(Rebuilt(coords, m), Directed(coords[m], IsEdgeDirForward(coords, m, Rebuilt(coords, m))))
  {
  }

  // The nodes when n rings have been split.
  ghost function NodesUpTo(c: Coverage, n: nat): set<Point>
    requires Ready(c) && n <= |c.rings|
  {
    c.first + AllTransitions(c.rings[..n], c.boundary)
  }

  ghost predicate NodesAfter(c: Coverage, n: nat, nodes: set<Point>) {
    Ready(c) && n <= |c.rings| && nodes == NodesUpTo(c, n)
  }

  lemma NodesUpToNext(c: Coverage, n: nat)
    requires Ready(c) && n < |c.rings|
    ensures SimpleRing(c.rings[n]) && NodesUpTo(c, n + 1) == NodesUpTo(c, n) + Transitions(c.rings[n], c.boundary)
  {
    assert SimpleRing(c.rings[n]);
    assert c.rings[..n + 1][..n] == c.rings[..n];
    hide Ready;
    hide SimpleRing;
    hide Transitions;
  }

  lemma NodeIsFinal(c: Coverage, n: nat, v: Point)
    requires Ready(c) && n < |c.rings| && v in c.rings[n]
    ensures v in Nodes(c) <==> v in NodesUpTo(c, n + 1)
  {
    NodesAreFinal(c.rings, c.boundary, c.first, n, v);
  }

  lemma NodesNext(c: Coverage, n: nat, nodes: set<Point>, nodes': set<Point>)
    requires Ready(c) && NodesAfter(c, n, nodes) && n < |c.rings| && SimpleRing(c.rings[n])
    requires nodes' == nodes + Transitions(c.rings[n], c.boundary)
    ensures NodesAfter(c, n + 1, nodes')
    ensures forall v :: v in c.rings[n] ==> (v in nodes' <==> v in Nodes(c))
  {
    hide Ready;
    hide SimpleRing;
    hide NodesUpTo;
    hide Nodes;
    NodesUpToNext(c, n);
    forall v | v in c.rings[n] ensures v in nodes' <==> v in Nodes(c) {
      NodeIsFinal(c, n, v);
    }
  }

  // The first n rings have been split into edges found under their keys.
  ghost predicate AllSplit(c: Coverage, n: nat, cuts: seq<seq<nat>>, keys: seq<seq<Key>>, table: map<Key, Record>,
                           ringEdges: map<nat, seq<CoverageEdge>>, unique: map<Key, CoverageEdge>) {
    && |cuts| == |keys| == n
    && forall i {:trigger cuts[i]} :: 0 <= i < n ==>
         SplitInto(c, i, cuts[i], keys[i], table) && i in ringEdges && Under(ringEdges[i], keys[i], unique)
  }

  lemma UnderKept(ringEdges: seq<CoverageEdge>, keys: seq<Key>, unique: map<Key, CoverageEdge>,
                  unique': map<Key, CoverageEdge>)
    requires Under(ringEdges, keys, unique) && Extends(unique', unique)
    ensures Under(ringEdges, keys, unique')
  {
  }

  lemma SplitIntoKept(c: Coverage, i: nat, cuts: seq<nat>, keys: seq<Key>, table: map<Key, Record>,
                      table': map<Key, Record>)
    requires SplitInto(c, i, cuts, keys, table) && Grows(table, table')
    ensures SplitInto(c, i, cuts, keys, table')
  {
    SplitKept(c, i, cuts, keys, table, table');
    hide SplitSome;
  }

  lemma AllSplitMore(c: Coverage, n: nat, allCuts: seq<seq<nat>>, allKeys: seq<seq<Key>>, table: map<Key, Record>,
                     table': map<Key, Record>,
                     map0: map<nat, seq<CoverageEdge>>, unique: map<Key, CoverageEdge>, unique': map<Key, CoverageEdge>,
                     cuts: seq<nat>, keys: seq<Key>, ringEdges: seq<CoverageEdge>)
    requires AllSplit(c, n, allCuts, allKeys, table, map0, unique) && Grows(table, table') && Extends(unique', unique)
    requires SplitInto(c, n, cuts, keys, table') && Under(ringEdges, keys, unique')
    ensures AllSplit(c, n + 1, allCuts + [cuts], allKeys + [keys], table', map0[n := ringEdges], unique')
  {
    hide SplitInto;
    hide Under;
    hide Grows;
    hide Extends;
    var cuts', keys', map' := allCuts + [cuts], allKeys + [keys], map0[n := ringEdges];
    forall i | 0 <= i < n + 1
      ensures i in map' && SplitInto(c, i, cuts'[i], keys'[i], table') && Under(map'[i], keys'[i], unique')
    {
      if i < n {
        assert SplitInto(c, i, allCuts[i], allKeys[i], table);
        SplitIntoKept(c, i, allCuts[i], allKeys[i], table, table');
        UnderKept(map0[i], allKeys[i], unique, unique');
      }
    }
  }

  lemma NonEmptySplit(c: Coverage, n: nat, cuts: seq<nat>, keys: seq<Key>, table: map<Key, Record>,
                      ringEdges: seq<CoverageEdge>, unique: map<Key, CoverageEdge>)
    requires SplitInto(c, n, cuts, keys, table) && Under(ringEdges, keys, unique)
    ensures |ringEdges| > 0
  {
  }

  // The edges of a ring are those found under its keys.
  ghost predicate Under(ringEdges: seq<CoverageEdge>, keys: seq<Key>, unique: map<Key, CoverageEdge>) {
    && |ringEdges| == |keys|
    && forall m :: 0 <= m < |keys| ==> keys[m] in unique && unique[keys[m]] == ringEdges[m]
  }

  lemma UnderMore(ringEdges: seq<CoverageEdge>, keys: seq<Key>, before: map<Key, CoverageEdge>,
                  unique: map<Key, CoverageEdge>, edge: CoverageEdge, key: Key)
    requires Under(ringEdges, keys, before) && Extends(unique, before) && key in unique && unique[key] == edge
    ensures Under(ringEdges + [edge], keys + [key], unique)
  {
  }

  lemma ExtendsOn(u0: map<Key, CoverageEdge>, u1: map<Key, CoverageEdge>, u2: map<Key, CoverageEdge>)
    requires Extends(u1, u0) && Extends(u2, u1)
    ensures Extends(u2, u0)
  {
  }

  lemma Unchanged(unique: map<Key, CoverageEdge>, table: map<Key, Record>)
    ensures Extends(unique, unique) && Grows(table, table) && Under([], [], unique)
  {
  }

  lemma HasNode(ring: seq<Point>, nodes: set<Point>, i: nat)
    requires i < |ring| && ring[i] in nodes
    ensures !NodeFree(ring, nodes) && NO_COORD < 0
  {
    assert ring[i] in ring;
  }

  lemma CutsInside(ring: seq<Point>, nodes: set<Point>, cuts: seq<nat>, m: nat)
    requires CutsOf(ring, nodes, cuts) && m < |cuts|
    ensures cuts[m] < |ring| - 1
  {
  }

  lemma RingKeyIsKey(ring: seq<Point>, key: Key)
    requires SimpleRing(ring) && IsRingKey(Segments(ring), key)
    ensures IsKey(ring, key) && |ring| >= 2 && Section(ring, 0, |ring| - 1) == ring
  {
  }

  method SectionKeyOf(ring: seq<Point>, start: nat, end: nat) returns (edgeKey: Key)
    requires SimpleRing(ring) && start < |ring| - 1 && end < |ring| - 1
    ensures IsKey(Section(ring, start, end), edgeKey)
  {
    hide IsRingKey;
    hide Segments;
    SectionEnds(ring, start, end);
    if end == start {
      edgeKey := RingKey(ring);
      WholeSegments(ring, start);
    } else {
      edgeKey := SectionKey(ring, start, end);
    }
  }

  lemma SectionEnds(ring: seq<Point>, start: nat, end: nat)
    requires SimpleRing(ring) && start < |ring| - 1 && end < |ring| - 1
    ensures var q := Section(ring, start, end);
      |q| >= 2 && q[0] == ring[start] && q[|q| - 1] == ring[end] && (q[0] == q[|q| - 1] <==> start == end)
  {
    var q := Section(ring, start, end);
    SectionAt(ring, start, end, 0);
    SectionAt(ring, start, end, |q| - 1);
  }

  // The table with an entry under k, new ones not used yet.
  function Present(table: map<Key, Record>, k: Key, q: seq<Point>, free: bool): map<Key, Record> {
    if k in table then table else table[k := Record(q, 0, free)]
  }

  lemma AddedIs(table: map<Key, Record>, k: Key, q: seq<Point>, free: bool)
    ensures k in Present(table, k, q, free)
    ensures var t := Present(table, k, q, free); Added(table, k, q, free) == t[k := t[k].(count := t[k].count + 1)]
  {
  }

  ghost predicate Extends(unique: map<Key, CoverageEdge>, before: map<Key, CoverageEdge>) {
    forall k :: k in before ==> k in unique && unique[k] == before[k]
  }

  lemma RecordsKeys(unique: map<Key, CoverageEdge>, table: map<Key, Record>)
    requires Records(unique, table)
    ensures unique.Keys == table.Keys
  {
  }

  lemma NotListed(edges: seq<CoverageEdge>, unique: map<Key, CoverageEdge>, log: seq<Use>, e: CoverageEdge)
    requires EdgesListed(edges, unique, log) && e !in unique.Values
    ensures e !in edges
  {
    forall f | f in edges ensures f in unique.Values {
      var k :| k in unique && unique[k] == f;
      assert unique[k] in unique.Values;
    }
  }

  lemma RecordsMore(unique: map<Key, CoverageEdge>, table: map<Key, Record>, k: Key, e: CoverageEdge)
    requires Records(unique, table) && k !in unique && e !in unique.Values
    ensures Records(unique[k := e], table[k := Record(e.pts, e.ringCount, e.isFreeRing)])
  {
    forall k' | k' in unique ensures unique[k'] != e { assert unique[k'] in unique.Values; }
  }

  lemma ListedMore(edges: seq<CoverageEdge>, unique: map<Key, CoverageEdge>, k: Key, e: CoverageEdge)
    requires |edges| == |unique| && k !in unique && e !in edges
    requires forall i, j :: 0 <= i < j < |edges| ==> edges[i] != edges[j]
    requires (forall f :: f in edges ==> exists k' :: k' in unique && unique[k'] == f)
    requires (forall k' :: k' in unique ==> unique[k'] in edges)
    ensures var more, unique' := edges + [e], unique[k := e];
      && |more| == |unique'| && (forall i, j :: 0 <= i < j < |more| ==> more[i] != more[j])
      && (forall f :: f in more ==> exists k' :: k' in unique' && unique'[k'] == f)
      && (forall k' :: k' in unique' ==> unique'[k'] in more)
  {
    var more, unique' := edges + [e], unique[k := e];
    assert more[|edges|] == e;
    forall f | f in more ensures exists k' :: k' in unique' && unique'[k'] == f {
      if f in edges {
        var k' :| k' in unique && unique[k'] == f;
        assert unique'[k'] == f;
      } else {
        assert unique'[k] == f;
      }
    }
    forall k' | k' in unique' ensures unique'[k'] in more {
      if k' != k {
        var i :| 0 <= i < |edges| && edges[i] == unique[k'];
        assert more[i] == unique[k'];
      }
    }
  }

  lemma InOrderMore(edges: seq<CoverageEdge>, unique: map<Key, CoverageEdge>, order: seq<Key>, k: Key, e: CoverageEdge)
    requires InOrder(edges, unique, order) && k !in unique
    ensures k !in order && InOrder(edges + [e], unique[k := e], order + [k])
  {
    assert forall i :: 0 <= i < |order| ==> order[i] != k;
    var more := order + [k];
    assert more[|order|] == k;
    forall k' | k' in unique[k := e] ensures k' in more {
      if k' != k { var i :| 0 <= i < |order| && order[i] == k'; assert more[i] == k'; }
    }
  }

  // A new edge is listed last.
  lemma EdgesListedMore(edges: seq<CoverageEdge>, unique: map<Key, CoverageEdge>, log: seq<Use>, u: Use,
                        e: CoverageEdge)
    requires EdgesListed(edges, unique, log) && u.key !in unique && e !in edges
    ensures EdgesListed(edges + [e], unique[u.key := e], log + [u])
  {
    FilledMore(log, u);
    InOrderMore(edges, unique, FirstSeen(log), u.key, e);
    ListedMore(edges, unique, u.key, e);
    hide InOrder;
  }

  // One used again stays where it is.
  lemma ListedAgain(edges: seq<CoverageEdge>, unique: map<Key, CoverageEdge>, log: seq<Use>, u: Use)
    requires EdgesListed(edges, unique, log) && u.key in unique
    ensures EdgesListed(edges, unique, log + [u])
  {
    FilledMore(log, u);
  }

  // The table and the list are those of the parts split off, in this order.
  ghost predicate Listed(c: Coverage, cuts: seq<seq<nat>>, keys: seq<seq<Key>>, table: map<Key, Record>,
                         edges: seq<CoverageEdge>, unique: map<Key, CoverageEdge>) {
    && AllParted(c, cuts, keys) && table == Filled(AllUses(c, cuts, keys))
    && EdgesListed(edges, unique, AllUses(c, cuts, keys))
  }

  lemma ListedFrom(c: Coverage, cuts: seq<seq<nat>>, keys: seq<seq<Key>>, log: seq<Use>,
                   edges: seq<CoverageEdge>, unique: map<Key, CoverageEdge>)
    requires AllParted(c, cuts, keys) && log == AllUses(c, cuts, keys) && EdgesListed(edges, unique, log)
    ensures Listed(c, cuts, keys, Filled(log), edges, unique)
  {
  }

  lemma SplitLengths(c: Coverage, n: nat, cuts: seq<seq<nat>>, keys: seq<seq<Key>>, table: map<Key, Record>,
                     ringEdges: map<nat, seq<CoverageEdge>>, unique: map<Key, CoverageEdge>)
    requires AllSplit(c, n, cuts, keys, table, ringEdges, unique)
    ensures |cuts| == |keys| == n
  {
  }

  // While a ring is being split, its parts so far have been added to the log.
  ghost predicate Logged(c: Coverage, n: nat, cuts: seq<nat>, keys: seq<Key>, log: seq<Use>, log': seq<Use>,
                         table: map<Key, Record>) {
    Parted(c, n, cuts, keys) && log' == log + UsesOf(c, n, cuts, keys) && table == Filled(log')
  }

  lemma LoggedIs(c: Coverage, n: nat, cuts: seq<nat>, keys: seq<Key>, log: seq<Use>, log': seq<Use>,
                 table: map<Key, Record>)
    requires Logged(c, n, cuts, keys, log, log', table)
    ensures Parted(c, n, cuts, keys) && log' == log + UsesOf(c, n, cuts, keys) && table == Filled(log')
  {
  }

  lemma NoneYet(c: Coverage, n: nat, cuts: seq<nat>, log: seq<Use>, table: map<Key, Record>)
    requires InProgress(c, n, cuts, [], table) && table == Filled(log)
    ensures Logged(c, n, cuts, [], log, log, table)
  {
    ProgressParted(c, n, cuts, [], table);
    NoUses(c, n, cuts);
    assert log + [] == log;
  }

  lemma LogMore(c: Coverage, n: nat, cuts: seq<nat>, keys: seq<Key>, log: seq<Use>, log': seq<Use>,
                table: map<Key, Record>, q: seq<Point>, free: bool, k: Key)
    requires Logged(c, n, cuts, keys, log, log', table) && NextPart(c, n, cuts, |keys|, q, free)
    ensures Logged(c, n, cuts, keys + [k], log, log' + [Use(k, q, free)], Filled(log' + [Use(k, q, free)]))
    ensures Filled(log' + [Use(k, q, free)]) == Added(table, k, q, free)
  {
    LoggedIs(c, n, cuts, keys, log, log', table);
    hide *;
    var u := Use(k, q, free);
    UsesMore(c, n, cuts, keys, q, free, k);
    FilledMore(log', u);
    var uses, uses' := UsesOf(c, n, cuts, keys), UsesOf(c, n, cuts, keys + [k]);
    AppendedAfter(log, uses, u, log', uses');
    IsLogged(c, n, cuts, keys + [k], log, log' + [u]);
  }

  lemma AppendedAfter(log: seq<Use>, uses: seq<Use>, u: Use, log': seq<Use>, uses': seq<Use>)
    requires log' == log + uses && uses' == uses + [u]
    ensures log' + [u] == log + uses'
  {
  }

  lemma IsLogged(c: Coverage, n: nat, cuts: seq<nat>, keys: seq<Key>, log: seq<Use>, log': seq<Use>)
    requires Parted(c, n, cuts, keys) && log' == log + UsesOf(c, n, cuts, keys)
    ensures Logged(c, n, cuts, keys, log, log', Filled(log'))
  {
  }

  // One more ring uses the edge under key k.
  method UseOnce(edge: CoverageEdge, ghost unique: map<Key, CoverageEdge>, ghost k: Key, ghost table: map<Key, Record>)
    requires Records(unique, table) && k in unique && edge == unique[k]
    modifies edge`ringCount
    ensures k in table && Records(unique, table[k := table[k].(count := table[k].count + 1)])
  {
    edge.IncRingCount();
  }
}
