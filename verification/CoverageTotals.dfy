/**
 The total signed area of a coverage whose inner edges have been given new points.
 */
module CoverageTotals {
  import opened Planar
  import opened CoordinateLists
  import opened CoverageRings
  import opened CoverageNodes
  import opened CoverageSections
  import opened CoverageKeys
  import opened RingSplits
  import opened RingRebuilds
  import opened EdgeTables
  import opened CoverageAreas
  import opened RebuiltAreas
  import Runs = SimplifyRuns

  // ---- What the edges of a coverage are like

  lemma PathCloses(ring: seq<Point>, nodes: set<Point>, p: seq<Point>)
    requires SimpleRing(ring) && NodePath(ring, nodes, p)
    ensures NoRepeats(p) && |p| >= 2 && (p[0] == p[|p| - 1] ==> |p| >= 4)
  {
    forall k | 0 < k < |p| ensures p[k - 1] != p[k] {
      assert StepAt(ring, p, k - 1);
      AdjacentDiffer(ring, p[k - 1], p[k]);
    }
    assert StepAt(ring, p, 0);
  }

  lemma AdjacentDiffer(ring: seq<Point>, a: Point, b: Point)
    requires SimpleRing(ring) && Adjacent(ring, a, b)
    ensures a != b
  {
    var i := AdjacentAt(ring, a, b);
    BothNeighbours(ring, i);
  }

  // An edge repeats no point; when it closes it has at least four points, and a free one closes.
  lemma EntryShape(c: Coverage, k: Key, rec: Record)
    requires Entry(c, k, rec)
    ensures NoRepeats(rec.pts) && |rec.pts| >= 2
    ensures rec.pts[0] == rec.pts[|rec.pts| - 1] ==> |rec.pts| >= 4
    ensures rec.free ==> rec.pts[0] == rec.pts[|rec.pts| - 1]
  {
    hide *;
    var i := EntryRing(c, k, rec);
    EdgeOfParts(c, i, rec.pts, k);
    EdgeWithin(c.rings[i], Nodes(c), rec.pts);
    ReadyRing(c, i);
    if rec.free {
      SimpleNoRepeats(rec.pts);
      SimpleCloses(rec.pts);
    } else {
      PathCloses(c.rings[i], Nodes(c), rec.pts);
    }
  }

  lemma SimpleCloses(ring: seq<Point>)
    requires SimpleRing(ring)
    ensures |ring| >= 4 && ring[0] == ring[|ring| - 1]
  {
  }

  lemma ReadyRing(c: Coverage, i: nat)
    requires Ready(c) && i < |c.rings|
    ensures SimpleRing(c.rings[i])
  {
  }

  // ---- New points for the inner edges

  ghost function Original(table: map<Key, Record>): map<Key, seq<Point>> {
    map k | k in table :: table[k].pts
  }

  // New points for the edges: each keeps its ends unless it is a free ring.
  ghost predicate Kept(table: map<Key, Record>, cur: map<Key, seq<Point>>) {
    && Current(table, cur)
    && forall k {:trigger cur[k]} :: k in table ==> KeptEdge(table[k], cur[k])
  }

  ghost predicate KeptEdge(rec: Record, pts: seq<Point>) {
    && |pts| >= 2 && NoRepeats(pts)
    && (!rec.free ==> Refit(rec.pts, pts))
  }

  // The points of the edges under the given keys.
  function PointsUnder(keys: seq<Key>, cur: map<Key, seq<Point>>): (ps: seq<seq<Point>>)
    requires forall k :: k in keys ==> k in cur
    ensures |ps| == |keys| && forall m :: 0 <= m < |keys| ==> ps[m] == cur[keys[m]]
  {
    seq(|keys|, m requires 0 <= m < |keys| => cur[keys[m]])
  }

  lemma AreasAreParts(ring: seq<Point>, keys: seq<Key>, table: map<Key, Record>, cur: map<Key, seq<Point>>)
    requires Current(table, cur) && forall k :: k in keys ==> k in table
    ensures PartAreas(ring, keys, table, cur) == Parts(ring, PointsUnder(keys, Original(table)), PointsUnder(keys, cur))
  {
    var olds, news := PointsUnder(keys, Original(table)), PointsUnder(keys, cur);
    var xs, ys := PartAreas(ring, keys, table, cur), Parts(ring, olds, news);
    forall m | 0 <= m < |keys| ensures xs[m] == ys[m] {
      assert keys[m] in keys && olds[m] == table[keys[m]].pts && news[m] == cur[keys[m]];
    }
  }

  // The edges of ring n as split off: they are its pieces.
  lemma OriginalsStored(c: Coverage, cuts: seq<seq<nat>>, keys: seq<seq<Key>>, table: map<Key, Record>, n: nat)
    requires Built(c, cuts, keys, table) && n < |c.rings|
    ensures |cuts| == |keys| == |c.rings| && SimpleRing(c.rings[n]) && Rising(c.rings[n], cuts[n])
    ensures forall k :: k in keys[n] ==> k in table
    ensures var olds := PointsUnder(keys[n], Original(table));
      && Stored(c.rings[n], cuts[n], olds) && NonEmpty(olds)
      && (cuts[n] == [] ==> |olds| == 1 && SimpleRing(olds[0]))
    ensures |keys[n]| == if cuts[n] == [] then 1 else |cuts[n]|
    ensures |cuts[n]| >= 2 ==> forall k :: k in keys[n] ==> k in table && !table[k].free
  {
    hide *;
    BuiltAt(c, cuts, keys, table, n);
    SplitCuts(c, n, cuts[n], keys[n], table);
    forall k | k in keys[n] ensures k in table && (cuts[n] != [] ==> !table[k].free) {
      KeyFree(c, n, cuts[n], keys[n], table, k);
    }
    OriginalsAre(keys[n], table);
    var olds := PointsUnder(keys[n], Original(table));
    forall m | 0 <= m < |olds|
      ensures olds[m] != [] && SameEdge(Pieces(c.rings[n], cuts[n])[m], olds[m], cuts[n] == [])
      ensures cuts[n] == [] ==> SimpleRing(olds[m])
    {
      StoredPart(c, n, cuts[n], keys[n], table, m);
    }
    StoredFrom(c.rings[n], cuts[n], olds);
  }

  lemma OriginalsAre(keys: seq<Key>, table: map<Key, Record>)
    requires forall k :: k in keys ==> k in table
    ensures forall k :: k in keys ==> k in Original(table)
    ensures forall m ::
      0 <= m < |keys| ==> keys[m] in table && PointsUnder(keys, Original(table))[m] == table[keys[m]].pts
  {
  }

  // The edges of a ring that has nodes are no free rings.
  lemma KeyFree(c: Coverage, n: nat, cuts: seq<nat>, keys: seq<Key>, table: map<Key, Record>, k: Key)
    requires SplitInto(c, n, cuts, keys, table) && Entries(c, table) && k in keys
    ensures k in table && (cuts != [] ==> !table[k].free)
  {
    var m :| 0 <= m < |keys| && keys[m] == k;
    hide *;
    SplitCuts(c, n, cuts, keys, table);
    SplitPart(c, n, cuts, keys, table, m);
    PieceEdgeOf(c, n, cuts, m, k);
    EntryAt(c, table, k);
    var i := EntryRing(c, k, table[k]);
    SameKeySameSegments(c, n, i, Pieces(c.rings[n], cuts)[m], table[k].pts, k, k);
  }

  lemma KeptReplaces(cuts: seq<nat>, keys: seq<Key>, table: map<Key, Record>, cur: map<Key, seq<Point>>)
    requires Kept(table, cur) && forall k :: k in keys ==> k in table
    requires |cuts| >= 2 ==> forall k :: k in keys ==> k in table && !table[k].free
    ensures Replaces(cuts, PointsUnder(keys, Original(table)), PointsUnder(keys, cur))
  {
    var olds, news := PointsUnder(keys, Original(table)), PointsUnder(keys, cur);
    forall m | 0 <= m < |news|
      ensures news[m] != [] && NoRepeats(news[m]) && (|cuts| >= 2 ==> Refit(olds[m], news[m]))
    {
      assert keys[m] in keys;
      assert KeptEdge(table[keys[m]], cur[keys[m]]);
    }
    hide Refit;
    hide NoRepeats;
  }

  // Twice the signed area of a rebuilt ring, read in the direction of the ring it was split from.
  function TurnedSum(ring: seq<Point>, olds: seq<seq<Point>>, rebuilt: seq<Point>): real {
    TurnFactor(ring, olds) * Runs.PathSum(rebuilt)
  }

  lemma TurnedBack(ring: seq<Point>, olds: seq<seq<Point>>, rebuilt: seq<Point>, b: real)
    requires Runs.PathSum(rebuilt) == TurnFactor(ring, olds) * b
    ensures TurnedSum(ring, olds, rebuilt) == b
  {
    hide Runs.PathSum;
    hide Sign;
    if 0 < |olds| < 3 { SignTwice(ring, olds[0], b); }
  }

  /** The ring rebuilt with the new points, read in input direction, has the area that its edges contribute. */
  lemma RingRebuilt(c: Coverage, cuts: seq<seq<nat>>, keys: seq<seq<Key>>, table: map<Key, Record>,
                    cur: map<Key, seq<Point>>, n: nat)
    requires Built(c, cuts, keys, table) && Kept(table, cur) && n < |c.rings|
    ensures |keys| == |c.rings| && KeysKnown(keys, table, cur)
    ensures (forall k :: k in keys[n] ==> k in Original(table)) && NonEmpty(PointsUnder(keys[n], cur))
    ensures var news := PointsUnder(keys[n], cur);
      TurnedSum(c.rings[n], PointsUnder(keys[n], Original(table)), Rebuilt(news, |news|)) ==
        EdgeSums(c, keys, table, cur)[n]
  {
    hide *;
    KeptCurrent(table, cur);
    BuiltKnows(c, cuts, keys, table, cur);
    OriginalsStored(c, cuts, keys, table, n);
    CurrentKeys(keys[n], table, cur);
    var olds, news := PointsUnder(keys[n], Original(table)), PointsUnder(keys[n], cur);
    KeptReplaces(cuts[n], keys[n], table, cur);
    ReplacesNonEmpty(cuts[n], olds, news);
    RefitArea(c.rings[n], cuts[n], olds, news);
    AreasAreParts(c.rings[n], keys[n], table, cur);
    RingAreaIs(c, keys, table, cur, n);
    TurnedBack(c.rings[n], olds, Rebuilt(news, |news|), EdgeSums(c, keys, table, cur)[n]);
  }

  lemma KeptCurrent(table: map<Key, Record>, cur: map<Key, seq<Point>>)
    requires Kept(table, cur)
    ensures Current(table, cur)
  {
  }

  lemma CurrentKeys(keys: seq<Key>, table: map<Key, Record>, cur: map<Key, seq<Point>>)
    requires Current(table, cur) && forall k :: k in keys ==> k in table
    ensures forall k :: k in keys ==> k in cur
    ensures forall k :: k in keys ==> k in Original(table)
  {
  }

  lemma ReplacesNonEmpty(cuts: seq<nat>, olds: seq<seq<Point>>, news: seq<seq<Point>>)
    requires Replaces(cuts, olds, news)
    ensures NonEmpty(news)
  {
  }

  lemma RingAreaIs(c: Coverage, keys: seq<seq<Key>>, table: map<Key, Record>, cur: map<Key, seq<Point>>, n: nat)
    requires |keys| == |c.rings| && KeysKnown(keys, table, cur) && n < |keys|
    ensures forall k :: k in keys[n] ==> k in table && k in cur
    ensures EdgeSums(c, keys, table, cur)[n] == Sum(PartAreas(c.rings[n], keys[n], table, cur))
  {
  }

  // With the points as they were, each ring has its own area.
  lemma RingAsGiven(c: Coverage, cuts: seq<seq<nat>>, keys: seq<seq<Key>>, table: map<Key, Record>, n: nat)
    requires Built(c, cuts, keys, table) && n < |c.rings|
    ensures |keys| == |c.rings| && KeysKnown(keys, table, Original(table))
    ensures EdgeSums(c, keys, table, Original(table))[n] == Runs.PathSum(c.rings[n])
  {
    hide *;
    OriginalCurrent(table);
    BuiltKnows(c, cuts, keys, table, Original(table));
    OriginalsStored(c, cuts, keys, table, n);
    CurrentKeys(keys[n], table, Original(table));
    OriginalArea(c.rings[n], cuts[n], PointsUnder(keys[n], Original(table)));
    AreasAreParts(c.rings[n], keys[n], table, Original(table));
    RingAreaIs(c, keys, table, Original(table), n);
  }

  lemma OriginalCurrent(table: map<Key, Record>)
    ensures Current(table, Original(table))
  {
  }

  // With the points as they were, the edges contribute the areas of the rings.
  lemma TotalAsGiven(c: Coverage, cuts: seq<seq<nat>>, keys: seq<seq<Key>>, table: map<Key, Record>)
    requires Built(c, cuts, keys, table)
    ensures |keys| == |c.rings| && KeysKnown(keys, table, Original(table))
    ensures EdgeSums(c, keys, table, Original(table)) == Sums(c.rings)
  {
    hide *;
    OriginalCurrent(table);
    BuiltKnows(c, cuts, keys, table, Original(table));
    forall n | 0 <= n < |c.rings| ensures EdgeSums(c, keys, table, Original(table))[n] == Sums(c.rings)[n] {
      RingAsGiven(c, cuts, keys, table, n);
    }
  }

  /** Whichever edges get new points, the total area changes by what they change under them, as the rings run. */
  lemma TotalChanges(c: Coverage, cuts: seq<seq<nat>>, keys: seq<seq<Key>>, table: map<Key, Record>,
                     cur: map<Key, seq<Point>>, order: seq<Key>)
    requires Built(c, cuts, keys, table) && Kept(table, cur) && Lists(order, table.Keys)
    ensures |keys| == |c.rings| && KeysKnown(keys, table, cur)
    ensures forall k :: k in order ==> k in table && k in Original(table) && k in cur
    ensures Sum(EdgeSums(c, keys, table, cur)) - Sum(Sums(c.rings)) ==
            EdgeChanges(c.rings, table, Original(table), cur, order)
  {
    hide *;
    OriginalCurrent(table);
    KeptCurrent(table, cur);
    TotalAsGiven(c, cuts, keys, table);
    AllChanges(c, cuts, keys, table, Original(table), cur, order, table.Keys);
  }

  /** New points for inner edges leave the total signed area of the rings as it was. */
  lemma TotalConserved(c: Coverage, cuts: seq<seq<nat>>, keys: seq<seq<Key>>, table: map<Key, Record>,
                       cur: map<Key, seq<Point>>)
    requires Built(c, cuts, keys, table) && Kept(table, cur) && OppositeTraversal(c.rings)
    requires InnerOnly(table, Original(table), cur)
    ensures |keys| == |c.rings| && KeysKnown(keys, table, cur)
    ensures Sum(EdgeSums(c, keys, table, cur)) == Sum(Sums(c.rings))
  {
    hide *;
    OriginalCurrent(table);
    KeptCurrent(table, cur);
    BuiltKnows(c, cuts, keys, table, cur);
    BuiltKnows(c, cuts, keys, table, Original(table));
    InnerChangesConserve(c, cuts, keys, table, Original(table), cur, table.Keys);
    TotalAsGiven(c, cuts, keys, table);
  }
}
