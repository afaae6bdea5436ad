/**
 The table of unique edges, as a value: what is recorded under each key while the rings
 are split one after the other.
 */
module EdgeTables {
  import opened Planar
  import opened CoordinateLists
  import opened CoverageRings
  import opened CoverageNodes
  import opened CoverageSections
  import opened CoverageKeys
  import opened RingSplits

  type Key = (Point, Point)

  datatype Record = Record(pts: seq<Point>, count: nat, free: bool)

  // The coverage as given, its boundary segments, and the nodes known at first.
  datatype Coverage = Coverage(rings: seq<seq<Point>>, boundary: set<(Point, Point)>, first: set<Point>)

  ghost predicate Ready(c: Coverage) {
    Setting(c.rings, c.boundary, c.first)
  }

  ghost function Nodes(c: Coverage): set<Point>
    requires Ready(c)
  {
    FinalNodes(c.rings, c.boundary, c.first)
  }

  // q is an edge of ring i, and k its key.
  ghost predicate EdgeOf(c: Coverage, i: nat, q: seq<Point>, k: Key) {
    Ready(c) && i < |c.rings| && IsEdge(c.rings[i], Nodes(c), q) && IsKey(q, k)
  }

  ghost predicate Entry(c: Coverage, k: Key, rec: Record) {
    exists i: nat :: EdgeOf(c, i, rec.pts, k) && rec.free == NodeFree(c.rings[i], Nodes(c))
  }

  // Edges with the same key have the same segments; edges with different keys have none in common.
  lemma SameKeySameSegments(c: Coverage, i: nat, j: nat, p: seq<Point>, q: seq<Point>, k: Key, k': Key)
    requires EdgeOf(c, i, p, k) && EdgeOf(c, j, q, k')
    ensures k == k' ==> Segments(p) == Segments(q)
    ensures k == k' ==> SameEdge(p, q, NodeFree(c.rings[i], Nodes(c)))
    ensures k == k' ==> NodeFree(c.rings[i], Nodes(c)) == NodeFree(c.rings[j], Nodes(c))
    ensures k != k' ==> Segments(p) * Segments(q) == {}
  {
    hide *;
    EdgeOfParts(c, i, p, k);
    EdgeOfParts(c, j, q, k');
    KeyIdentifies(c.rings, c.boundary, c.first, i, j, p, q, k, k');
    if k == k' {
      var s :| s in Segments(p) * Segments(q);
      EdgesAgree(c.rings, c.boundary, c.first, i, j, p, q, s);
      SameEdgeSegments(p, q, NodeFree(c.rings[i], Nodes(c)));
    }
  }

  lemma EntryRing(c: Coverage, k: Key, rec: Record) returns (i: nat)
    requires Entry(c, k, rec)
    ensures EdgeOf(c, i, rec.pts, k) && i < |c.rings| && rec.free == NodeFree(c.rings[i], Nodes(c))
  {
    i :| EdgeOf(c, i, rec.pts, k) && rec.free == NodeFree(c.rings[i], Nodes(c));
  }

  lemma SharedMeansSameKey(c: Coverage, i: nat, j: nat, p: seq<Point>, q: seq<Point>, k: Key, k': Key,
                           s: (Point, Point))
    requires EdgeOf(c, i, p, k) && EdgeOf(c, j, q, k') && s in Segments(p) && s in Segments(q)
    ensures k == k'
  {
    assert s in Segments(p) * Segments(q);
    hide *;
    SameKeySameSegments(c, i, j, p, q, k, k');
  }

  lemma EdgeOfParts(c: Coverage, i: nat, q: seq<Point>, k: Key)
    requires EdgeOf(c, i, q, k)
    ensures Ready(c) && Setting(c.rings, c.boundary, c.first) && Nodes(c) == FinalNodes(c.rings, c.boundary, c.first)
    ensures i < |c.rings| && IsEdge(c.rings[i], Nodes(c), q) && IsKey(q, k)
  {
  }

  lemma SameEdgeSegments(p: seq<Point>, q: seq<Point>, free: bool)
    requires SameEdge(p, q, free)
    ensures Segments(p) == Segments(q)
  {
    SegmentsReversed(p);
  }

  // ---- The table while ring k is being split; keys in done are those of its edges so far

  ghost predicate Entries(c: Coverage, table: map<Key, Record>) {
    forall k :: k in table ==> Entry(c, k, table[k])
  }

  // Each edge counts the finished rings that hold its segments, and the current one if it has come up.
  ghost predicate Counted(c: Coverage, n: nat, done: set<Key>, table: map<Key, Record>)
    requires n <= |c.rings|
  {
    forall k, s :: k in table && s in Segments(table[k].pts) ==>
      table[k].count == SegmentRings(c.rings[..n], s) + One(k in done)
  }

  // All segments of finished rings are in some edge.
  ghost predicate RingsCovered(c: Coverage, n: nat, table: map<Key, Record>)
    requires n <= |c.rings|
  {
    forall i, s {:trigger s in Segments(c.rings[i])} :: 0 <= i < n && s in Segments(c.rings[i]) ==> Held(table, s)
  }

  ghost predicate Held(table: map<Key, Record>, s: (Point, Point)) {
    exists k :: k in table && s in Segments(table[k].pts)
  }

  ghost predicate TableOk(c: Coverage, n: nat, done: set<Key>, table: map<Key, Record>) {
    && Ready(c) && n <= |c.rings| && done <= table.Keys
    && Entries(c, table) && Counted(c, n, done, table) && RingsCovered(c, n, table)
  }

  function Added(table: map<Key, Record>, k: Key, q: seq<Point>, free: bool): map<Key, Record> {
    table[k := if k in table then table[k].(count := table[k].count + 1) else Record(q, 1, free)]
  }

  lemma HeldMore(table: map<Key, Record>, k: Key, q: seq<Point>, free: bool, s: (Point, Point))
    requires Held(table, s)
    ensures Held(Added(table, k, q, free), s)
  {
    var k' :| k' in table && s in Segments(table[k'].pts);
    assert Added(table, k, q, free)[k'].pts == table[k'].pts;
  }

  // No finished ring has the segments of an edge that is not in the table yet.
  lemma NewEdgeUncounted(c: Coverage, n: nat, done: set<Key>, table: map<Key, Record>, q: seq<Point>, k: Key,
                         s: (Point, Point))
    requires TableOk(c, n, done, table) && n < |c.rings| && EdgeOf(c, n, q, k) && k !in table && s in Segments(q)
    ensures SegmentRings(c.rings[..n], s) == 0
  {
    hide Ready;
    hide Counted;
    hide Segments;
    hide EdgeOf;
    if SegmentRings(c.rings[..n], s) > 0 {
      var i := CountFind(RingsWithSegment(c.rings[..n], s));
      assert s in Segments(c.rings[i]);
      var k' :| k' in table && s in Segments(table[k'].pts);
      assert Entry(c, k', table[k']);
      var j := EntryRing(c, k', table[k']);
      SharedMeansSameKey(c, n, j, q, table[k'].pts, k, k', s);
    }
  }

  /** Counting one more edge of the current ring. */
  lemma AddKeepsTable(c: Coverage, n: nat, done: set<Key>, table: map<Key, Record>, q: seq<Point>, k: Key)
    requires TableOk(c, n, done, table) && n < |c.rings| && EdgeOf(c, n, q, k) && k !in done
    ensures TableOk(c, n, done + {k}, Added(table, k, q, NodeFree(c.rings[n], Nodes(c))))
  {
    var free := NodeFree(c.rings[n], Nodes(c));
    var table' := Added(table, k, q, free);
    AddKeepsEntries(c, n, table, q, k);
    AddKeepsCounted(c, n, done, table, q, k);
    forall i, s | 0 <= i < n && s in Segments(c.rings[i]) ensures Held(table', s) {
      HeldMore(table, k, q, free, s);
    }
  }

  lemma AddKeepsEntries(c: Coverage, n: nat, table: map<Key, Record>, q: seq<Point>, k: Key)
    requires Entries(c, table) && EdgeOf(c, n, q, k)
    ensures Entries(c, Added(table, k, q, NodeFree(c.rings[n], Nodes(c))))
  {
    var table' := Added(table, k, q, NodeFree(c.rings[n], Nodes(c)));
    forall k' | k' in table' ensures Entry(c, k', table'[k']) {
      if k' in table {
        assert Entry(c, k', table[k']);
        var i: nat :| EdgeOf(c, i, table[k'].pts, k') && table[k'].free == NodeFree(c.rings[i], Nodes(c));
        assert EdgeOf(c, i, table'[k'].pts, k');
      } else {
        assert EdgeOf(c, n, table'[k'].pts, k');
      }
    }
  }

  lemma AddKeepsCounted(c: Coverage, n: nat, done: set<Key>, table: map<Key, Record>, q: seq<Point>, k: Key)
    requires TableOk(c, n, done, table) && n < |c.rings| && EdgeOf(c, n, q, k) && k !in done
    ensures Counted(c, n, done + {k}, Added(table, k, q, NodeFree(c.rings[n], Nodes(c))))
  {
    var table' := Added(table, k, q, NodeFree(c.rings[n], Nodes(c)));
    forall k', s | k' in table' && s in Segments(table'[k'].pts)
      ensures table'[k'].count == SegmentRings(c.rings[..n], s) + One(k' in done + {k})
    {
      if k' !in table { NewEdgeUncounted(c, n, done, table, q, k, s); }
    }
  }

  // ---- One ring split

  // The ring's first parts, with their keys, as found in the table.
  ghost predicate SplitSome(c: Coverage, i: nat, cuts: seq<nat>, keys: seq<Key>, table: map<Key, Record>) {
    && Ready(c) && i < |c.rings| && CutsOf(c.rings[i], Nodes(c), cuts)
    && |keys| <= |Pieces(c.rings[i], cuts)|
    && forall m {:trigger keys[m]} :: 0 <= m < |keys| ==>
         && IsKey(Pieces(c.rings[i], cuts)[m], keys[m]) && keys[m] in table
         && SameEdge(Pieces(c.rings[i], cuts)[m], table[keys[m]].pts, NodeFree(c.rings[i], Nodes(c)))
  }

  // All of the ring's parts.
  ghost predicate SplitInto(c: Coverage, i: nat, cuts: seq<nat>, keys: seq<Key>, table: map<Key, Record>) {
    SplitSome(c, i, cuts, keys, table) && |keys| == |Pieces(c.rings[i], cuts)|
  }

  lemma PieceEdgeOf(c: Coverage, i: nat, cuts: seq<nat>, m: nat, k: Key)
    requires Ready(c) && i < |c.rings| && CutsOf(c.rings[i], Nodes(c), cuts)
    requires m < |Pieces(c.rings[i], cuts)| && IsKey(Pieces(c.rings[i], cuts)[m], k)
    ensures EdgeOf(c, i, Pieces(c.rings[i], cuts)[m], k) && Rising(c.rings[i], cuts) && SimpleRing(c.rings[i])
  {
    PieceIsEdge(c.rings[i], Nodes(c), cuts, m);
  }

  /** The parts of one ring have keys of their own. */
  lemma KeysDiffer(c: Coverage, i: nat, cuts: seq<nat>, m: nat, n: nat, k: Key, k': Key)
    requires Ready(c) && i < |c.rings| && CutsOf(c.rings[i], Nodes(c), cuts) && m < n < |Pieces(c.rings[i], cuts)|
    requires IsKey(Pieces(c.rings[i], cuts)[m], k) && IsKey(Pieces(c.rings[i], cuts)[n], k')
    ensures k != k'
  {
    PieceEdgeOf(c, i, cuts, m, k);
    PieceEdgeOf(c, i, cuts, n, k');
    var p, q := Pieces(c.rings[i], cuts)[m], Pieces(c.rings[i], cuts)[n];
    SameKeySameSegments(c, i, i, p, q, k, k');
    KeyInside(p, k);
    if Normalized(k.0, k.1) in Segments(q) {
      PiecesApart(c.rings[i], cuts, m, n, Normalized(k.0, k.1));
    }
  }

  function KeySet(keys: seq<Key>): set<Key> {
    set k | k in keys
  }

  // A recorded edge has come up in the ring just split exactly when the ring has its segments.
  lemma DoneMeansHeld(c: Coverage, n: nat, cuts: seq<nat>, keys: seq<Key>, table: map<Key, Record>, k: Key,
                      s: (Point, Point))
    requires Entries(c, table) && SplitInto(c, n, cuts, keys, table)
    requires k in table && s in Segments(table[k].pts)
    ensures k in keys <==> s in Segments(c.rings[n])
  {
    hide Ready;
    hide EdgeOf;
    hide Segments;
    var ring := c.rings[n];
    assert Entry(c, k, table[k]);
    var j := EntryRing(c, k, table[k]);
    if k in keys {
      var m :| 0 <= m < |keys| && keys[m] == k;
      PieceEdgeOf(c, n, cuts, m, k);
      SameKeySameSegments(c, n, j, Pieces(ring, cuts)[m], table[k].pts, k, k);
      PieceWithin(c, n, cuts, m, s);
    }
    if s in Segments(ring) {
      var m := PieceWith(c, n, cuts, s);
      PieceEdgeOf(c, n, cuts, m, keys[m]);
      SharedMeansSameKey(c, n, j, Pieces(ring, cuts)[m], table[k].pts, keys[m], k, s);
      assert keys[m] in keys;
    }
  }

  lemma PieceWithin(c: Coverage, n: nat, cuts: seq<nat>, m: nat, s: (Point, Point))
    requires Ready(c) && n < |c.rings| && CutsOf(c.rings[n], Nodes(c), cuts) && m < |Pieces(c.rings[n], cuts)|
    requires s in Segments(Pieces(c.rings[n], cuts)[m])
    ensures s in Segments(c.rings[n])
  {
    PieceIsEdge(c.rings[n], Nodes(c), cuts, m);
    EdgeWithin(c.rings[n], Nodes(c), Pieces(c.rings[n], cuts)[m]);
  }

  lemma PieceWith(c: Coverage, n: nat, cuts: seq<nat>, s: (Point, Point)) returns (m: nat)
    requires Ready(c) && n < |c.rings| && CutsOf(c.rings[n], Nodes(c), cuts) && s in Segments(c.rings[n])
    ensures m < |Pieces(c.rings[n], cuts)| && s in Segments(Pieces(c.rings[n], cuts)[m])
  {
    assert SimpleRing(c.rings[n]) && Rising(c.rings[n], cuts);
    m := PiecesCover(c.rings[n], cuts, s);
  }

  /** When all edges of a ring have been counted the ring is finished. */
  lemma RingFinished(c: Coverage, n: nat, cuts: seq<nat>, keys: seq<Key>, table: map<Key, Record>)
    requires n < |c.rings| && TableOk(c, n, KeySet(keys), table) && SplitInto(c, n, cuts, keys, table)
    ensures TableOk(c, n + 1, {}, table)
  {
    CountedNext(c, n, cuts, keys, table);
    CoveredNext(c, n, cuts, keys, table);
    hide Ready;
    hide Entries;
    hide Counted;
    hide RingsCovered;
    hide SplitInto;
  }

  lemma CountedNext(c: Coverage, n: nat, cuts: seq<nat>, keys: seq<Key>, table: map<Key, Record>)
    requires n < |c.rings| && Entries(c, table) && Counted(c, n, KeySet(keys), table)
    requires SplitInto(c, n, cuts, keys, table)
    ensures Counted(c, n + 1, {}, table)
  {
    hide Entries;
    hide SplitInto;
    hide SegmentRings;
    hide Segments;
    forall k, s | k in table && s in Segments(table[k].pts)
      ensures table[k].count == SegmentRings(c.rings[..n + 1], s) + One(k in {})
    {
      SegmentRingsStep(c.rings, n, s);
      DoneMeansHeld(c, n, cuts, keys, table, k, s);
    }
  }

  lemma CoveredNext(c: Coverage, n: nat, cuts: seq<nat>, keys: seq<Key>, table: map<Key, Record>)
    requires n < |c.rings| && RingsCovered(c, n, table) && SplitInto(c, n, cuts, keys, table)
    ensures RingsCovered(c, n + 1, table)
  {
    hide SplitInto;
    hide Held;
    hide Segments;
    forall i, s | 0 <= i < n + 1 && s in Segments(c.rings[i]) ensures Held(table, s) {
      if i == n { SplitHolds(c, n, cuts, keys, table, s); }
    }
  }

  lemma SplitHolds(c: Coverage, n: nat, cuts: seq<nat>, keys: seq<Key>, table: map<Key, Record>, s: (Point, Point))
    requires SplitInto(c, n, cuts, keys, table) && s in Segments(c.rings[n])
    ensures Held(table, s)
  {
    hide Segments;
    hide Ready;
    var m := PieceWith(c, n, cuts, s);
    assert keys[m] in table;
    SameEdgeSegments(Pieces(c.rings[n], cuts)[m], table[keys[m]].pts, NodeFree(c.rings[n], Nodes(c)));
    assert s in Segments(table[keys[m]].pts);
  }

  // Later tables keep the points recorded.
  ghost predicate Grows(table: map<Key, Record>, table': map<Key, Record>) {
    forall k :: k in table ==> k in table' && table'[k].pts == table[k].pts
  }

  lemma GrowsOn(t0: map<Key, Record>, t1: map<Key, Record>, t2: map<Key, Record>)
    requires Grows(t0, t1) && Grows(t1, t2)
    ensures Grows(t0, t2)
  {
  }

  lemma SplitKept(c: Coverage, i: nat, cuts: seq<nat>, keys: seq<Key>, table: map<Key, Record>,
                  table': map<Key, Record>)
    requires SplitSome(c, i, cuts, keys, table) && Grows(table, table')
    ensures SplitSome(c, i, cuts, keys, table')
  {
    hide IsKey;
    hide SameEdge;
    hide Pieces;
    forall m | 0 <= m < |keys|
      ensures IsKey(Pieces(c.rings[i], cuts)[m], keys[m]) && keys[m] in table'
      ensures SameEdge(Pieces(c.rings[i], cuts)[m], table'[keys[m]].pts, NodeFree(c.rings[i], Nodes(c)))
    {
      assert keys[m] in table && table'[keys[m]].pts == table[keys[m]].pts;
    }
  }

  /** When all rings are finished, an edge is used by as many rings as have its segments. */
  lemma FinalCount(c: Coverage, table: map<Key, Record>, k: Key, s: (Point, Point))
    requires TableOk(c, |c.rings|, {}, table) && k in table && s in Segments(table[k].pts)
    ensures table[k].count == SegmentRings(c.rings, s) && 1 <= table[k].count <= 2
    ensures table[k].count == 1 <==> s in c.boundary
  {
    hide *;
    CountIs(c, table, k, s);
    RecordedInRing(c, table[k], k, s);
  }

  lemma CountIs(c: Coverage, table: map<Key, Record>, k: Key, s: (Point, Point))
    requires TableOk(c, |c.rings|, {}, table) && k in table && s in Segments(table[k].pts)
    ensures table[k].count == SegmentRings(c.rings, s) && Entry(c, k, table[k])
  {
    hide Entry;
    hide Ready;
    hide RingsCovered;
    hide SegmentRings;
    hide Segments;
    assert c.rings[..|c.rings|] == c.rings;
    assert table[k].count == SegmentRings(c.rings[..|c.rings|], s) + One(k in {});
  }

  lemma RecordedInRing(c: Coverage, rec: Record, k: Key, s: (Point, Point))
    requires Entry(c, k, rec) && s in Segments(rec.pts)
    ensures 1 <= SegmentRings(c.rings, s) <= 2
    ensures SegmentRings(c.rings, s) == 1 <==> s in c.boundary
  {
    hide *;
    var i := EntryRing(c, k, rec);
    EdgeOfParts(c, i, rec.pts, k);
    EdgeWithin(c.rings[i], Nodes(c), rec.pts);
    AtLeastOnce(c.rings, s, i);
    CoverageCounts(c, s);
  }

  lemma CoverageCounts(c: Coverage, s: (Point, Point))
    requires Ready(c)
    ensures SegmentRings(c.rings, s) <= 2 && (s in c.boundary <==> SegmentRings(c.rings, s) % 2 == 1)
  {
  }

  // ---- One part counted

  // The key of the next part is not among those of the parts before.
  lemma NextKeyIsNew(c: Coverage, n: nat, cuts: seq<nat>, keys: seq<Key>, table: map<Key, Record>, k: Key)
    requires SplitSome(c, n, cuts, keys, table) && |keys| < |Pieces(c.rings[n], cuts)|
    requires IsKey(Pieces(c.rings[n], cuts)[|keys|], k)
    ensures k !in KeySet(keys)
  {
    forall m | 0 <= m < |keys| ensures keys[m] != k {
      KeysDiffer(c, n, cuts, m, |keys|, keys[m], k);
    }
  }

  // The table has the part, in some direction, when it has been added.
  lemma AddedIsSame(c: Coverage, n: nat, table: map<Key, Record>, q: seq<Point>, k: Key)
    requires Entries(c, table) && EdgeOf(c, n, q, k)
    ensures n < |c.rings| && Ready(c)
    ensures SameEdge(q, Added(table, k, q, NodeFree(c.rings[n], Nodes(c)))[k].pts, NodeFree(c.rings[n], Nodes(c)))
  {
    hide IsEdge;
    hide IsKey;
    hide NodeFree;
    hide Ready;
    EdgeOfParts(c, n, q, k);
    if k in table {
      assert Entry(c, k, table[k]);
      var j := EntryRing(c, k, table[k]);
      SameKeySameSegments(c, n, j, q, table[k].pts, k, k);
    }
  }

  lemma SplitMore(c: Coverage, n: nat, cuts: seq<nat>, keys: seq<Key>, table: map<Key, Record>, k: Key)
    requires SplitSome(c, n, cuts, keys, table) && |keys| < |Pieces(c.rings[n], cuts)|
    requires IsKey(Pieces(c.rings[n], cuts)[|keys|], k) && k in table
    requires SameEdge(Pieces(c.rings[n], cuts)[|keys|], table[k].pts, NodeFree(c.rings[n], Nodes(c)))
    ensures SplitSome(c, n, cuts, keys + [k], table)
    ensures KeySet(keys + [k]) == KeySet(keys) + {k}
  {
    hide IsKey;
    hide SameEdge;
    hide NodeFree;
    hide Ready;
    hide CutsOf;
    hide Pieces;
    assert (keys + [k])[|keys|] == k;
    forall k' | k' in keys ensures k' in keys + [k] {
      var i :| 0 <= i < |keys| && keys[i] == k';
      assert (keys + [k])[i] == k';
    }
  }

  /** Counting the next part of the ring being split. */
  lemma PartAdded(c: Coverage, n: nat, cuts: seq<nat>, keys: seq<Key>, table: map<Key, Record>, k: Key)
    requires TableOk(c, n, KeySet(keys), table) && SplitSome(c, n, cuts, keys, table)
    requires n < |c.rings| && Ready(c) && CutsOf(c.rings[n], Nodes(c), cuts)
    requires |keys| < |Pieces(c.rings[n], cuts)| && IsKey(Pieces(c.rings[n], cuts)[|keys|], k)
    ensures var table' := Added(table, k, Pieces(c.rings[n], cuts)[|keys|], NodeFree(c.rings[n], Nodes(c)));
      TableOk(c, n, KeySet(keys + [k]), table') && SplitSome(c, n, cuts, keys + [k], table')
  {
    var q, free := Pieces(c.rings[n], cuts)[|keys|], NodeFree(c.rings[n], Nodes(c));
    hide *;
    PieceEdgeOf(c, n, cuts, |keys|, k);
    NextKeyIsNew(c, n, cuts, keys, table, k);
    AddKeepsTable(c, n, KeySet(keys), table, q, k);
    AddedGrows(table, k, q, free);
    SplitKept(c, n, cuts, keys, table, Added(table, k, q, free));
    TableEntries(c, n, KeySet(keys), table);
    AddedIsSame(c, n, table, q, k);
    AddedHas(table, k, q, free);
    SplitMore(c, n, cuts, keys, Added(table, k, q, free), k);
  }

  lemma AddedGrows(table: map<Key, Record>, k: Key, q: seq<Point>, free: bool)
    ensures Grows(table, Added(table, k, q, free))
  {
  }

  // Ring n is being split: its first parts have been counted.
  ghost predicate InProgress(c: Coverage, n: nat, cuts: seq<nat>, keys: seq<Key>, table: map<Key, Record>) {
    TableOk(c, n, KeySet(keys), table) && SplitSome(c, n, cuts, keys, table)
  }

  lemma BeginRing(c: Coverage, n: nat, nodes: set<Point>, cuts: seq<nat>, table: map<Key, Record>)
    requires TableOk(c, n, {}, table) && n < |c.rings| && Ready(c) && CutsOf(c.rings[n], nodes, cuts)
    requires forall v :: v in c.rings[n] ==> (v in nodes <==> v in Nodes(c))
    ensures InProgress(c, n, cuts, [], table)
  {
    SameCuts(c.rings[n], nodes, Nodes(c), cuts);
    assert KeySet([]) == {};
  }

  // q is the next part of the ring.
  ghost predicate NextPart(c: Coverage, n: nat, cuts: seq<nat>, m: nat, q: seq<Point>, free: bool) {
    && Ready(c) && n < |c.rings| && CutsOf(c.rings[n], Nodes(c), cuts) && m < |Pieces(c.rings[n], cuts)|
    && Pieces(c.rings[n], cuts)[m] == q && free == NodeFree(c.rings[n], Nodes(c))
  }

  /** The next part of the ring is counted under its key. */
  lemma ContinueRing(c: Coverage, n: nat, cuts: seq<nat>, keys: seq<Key>, table: map<Key, Record>, q: seq<Point>,
                     free: bool, k: Key)
    requires InProgress(c, n, cuts, keys, table) && NextPart(c, n, cuts, |keys|, q, free) && IsKey(q, k)
    ensures InProgress(c, n, cuts, keys + [k], Added(table, k, q, free))
    ensures Grows(table, Added(table, k, q, free))
  {
    AddedGrows(table, k, q, free);
    hide TableOk;
    hide SplitSome;
    hide IsKey;
    hide NodeFree;
    hide Added;
    PartAdded(c, n, cuts, keys, table, k);
  }

  /** All parts of the ring have been counted. */
  lemma FinishRing(c: Coverage, n: nat, cuts: seq<nat>, keys: seq<Key>, table: map<Key, Record>)
    requires InProgress(c, n, cuts, keys, table) && n < |c.rings| && |keys| == if cuts == [] then 1 else |cuts|
    ensures TableOk(c, n + 1, {}, table) && SplitInto(c, n, cuts, keys, table)
  {
    hide TableOk;
    hide IsKey;
    RingFinished(c, n, cuts, keys, table);
  }

  lemma TableEntries(c: Coverage, n: nat, done: set<Key>, table: map<Key, Record>)
    requires TableOk(c, n, done, table)
    ensures Entries(c, table)
  {
  }

  lemma AddedHas(table: map<Key, Record>, k: Key, q: seq<Point>, free: bool)
    ensures k in Added(table, k, q, free)
  {
  }

  // ---- The cuts of a ring

  function NodeIndices(ring: seq<Point>, nodes: set<Point>, n: nat): seq<nat>
    requires n <= |ring|
  {
    if n == 0 then []
    else NodeIndices(ring, nodes, n - 1) + if ring[n - 1] in nodes then [n - 1] else []
  }

  lemma {:induction false} NodeIndicesFacts(ring: seq<Point>, nodes: set<Point>, n: nat)
    requires n <= |ring|
    ensures var cuts := NodeIndices(ring, nodes, n);
      && (forall m :: 0 <= m < |cuts| ==> cuts[m] < n && ring[cuts[m]] in nodes)
      && (forall i, j :: 0 <= i < j < |cuts| ==> cuts[i] < cuts[j])
      && (forall i :: 0 <= i < n && ring[i] in nodes ==> i in cuts)
  {
    if n > 0 { NodeIndicesFacts(ring, nodes, n - 1); }
  }

  lemma CutsExist(ring: seq<Point>, nodes: set<Point>) returns (cuts: seq<nat>)
    requires SimpleRing(ring)
    ensures CutsOf(ring, nodes, cuts)
  {
    cuts := NodeIndices(ring, nodes, |ring| - 1);
    NodeIndicesFacts(ring, nodes, |ring| - 1);
  }

  // Only nodes on the ring matter.
  lemma SameCuts(ring: seq<Point>, nodes: set<Point>, others: set<Point>, cuts: seq<nat>)
    requires CutsOf(ring, nodes, cuts) && forall v :: v in ring ==> (v in nodes <==> v in others)
    ensures CutsOf(ring, others, cuts)
  {
  }

  lemma NextCut(ring: seq<Point>, nodes: set<Point>, cuts: seq<nat>, m: nat, e: nat)
    requires CutsOf(ring, nodes, cuts) && m < |cuts| && NextNode(ring, nodes, cuts[m], e)
    ensures e == EndOf(cuts, m)
  {
    NoNodeBetween(ring, nodes, cuts, m);
  }

  lemma FirstCut(ring: seq<Point>, nodes: set<Point>, cuts: seq<nat>, first: nat)
    requires CutsOf(ring, nodes, cuts) && first < |ring| - 1 && ring[first] in nodes
    requires forall i :: 0 <= i < first ==> ring[i] !in nodes
    ensures cuts != [] && cuts[0] == first
  {
    var m :| 0 <= m < |cuts| && cuts[m] == first;
    assert ring[cuts[0]] in nodes;
  }

  // The section from cut m to the next node is part m.
  lemma SectionIsNext(c: Coverage, n: nat, nodes: set<Point>, cuts: seq<nat>, m: nat, start: nat, end: nat)
    requires Ready(c) && n < |c.rings| && CutsOf(c.rings[n], nodes, cuts) && m < |cuts| && start == cuts[m]
    requires (forall v :: v in c.rings[n] ==> (v in nodes <==> v in Nodes(c)))
    requires NextNode(c.rings[n], nodes, start, end)
    ensures NextPart(c, n, cuts, m, Section(c.rings[n], start, end), false)
    ensures (end == cuts[0] <==> m + 1 == |cuts|) && (m + 1 < |cuts| ==> end == cuts[m + 1])
  {
    var ring := c.rings[n];
    assert SimpleRing(ring);
    NextCut(ring, nodes, cuts, m, end);
    SameCuts(ring, nodes, Nodes(c), cuts);
    CutsEmpty(ring, Nodes(c), cuts);
    PieceAt(ring, cuts, m);
    hide Ready;
    hide Section;
    hide NextNode;
    hide Pieces;
    hide NodeFree;
  }

  lemma WholeIsNext(c: Coverage, n: nat, nodes: set<Point>)
    requires Ready(c) && n < |c.rings| && NodeFree(c.rings[n], nodes)
    requires forall v :: v in c.rings[n] ==> (v in nodes <==> v in Nodes(c))
    ensures CutsOf(c.rings[n], nodes, []) && NextPart(c, n, [], 0, c.rings[n], true)
  {
    assert SimpleRing(c.rings[n]);
    forall i | 0 <= i < |c.rings[n]| - 1 ensures c.rings[n][i] !in nodes { assert c.rings[n][i] in c.rings[n]; }
    SameCuts(c.rings[n], nodes, Nodes(c), []);
  }

  // ---- What is stored for a ring

  lemma SplitCuts(c: Coverage, n: nat, cuts: seq<nat>, keys: seq<Key>, table: map<Key, Record>)
    requires SplitInto(c, n, cuts, keys, table)
    ensures n < |c.rings| && SimpleRing(c.rings[n]) && Rising(c.rings[n], cuts) && |keys| == |Pieces(c.rings[n], cuts)|
    ensures |keys| == if cuts == [] then 1 else |cuts|
    ensures cuts == [] <==> NodeFree(c.rings[n], Nodes(c))
  {
    assert SimpleRing(c.rings[n]);
    CutsEmpty(c.rings[n], Nodes(c), cuts);
  }

  lemma SplitPart(c: Coverage, n: nat, cuts: seq<nat>, keys: seq<Key>, table: map<Key, Record>, m: nat)
    requires SplitInto(c, n, cuts, keys, table) && m < |keys|
    ensures Ready(c) && n < |c.rings| && CutsOf(c.rings[n], Nodes(c), cuts) && m < |Pieces(c.rings[n], cuts)|
    ensures IsKey(Pieces(c.rings[n], cuts)[m], keys[m]) && keys[m] in table
    ensures SameEdge(Pieces(c.rings[n], cuts)[m], table[keys[m]].pts, NodeFree(c.rings[n], Nodes(c)))
  {
  }

  lemma SameEdgeNonEmpty(p: seq<Point>, q: seq<Point>, free: bool)
    requires SameEdge(p, q, free) && |p| >= 2
    ensures q != []
  {
    if free { SegmentAt(p, 0); }
  }

  lemma KeyLength(q: seq<Point>, k: Key)
    requires IsKey(q, k)
    ensures |q| >= 2
  {
  }

  /** What the table holds for part m of a ring: the part, in one direction or the other. */
  lemma StoredPart(c: Coverage, n: nat, cuts: seq<nat>, keys: seq<Key>, table: map<Key, Record>, m: nat)
    requires SplitInto(c, n, cuts, keys, table) && m < |keys| && Entries(c, table)
    ensures n < |c.rings| && Rising(c.rings[n], cuts) && m < |Pieces(c.rings[n], cuts)| && keys[m] in table
    ensures table[keys[m]].pts != []
    ensures SameEdge(Pieces(c.rings[n], cuts)[m], table[keys[m]].pts, cuts == [])
    ensures cuts == [] ==> SimpleRing(table[keys[m]].pts)
  {
    SplitCuts(c, n, cuts, keys, table);
    SplitPart(c, n, cuts, keys, table, m);
    var p, k := Pieces(c.rings[n], cuts)[m], keys[m];
    assert Entry(c, k, table[k]);
    hide *;
    KeyLength(p, k);
    SameEdgeNonEmpty(p, table[k].pts, NodeFree(c.rings[n], Nodes(c)));
    if cuts == [] {
      var i := EntryRing(c, k, table[k]);
      PieceEdgeOf(c, n, cuts, m, k);
      SameKeySameSegments(c, n, i, p, table[k].pts, k, k);
      FreeEdgeIsRing(c, i, table[k].pts, k);
    }
  }

  lemma FreeEdgeIsRing(c: Coverage, i: nat, q: seq<Point>, k: Key)
    requires EdgeOf(c, i, q, k) && NodeFree(c.rings[i], Nodes(c))
    ensures SimpleRing(q)
  {
    EdgeWithin(c.rings[i], Nodes(c), q);
  }
}
