/** What is promised of a simplified coverage leaves one result only. */
module CoverageOutcomes {
  import opened Planar
  import opened CoverageRings
  import opened CoverageNodes
  import opened CoverageKeys
  import opened RingSplits
  import opened EdgeTables
  import opened EdgeLogs
  import opened CoverageRingEdges
  import opened RepeatedPoints
  import opened CoverageAreas
  import opened SimplifiedCoverages
  import opened CoverageSimplifier
  import Arrangement
  import Tpvw
  import T = TpvwSimplifier

  // ---- The same parts under the same keys

  predicate Ascends(s: seq<nat>) {
    forall i, j :: 0 <= i < j < |s| ==> s[i] < s[j]
  }

  lemma LastOf(s: seq<nat>, t: seq<nat>)
    requires Ascends(s) && Ascends(t) && s != [] && t != [] && forall x :: x in s ==> x in t
    ensures s[|s| - 1] <= t[|t| - 1]
  {
    assert s[|s| - 1] in t;
  }

  lemma Earlier(s: seq<nat>, t: seq<nat>, last: nat)
    requires Ascends(s + [last]) && forall x :: x in s ==> x in t + [last]
    ensures forall x :: x in s ==> x in t
  {
    forall x | x in s ensures x in t {
      var i :| 0 <= i < |s| && s[i] == x;
      assert (s + [last])[i] < (s + [last])[|s|];
    }
  }

  lemma {:induction false} SameNumbers(s: seq<nat>, t: seq<nat>)
    requires Ascends(s) && Ascends(t) && forall x :: x in s <==> x in t
    ensures s == t
  {
    if s == [] {
      assert forall i :: 0 <= i < |t| ==> t[i] in s;
    } else {
      assert s[0] in t;
      var p, q, last := s[..|s| - 1], t[..|t| - 1], s[|s| - 1];
      LastOf(s, t);
      LastOf(t, s);
      assert s == p + [last] && t == q + [last];
      Earlier(p, q, last);
      Earlier(q, p, last);
      SameNumbers(p, q);
    }
  }

  lemma SameCutsOf(ring: seq<Point>, nodes: set<Point>, cuts: seq<nat>, other: seq<nat>)
    requires CutsOf(ring, nodes, cuts) && CutsOf(ring, nodes, other)
    ensures cuts == other
  {
    SameNumbers(cuts, other);
  }

  lemma SameKeyOf(q: seq<Point>, k: Key, k': Key)
    requires IsKey(q, k) && IsKey(q, k')
    ensures k == k'
  {
    if q[0] == q[|q| - 1] {
      assert CompareTo(k.0, k'.0) <= 0 && CompareTo(k'.0, k.0) <= 0;
      assert CompareTo(k.1, k'.1) <= 0 && CompareTo(k'.1, k.1) <= 0;
    }
  }

  lemma SplitAt(c: Coverage, cuts: seq<seq<nat>>, keys: seq<seq<Key>>, table: map<Key, Record>, i: nat)
    requires Built(c, cuts, keys, table) && i < |c.rings|
    ensures Ready(c) && |cuts| == |keys| == |c.rings|
    ensures CutsOf(c.rings[i], Nodes(c), cuts[i]) && |keys[i]| == |Pieces(c.rings[i], cuts[i])|
    ensures forall m :: 0 <= m < |keys[i]| ==> IsKey(Pieces(c.rings[i], cuts[i])[m], keys[i][m])
  {
    assert SplitInto(c, i, cuts[i], keys[i], table);
    hide IsKey;
    hide Ready;
    hide Pieces;
    hide CutsOf;
  }

  /** How the rings are split, and the keys of their parts, is decided by the rings and their nodes. */
  lemma SameSplit(c: Coverage, cuts: seq<seq<nat>>, keys: seq<seq<Key>>, table: map<Key, Record>,
                  cuts': seq<seq<nat>>, keys': seq<seq<Key>>, table': map<Key, Record>)
    requires Built(c, cuts, keys, table) && Built(c, cuts', keys', table')
    ensures cuts == cuts' && keys == keys'
  {
    BuiltLengths(c, cuts, keys, table);
    BuiltLengths(c, cuts', keys', table');
    hide *;
    forall i | 0 <= i < |c.rings| ensures cuts[i] == cuts'[i] && keys[i] == keys'[i] {
      SplitAt(c, cuts, keys, table, i);
      SplitAt(c, cuts', keys', table', i);
      SameKeysOf(c.rings[i], Nodes(c), cuts[i], keys[i], cuts'[i], keys'[i]);
    }
  }

  lemma SameKeysOf(ring: seq<Point>, nodes: set<Point>, cuts: seq<nat>, keys: seq<Key>, cuts': seq<nat>,
                   keys': seq<Key>)
    requires CutsOf(ring, nodes, cuts) && |keys| == |Pieces(ring, cuts)|
    requires CutsOf(ring, nodes, cuts') && |keys'| == |Pieces(ring, cuts')|
    requires forall m :: 0 <= m < |keys| ==> IsKey(Pieces(ring, cuts)[m], keys[m])
    requires forall m :: 0 <= m < |keys'| ==> IsKey(Pieces(ring, cuts')[m], keys'[m])
    ensures cuts == cuts' && keys == keys'
  {
    SameCutsOf(ring, nodes, cuts, cuts');
    hide *;
    forall m | 0 <= m < |keys| ensures keys[m] == keys'[m] {
      SameKeyOf(Pieces(ring, cuts)[m], keys[m], keys'[m]);
    }
  }

  lemma BuiltLengths(c: Coverage, cuts: seq<seq<nat>>, keys: seq<seq<Key>>, table: map<Key, Record>)
    requires Built(c, cuts, keys, table)
    ensures |cuts| == |keys| == |c.rings| && Ready(c)
  {
    hide Ready;
  }

  lemma SameBoundary(rings: seq<seq<Point>>, boundary: set<(Point, Point)>, other: set<(Point, Point)>)
    requires IsBoundarySet(rings, boundary) && IsBoundarySet(rings, other)
    ensures boundary == other
  {
    hide SegmentRings;
  }

  lemma SameFirst(input: seq<seq<Point>>, c: Coverage, d: Coverage)
    requires c.rings == d.rings && c.boundary == d.boundary && NodesAreNeeded(input, c) && NodesAreNeeded(input, d)
    ensures c == d
  {
    hide VertexRings;
    hide Touching;
    hide RepeatsSomewhere;
    assert c.first == d.first;
  }

  lemma ReadyBoundary(c: Coverage)
    requires Ready(c)
    ensures IsBoundarySet(c.rings, c.boundary)
  {
    hide IsBoundarySet;
  }

  // Two coverages of the same rings are split alike, and list the same edges in the same order.
  lemma SameEdges(input: seq<seq<Point>>, a: CoverageRingEdges, b: CoverageRingEdges)
    requires CoverageOf(a, input) && CoverageOf(b, input) && SplitUp(a) && SplitUp(b)
    ensures a.coverage == b.coverage && a.allCuts == b.allCuts && a.allKeys == b.allKeys && a.table == b.table
    ensures AllParted(a.coverage, a.allCuts, a.allKeys) && AllParted(b.coverage, b.allCuts, b.allKeys)
    ensures EdgeOrder(a) == EdgeOrder(b)
  {
    hide *;
    Facts(input, a);
    Facts(input, b);
    ReadyBoundary(a.coverage);
    ReadyBoundary(b.coverage);
    SameBoundary(a.rings, a.coverage.boundary, b.coverage.boundary);
    SameFirst(input, a.coverage, b.coverage);
    SameSplit(a.coverage, a.allCuts, a.allKeys, a.table, b.allCuts, b.allKeys, b.table);
  }

  lemma Facts(input: seq<seq<Point>>, a: CoverageRingEdges)
    requires CoverageOf(a, input) && SplitUp(a)
    ensures a.rings == Compacted(input) && a.coverage.rings == a.rings && NodesAreNeeded(input, a.coverage)
    ensures Built(a.coverage, a.allCuts, a.allKeys, a.table) && Ready(a.coverage)
    ensures AllParted(a.coverage, a.allCuts, a.allKeys)
    ensures a.table == Filled(AllUses(a.coverage, a.allCuts, a.allKeys))
    ensures EdgeOrder(a) == FirstSeen(AllUses(a.coverage, a.allCuts, a.allKeys))
  {
    SplitUpParts(a);
    SplitUpLists(a);
    hide SplitUp;
    BuiltLengths(a.coverage, a.allCuts, a.allKeys, a.table);
    hide Built;
    hide NodesAreNeeded;
    hide AllParted;
  }

  // ---- The same lines, simplified to the same end

  lemma SamePlaces(order: seq<Key>, at: map<Key, nat>, other: map<Key, nat>)
    requires InTurn(order, at) && InTurn(order, other)
    ensures at == other
  {
    forall k | k in at ensures k in other && at[k] == other[k] {
      var i :| 0 <= i < |order| && order[i] == k;
    }
  }

  // What is known of a coverage whose edges have been simplified, apart from how they were.
  ghost predicate Outcome(a: CoverageRingEdges, cur: map<Key, seq<Point>>, innerOnly: bool, tolerance: real,
                          ls: seq<Arrangement.Line>, after: seq<Arrangement.Line>, at: map<Key, nat>, n: nat)
    reads a
  {
    SplitUp(a) && EdgesSimplified(a, cur, innerOnly, tolerance, ls, after, at, n)
  }

  lemma OutcomeParts(a: CoverageRingEdges, cur: map<Key, seq<Point>>, innerOnly: bool, tolerance: real,
                     ls: seq<Arrangement.Line>, after: seq<Arrangement.Line>, at: map<Key, nat>, n: nat)
    requires Outcome(a, cur, innerOnly, tolerance, ls, after, at, n)
    ensures SplitUp(a) && EdgesSimplified(a, cur, innerOnly, tolerance, ls, after, at, n)
    ensures Renewed(a.coverage, a.table, cur, ls, after, n, at) && |ls| == |a.table|
    ensures AllParted(a.coverage, a.allCuts, a.allKeys) && InTurn(LineOrder(EdgeOrder(a), a.table, innerOnly), at)
    ensures at.Keys == a.table.Keys == cur.Keys && n <= |ls| && T.Reached(ls, after, n, tolerance * tolerance)
    ensures forall k :: k in a.table ==> (at[k] < n <==> !innerOnly || a.table[k].count == 2)
  {
    hide SplitUp;
    hide InTurn;
    hide LineOrder;
    hide EdgeOrder;
    hide KnownAs;
    hide NewPoints;
    hide AllParted;
    hide T.SimplifiedFrom;
    hide Arrangement.Arranged;
    hide T.Reached;
  }

  lemma EdgeAt(a: CoverageRingEdges, cur: map<Key, seq<Point>>, innerOnly: bool, tolerance: real,
               ls: seq<Arrangement.Line>, after: seq<Arrangement.Line>, at: map<Key, nat>, n: nat, k: Key)
    requires Outcome(a, cur, innerOnly, tolerance, ls, after, at, n) && k in a.table
    ensures k in at && k in cur && at[k] < |ls| == |after|
    ensures ls[at[k]] == Tpvw.LineOf(a.table[k].pts, at[k] < n && a.table[k].free)
    ensures cur[k] == NewPoints(a.table[k], after, n, at[k])
  {
    OutcomeParts(a, cur, innerOnly, tolerance, ls, after, at, n);
    hide *;
    SimplifiedReached(a, cur, innerOnly, tolerance, ls, after, at, n, k);
    RenewedAt(a.coverage, a.table, cur, ls, after, n, at, k);
    KnownParts(a.coverage, k, a.table[k], ls, n, at[k]);
  }

  lemma FewerChosen(a: CoverageRingEdges, cur: map<Key, seq<Point>>, innerOnly: bool, tolerance: real,
                    ls: seq<Arrangement.Line>, after: seq<Arrangement.Line>, at: map<Key, nat>, n: nat, m: nat)
    requires Outcome(a, cur, innerOnly, tolerance, ls, after, at, n) && m <= |ls|
    requires forall k :: k in a.table && k in at ==> (at[k] < m <==> !innerOnly || a.table[k].count == 2)
    ensures m <= n
  {
    OutcomeParts(a, cur, innerOnly, tolerance, ls, after, at, n);
    hide *;
    if n < m {
      var k := LinesAreEdges(a, cur, innerOnly, tolerance, ls, after, at, n, n);
    }
  }

  /** The lines are those of the same edges, in the same order, and as many of them are simplified. */
  lemma SameLines(a: CoverageRingEdges, b: CoverageRingEdges, cur: map<Key, seq<Point>>, cur': map<Key, seq<Point>>,
                  innerOnly: bool, tolerance: real, ls: seq<Arrangement.Line>, after: seq<Arrangement.Line>,
                  at: map<Key, nat>, n: nat, ls': seq<Arrangement.Line>, after': seq<Arrangement.Line>,
                  at': map<Key, nat>, n': nat)
    requires Outcome(a, cur, innerOnly, tolerance, ls, after, at, n)
    requires Outcome(b, cur', innerOnly, tolerance, ls', after', at', n')
    requires a.table == b.table && AllParted(a.coverage, a.allCuts, a.allKeys)
    requires AllParted(b.coverage, b.allCuts, b.allKeys) && EdgeOrder(a) == EdgeOrder(b)
    ensures at == at' && n == n' && ls == ls'
  {
    hide *;
    OutcomeParts(a, cur, innerOnly, tolerance, ls, after, at, n);
    OutcomeParts(b, cur', innerOnly, tolerance, ls', after', at', n');
    SamePlaces(LineOrder(EdgeOrder(a), a.table, innerOnly), at, at');
    FewerChosen(a, cur, innerOnly, tolerance, ls, after, at, n, n');
    FewerChosen(b, cur', innerOnly, tolerance, ls', after', at', n', n);
    forall i | 0 <= i < |ls| ensures ls[i] == ls'[i] {
      var k := LinesAreEdges(a, cur, innerOnly, tolerance, ls, after, at, n, i);
      EdgeAt(a, cur, innerOnly, tolerance, ls, after, at, n, k);
      EdgeAt(b, cur', innerOnly, tolerance, ls', after', at', n', k);
    }
  }

  lemma SamePoints(a: CoverageRingEdges, b: CoverageRingEdges, cur: map<Key, seq<Point>>, cur': map<Key, seq<Point>>,
                   innerOnly: bool, tolerance: real, ls: seq<Arrangement.Line>, after: seq<Arrangement.Line>,
                   at: map<Key, nat>, n: nat, ls': seq<Arrangement.Line>, after': seq<Arrangement.Line>,
                   at': map<Key, nat>, n': nat)
    requires Outcome(a, cur, innerOnly, tolerance, ls, after, at, n)
    requires Outcome(b, cur', innerOnly, tolerance, ls', after', at', n')
    requires a.table == b.table && AllParted(a.coverage, a.allCuts, a.allKeys)
    requires AllParted(b.coverage, b.allCuts, b.allKeys) && EdgeOrder(a) == EdgeOrder(b)
    ensures cur == cur'
  {
    hide *;
    SameLines(a, b, cur, cur', innerOnly, tolerance, ls, after, at, n, ls', after', at', n');
    OutcomeParts(a, cur, innerOnly, tolerance, ls, after, at, n);
    OutcomeParts(b, cur', innerOnly, tolerance, ls', after', at', n');
    T.ReachedOnce(ls, after, after', n, tolerance * tolerance);
    forall k | k in cur ensures cur[k] == cur'[k] {
      EdgeAt(a, cur, innerOnly, tolerance, ls, after, at, n, k);
      EdgeAt(b, cur', innerOnly, tolerance, ls', after', at', n', k);
    }
  }

  // ---- The same rings

  lemma SameBuilt(keys: seq<seq<Key>>, cur: map<Key, seq<Point>>, rings: seq<seq<Point>>, others: seq<seq<Point>>)
    requires BuiltNow(keys, cur, rings) && BuiltNow(keys, cur, others)
    ensures rings == others
  {
    hide RingNow;
    forall n | 0 <= n < |rings| ensures rings[n] == others[n] {}
  }

  lemma SameRings(input: seq<seq<Point>>, keys: seq<seq<Key>>, cur: map<Key, seq<Point>>, result: seq<seq<Point>>,
                  other: seq<seq<Point>>)
    requires BuiltFor(input, keys, cur, result) && BuiltFor(input, keys, cur, other)
    ensures result == other
  {
    SameBuilt(keys, cur, Standing(input, result), Standing(input, other));
    hide BuiltNow;
    hide Standing;
    hide Collapsed;
    forall n | 0 <= n < |input| ensures result[n] == other[n] {
      if !Collapsed(input[n]) {
        StandingAt(input, result, n);
        StandingAt(input, other, n);
      }
    }
  }

  lemma OutcomeOf(a: CoverageRingEdges, cur: map<Key, seq<Point>>, innerOnly: bool, tolerance: real)
    returns (ls: seq<Arrangement.Line>, after: seq<Arrangement.Line>, at: map<Key, nat>, n: nat)
    requires SimplifiedTo(a, cur, innerOnly, tolerance)
    ensures SplitUp(a) && Outcome(a, cur, innerOnly, tolerance, ls, after, at, n)
  {
    hide SplitUp;
    hide EdgesSimplified;
    ls, after, at, n :| EdgesSimplified(a, cur, innerOnly, tolerance, ls, after, at, n);
  }

  /**
   The rings and the tolerance alone decide what a coverage is simplified to: two results as Simplify or
   SimplifyInner promises them are the same.
   */
  lemma SimplifiedOnce(input: seq<seq<Point>>, a: CoverageRingEdges, b: CoverageRingEdges, cur: map<Key, seq<Point>>,
                       cur': map<Key, seq<Point>>, innerOnly: bool, tolerance: real, result: seq<seq<Point>>,
                       other: seq<seq<Point>>)
    requires CoverageOf(a, input) && SimplifiedTo(a, cur, innerOnly, tolerance)
    requires CoverageOf(b, input) && SimplifiedTo(b, cur', innerOnly, tolerance)
    requires BuiltFor(input, a.allKeys, cur, result) && BuiltFor(input, b.allKeys, cur', other)
    ensures result == other
  {
    hide *;
    var ls, after, at, n := OutcomeOf(a, cur, innerOnly, tolerance);
    var ls', after', at', n' := OutcomeOf(b, cur', innerOnly, tolerance);
    SameEdges(input, a, b);
    SamePoints(a, b, cur, cur', innerOnly, tolerance, ls, after, at, n, ls', after', at', n');
    SameRings(input, a.allKeys, cur, result, other);
  }
}
