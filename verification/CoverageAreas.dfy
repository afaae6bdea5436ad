/**
 Signed areas of rings made of shared edges: replacing the points of edges that two rings
 run through in opposite directions does not change the sum.
 */
module CoverageAreas {
  import opened Planar
  import opened CoverageRings
  import opened CoverageNodes
  import opened CoverageSections
  import opened CoverageKeys
  import opened RingSplits
  import opened RingRebuilds
  import opened EdgeTables
  import Runs = SimplifyRuns

  // ---- Sums

  function Sum(xs: seq<real>): real {
    if xs == [] then 0.0 else Sum(xs[..|xs| - 1]) + xs[|xs| - 1]
  }

  lemma {:induction false} SumOneChange(xs: seq<real>, ys: seq<real>, i: nat)
    requires |xs| == |ys| && i < |xs| && forall k :: 0 <= k < |xs| && k != i ==> xs[k] == ys[k]
    ensures Sum(ys) - Sum(xs) == ys[i] - xs[i]
  {
    var n := |xs| - 1;
    if i == n {
      assert xs[..n] == ys[..n];
    } else {
      SumOneChange(xs[..n], ys[..n], i);
    }
  }

  // ---- Direction

  // The segments of a ring as the ring runs.
  function DirectedSegments(ring: seq<Point>): set<(Point, Point)> {
    set i | 0 <= i < |ring| - 1 :: StepOf(ring, i)
  }

  function StepOf(ring: seq<Point>, i: nat): (Point, Point)
    requires i + 1 < |ring|
  {
    (ring[i], ring[i + 1])
  }

  // No two rings run along a segment in the same direction.
  predicate OppositeTraversal(rings: seq<seq<Point>>) {
    forall i, j :: 0 <= i < j < |rings| ==> DirectedSegments(rings[i]) !! DirectedSegments(rings[j])
  }

  lemma NotBothWays(ring: seq<Point>, x: nat, y: nat)
    requires SimpleRing(ring) && x + 1 < |ring| && y + 1 < |ring|
    ensures ring[x] != ring[y + 1] || ring[x + 1] != ring[y]
  {
  }

  lemma RunsOneWay(ring: seq<Point>, a: Point, b: Point)
    requires SimpleRing(ring) && Adjacent(ring, a, b)
    ensures (a, b) in DirectedSegments(ring) <==> (b, a) !in DirectedSegments(ring)
  {
    var i := AdjacentAt(ring, a, b);
    assert StepOf(ring, i) in DirectedSegments(ring);
    forall x, y | 0 <= x < |ring| - 1 && 0 <= y < |ring| - 1
      ensures StepOf(ring, x) != (a, b) || StepOf(ring, y) != (b, a)
    {
      NotBothWays(ring, x, y);
    }
  }

  // Whether a ring runs along an edge as it was stored: +1 or -1.
  function Sign(ring: seq<Point>, stored: seq<Point>): real {
    if |stored| >= 2 && (stored[0], stored[1]) in DirectedSegments(ring) then 1.0 else -1.0
  }

  lemma OppositeSigns(rings: seq<seq<Point>>, i: nat, j: nat, stored: seq<Point>)
    requires OppositeTraversal(rings) && i < j < |rings| && SimpleRing(rings[i]) && SimpleRing(rings[j])
    requires |stored| >= 2
    requires Adjacent(rings[i], stored[0], stored[1]) && Adjacent(rings[j], stored[0], stored[1])
    ensures Sign(rings[i], stored) + Sign(rings[j], stored) == 0.0
  {
    var a, b := stored[0], stored[1];
    RunsOneWay(rings[i], a, b);
    RunsOneWay(rings[j], a, b);
    assert DirectedSegments(rings[i]) !! DirectedSegments(rings[j]);
  }

  // ---- The area of a ring by its edges

  // All rings split, and the edges as stored.
  ghost predicate Built(c: Coverage, cuts: seq<seq<nat>>, keys: seq<seq<Key>>, table: map<Key, Record>) {
    && TableOk(c, |c.rings|, {}, table) && |cuts| == |keys| == |c.rings|
    && forall i {:trigger cuts[i]} :: 0 <= i < |c.rings| ==> SplitInto(c, i, cuts[i], keys[i], table)
  }

  // The current points of every edge.
  predicate Current(table: map<Key, Record>, cur: map<Key, seq<Point>>) {
    (forall k :: k in table ==> k in cur) && (forall k :: k in cur ==> k in table)
  }

  function PartArea(ring: seq<Point>, table: map<Key, Record>, cur: map<Key, seq<Point>>, k: Key): real
    requires k in table && k in cur
  {
    Sign(ring, table[k].pts) * Runs.PathSum(cur[k])
  }

  // The areas under the edges of a ring, each as the ring runs along it.
  function PartAreas(ring: seq<Point>, keys: seq<Key>, table: map<Key, Record>,
                     cur: map<Key, seq<Point>>): (xs: seq<real>)
    requires forall k :: k in keys ==> k in table && k in cur
    ensures |xs| == |keys| && forall m :: 0 <= m < |keys| ==> xs[m] == PartArea(ring, table, cur, keys[m])
  {
    seq(|keys|, m requires 0 <= m < |keys| => PartArea(ring, table, cur, keys[m]))
  }

  // Twice the signed area of a ring, read in its input direction.
  ghost function EdgeSum(c: Coverage, n: nat, keys: seq<seq<Key>>, table: map<Key, Record>,
                          cur: map<Key, seq<Point>>): real
    requires n < |c.rings| && n < |keys| && forall k :: k in keys[n] ==> k in table && k in cur
  {
    Sum(PartAreas(c.rings[n], keys[n], table, cur))
  }

  ghost predicate KeysKnown(keys: seq<seq<Key>>, table: map<Key, Record>, cur: map<Key, seq<Point>>) {
    forall n, k {:trigger k in keys[n]} :: 0 <= n < |keys| && k in keys[n] ==> k in table && k in cur
  }

  ghost function EdgeSums(c: Coverage, keys: seq<seq<Key>>, table: map<Key, Record>,
                           cur: map<Key, seq<Point>>): (xs: seq<real>)
    requires |keys| == |c.rings| && KeysKnown(keys, table, cur)
    ensures |xs| == |keys| && forall n :: 0 <= n < |keys| ==> xs[n] == EdgeSum(c, n, keys, table, cur)
  {
    seq(|keys|, n requires 0 <= n < |keys| => EdgeSum(c, n, keys, table, cur))
  }

  lemma BuiltKnows(c: Coverage, cuts: seq<seq<nat>>, keys: seq<seq<Key>>, table: map<Key, Record>,
                   cur: map<Key, seq<Point>>)
    requires Built(c, cuts, keys, table) && Current(table, cur)
    ensures |keys| == |c.rings| && KeysKnown(keys, table, cur)
  {
    hide TableOk;
    forall n, k | 0 <= n < |keys| && k in keys[n] ensures k in table && k in cur {
      assert SplitInto(c, n, cuts[n], keys[n], table);
      var m :| 0 <= m < |keys[n]| && keys[n][m] == k;
      SplitPart(c, n, cuts[n], keys[n], table, m);
    }
  }

  // ---- Changing one edge

  // The rings that use an edge: those that have its segments.
  lemma UsesEdge(c: Coverage, cuts: seq<seq<nat>>, keys: seq<seq<Key>>, table: map<Key, Record>, n: nat, k: Key)
    requires Built(c, cuts, keys, table) && n < |c.rings| && k in table
    ensures |table[k].pts| >= 2
    ensures SimpleRing(c.rings[n])
    ensures k in keys[n] <==> Adjacent(c.rings[n], table[k].pts[0], table[k].pts[1])
  {
    hide *;
    BuiltAt(c, cuts, keys, table, n);
    EntryAt(c, table, k);
    var i := EntryRing(c, k, table[k]);
    EdgeOfParts(c, i, table[k].pts, k);
    KeyLength(table[k].pts, k);
    SplitCuts(c, n, cuts[n], keys[n], table);
    FirstSegment(c.rings[n], table[k].pts);
    DoneMeansHeld(c, n, cuts[n], keys[n], table, k, Normalized(table[k].pts[0], table[k].pts[1]));
  }

  lemma BuiltAt(c: Coverage, cuts: seq<seq<nat>>, keys: seq<seq<Key>>, table: map<Key, Record>, n: nat)
    requires Built(c, cuts, keys, table) && n < |c.rings|
    ensures |cuts| == |keys| == |c.rings| && Entries(c, table) && SplitInto(c, n, cuts[n], keys[n], table)
  {
    assert SplitInto(c, n, cuts[n], keys[n], table);
  }

  lemma EntryAt(c: Coverage, table: map<Key, Record>, k: Key)
    requires Entries(c, table) && k in table
    ensures Entry(c, k, table[k])
  {
  }

  lemma FirstSegment(ring: seq<Point>, pts: seq<Point>)
    requires |pts| >= 2
    ensures Normalized(pts[0], pts[1]) in Segments(pts)
    ensures Adjacent(ring, pts[0], pts[1]) <==> Normalized(pts[0], pts[1]) in Segments(ring)
  {
    SegmentAt(pts, 0);
  }

  // In one ring, a changed edge changes its one part.
  lemma RingChange(ring: seq<Point>, keys: seq<Key>, table: map<Key, Record>, cur: map<Key, seq<Point>>, k: Key,
                   q: seq<Point>)
    requires (forall k' :: k' in keys ==> k' in table && k' in cur) && k in table && k in cur
    requires forall m, n :: 0 <= m < n < |keys| ==> keys[m] != keys[n]
    ensures var d := Sum(PartAreas(ring, keys, table, cur[k := q])) - Sum(PartAreas(ring, keys, table, cur));
      d == if k in keys then PartArea(ring, table, cur[k := q], k) - PartArea(ring, table, cur, k) else 0.0
  {
    forall k' | k' in keys && k' != k
      ensures PartArea(ring, table, cur[k := q], k') == PartArea(ring, table, cur, k')
    {}
    hide PartArea;
    var xs, ys := PartAreas(ring, keys, table, cur), PartAreas(ring, keys, table, cur[k := q]);
    forall m | 0 <= m < |keys| && keys[m] != k ensures xs[m] == ys[m] {}
    if k in keys {
      var m :| 0 <= m < |keys| && keys[m] == k;
      SumOneChange(xs, ys, m);
    } else {
      forall m | 0 <= m < |keys| ensures keys[m] != k { assert keys[m] in keys; }
      assert xs == ys;
    }
  }

  // ---- Inner edges

  lemma {:induction false} OnlyTwo(bs: seq<bool>) returns (i: nat, j: nat)
    requires Count(bs) == 2
    ensures i < j < |bs| && forall k :: 0 <= k < |bs| ==> (bs[k] <==> k == i || k == j)
  {
    var a := CountFind(bs);
    var b := CountOther(bs, a);
    i, j := if a < b then a else b, if a < b then b else a;
    forall k | 0 <= k < |bs| && bs[k] ensures k == i || k == j {
      if k < i { CountThree(bs, k, i, j); }
      if i < k < j { CountThree(bs, i, k, j); }
      if j < k { CountThree(bs, i, j, k); }
    }
  }

  // An inner edge belongs to two rings and no other.
  lemma InnerEdgeRings(c: Coverage, cuts: seq<seq<nat>>, keys: seq<seq<Key>>, table: map<Key, Record>, k: Key)
    returns (i: nat, j: nat)
    requires Built(c, cuts, keys, table) && k in table && table[k].count == 2
    ensures i < j < |c.rings| && |keys| == |c.rings|
    ensures forall n :: 0 <= n < |c.rings| ==> (k in keys[n] <==> n == i || n == j)
  {
    hide Segments;
    hide TableOk;
    hide SplitInto;
    hide SimpleRing;
    var n0 := 0;
    EdgeSegment(c, cuts, keys, table, k);
    var s := Normalized(table[k].pts[0], table[k].pts[1]);
    CountIs(c, table, k, s);
    i, j := OnlyTwo(RingsWithSegment(c.rings, s));
    forall n | 0 <= n < |c.rings| ensures k in keys[n] <==> n == i || n == j {
      UsesEdge(c, cuts, keys, table, n, k);
      assert RingsWithSegment(c.rings, s)[n] == (s in Segments(c.rings[n]));
    }
  }

  lemma EdgeSegment(c: Coverage, cuts: seq<seq<nat>>, keys: seq<seq<Key>>, table: map<Key, Record>, k: Key)
    requires Built(c, cuts, keys, table) && k in table
    ensures |table[k].pts| >= 2 && Normalized(table[k].pts[0], table[k].pts[1]) in Segments(table[k].pts)
  {
    hide *;
    BuiltEntries(c, cuts, keys, table);
    EntryAt(c, table, k);
    var i := EntryRing(c, k, table[k]);
    EdgeOfParts(c, i, table[k].pts, k);
    KeyLength(table[k].pts, k);
    FirstSegment(table[k].pts, table[k].pts);
  }

  lemma BuiltEntries(c: Coverage, cuts: seq<seq<nat>>, keys: seq<seq<Key>>, table: map<Key, Record>)
    requires Built(c, cuts, keys, table)
    ensures Entries(c, table)
  {
  }

  // ---- Changing inner edges

  lemma KeysDistinct(c: Coverage, cuts: seq<seq<nat>>, keys: seq<seq<Key>>, table: map<Key, Record>, n: nat)
    requires Built(c, cuts, keys, table) && n < |c.rings|
    ensures |keys| == |c.rings| && forall a, b :: 0 <= a < b < |keys[n]| ==> keys[n][a] != keys[n][b]
  {
    hide *;
    BuiltAt(c, cuts, keys, table, n);
    forall a, b | 0 <= a < b < |keys[n]| ensures keys[n][a] != keys[n][b] {
      SplitPart(c, n, cuts[n], keys[n], table, a);
      SplitPart(c, n, cuts[n], keys[n], table, b);
      KeysDiffer(c, n, cuts[n], a, b, keys[n][a], keys[n][b]);
    }
  }

  // The change of ring n's area when edge k gets new points.
  lemma RingAreaChange(c: Coverage, cuts: seq<seq<nat>>, keys: seq<seq<Key>>, table: map<Key, Record>,
                       cur: map<Key, seq<Point>>, k: Key, q: seq<Point>, n: nat)
    requires Built(c, cuts, keys, table) && Current(table, cur) && k in table && n < |c.rings|
    ensures Current(table, cur[k := q]) && |keys| == |c.rings| && KeysKnown(keys, table, cur)
    ensures KeysKnown(keys, table, cur[k := q])
    ensures k in cur
    ensures var d := EdgeSums(c, keys, table, cur[k := q])[n] - EdgeSums(c, keys, table, cur)[n];
      d ==
        if k in keys[n] then PartArea(c.rings[n], table, cur[k := q], k) - PartArea(c.rings[n], table, cur, k) else 0.0
  {
    hide Built;
    hide PartArea;
    hide PartAreas;
    hide Sum;
    assert Current(table, cur[k := q]);
    BuiltKnows(c, cuts, keys, table, cur);
    BuiltKnows(c, cuts, keys, table, cur[k := q]);
    KeysDistinct(c, cuts, keys, table, n);
    RingChange(c.rings[n], keys[n], table, cur, k, q);
  }

  lemma PartAreaIs(ring: seq<Point>, table: map<Key, Record>, cur: map<Key, seq<Point>>, k: Key, q: seq<Point>)
    requires k in table && k in cur
    ensures PartArea(ring, table, cur, k) == Sign(ring, table[k].pts) * Runs.PathSum(cur[k])
    ensures PartArea(ring, table, cur[k := q], k) == Sign(ring, table[k].pts) * Runs.PathSum(q)
  {
  }

  // ---- Changing any edges

  // How a ring runs along an edge as it was stored: +1, -1, or 0 if it does not.
  function Turn(ring: seq<Point>, stored: seq<Point>): real {
    if |stored| >= 2 && Adjacent(ring, stored[0], stored[1]) then Sign(ring, stored) else 0.0
  }

  // The same for all rings together.
  function NetTurn(rings: seq<seq<Point>>, stored: seq<Point>): real {
    if rings == [] then 0.0 else NetTurn(rings[..|rings| - 1], stored) + Turn(rings[|rings| - 1], stored)
  }

  lemma {:induction false} SumScaled(xs: seq<real>, ys: seq<real>, rings: seq<seq<Point>>, stored: seq<Point>, d: real)
    requires |xs| == |ys| == |rings|
    requires forall n :: 0 <= n < |xs| ==> ys[n] - xs[n] == Turn(rings[n], stored) * d
    ensures Sum(ys) - Sum(xs) == NetTurn(rings, stored) * d
  {
    hide Turn;
    if rings != [] {
      var n := |rings| - 1;
      SumScaled(xs[..n], ys[..n], rings[..n], stored, d);
      Distributes(NetTurn(rings[..n], stored), Turn(rings[n], stored), d);
    }
  }

  lemma Distributes(s: real, t: real, d: real)
    ensures (s + t) * d == s * d + t * d
  {
  }

  lemma {:induction false} NoTurns(rings: seq<seq<Point>>, stored: seq<Point>)
    requires forall n :: 0 <= n < |rings| ==> Turn(rings[n], stored) == 0.0
    ensures NetTurn(rings, stored) == 0.0
  {
    hide Turn;
    if rings != [] { NoTurns(rings[..|rings| - 1], stored); }
  }

  lemma {:induction false} OneTurns(rings: seq<seq<Point>>, stored: seq<Point>, i: nat)
    requires i < |rings| && forall n :: 0 <= n < |rings| && n != i ==> Turn(rings[n], stored) == 0.0
    ensures NetTurn(rings, stored) == Turn(rings[i], stored)
  {
    hide Turn;
    var n := |rings| - 1;
    if i == n {
      NoTurns(rings[..n], stored);
    } else {
      OneTurns(rings[..n], stored, i);
    }
  }

  lemma {:induction false} TwoRingsTurn(rings: seq<seq<Point>>, stored: seq<Point>, i: nat, j: nat)
    requires i < j < |rings| && forall n :: 0 <= n < |rings| && n != i && n != j ==> Turn(rings[n], stored) == 0.0
    ensures NetTurn(rings, stored) == Turn(rings[i], stored) + Turn(rings[j], stored)
  {
    hide Turn;
    var n := |rings| - 1;
    if j == n {
      OneTurns(rings[..n], stored, i);
    } else {
      TwoRingsTurn(rings[..n], stored, i, j);
    }
  }

  lemma TurnMeans(ring: seq<Point>, stored: seq<Point>)
    requires |stored| >= 2
    ensures Turn(ring, stored) == if Adjacent(ring, stored[0], stored[1]) then Sign(ring, stored) else 0.0
  {
  }

  /** What runs along an inner edge adds up from its two rings: to nothing if they run in opposite directions. */
  lemma InnerNetTurn(c: Coverage, cuts: seq<seq<nat>>, keys: seq<seq<Key>>, table: map<Key, Record>, k: Key)
    returns (i: nat, j: nat)
    requires Built(c, cuts, keys, table) && k in table && table[k].count == 2
    ensures i < j < |c.rings| && |keys| == |c.rings|
    ensures forall n :: 0 <= n < |c.rings| ==> (k in keys[n] <==> n == i || n == j)
    ensures NetTurn(c.rings, table[k].pts) == Sign(c.rings[i], table[k].pts) + Sign(c.rings[j], table[k].pts)
    ensures OppositeTraversal(c.rings) ==> NetTurn(c.rings, table[k].pts) == 0.0
  {
    hide *;
    i, j := InnerEdgeRings(c, cuts, keys, table, k);
    forall n | 0 <= n < |c.rings|
      ensures Turn(c.rings[n], table[k].pts) == if n == i || n == j then Sign(c.rings[n], table[k].pts) else 0.0
    {
      UsesEdge(c, cuts, keys, table, n, k);
      TurnMeans(c.rings[n], table[k].pts);
    }
    TwoRingsTurn(c.rings, table[k].pts, i, j);
    UsesEdge(c, cuts, keys, table, i, k);
    UsesEdge(c, cuts, keys, table, j, k);
    if OppositeTraversal(c.rings) { OppositeSigns(c.rings, i, j, table[k].pts); }
  }

  // What new points for an edge change of the total area.
  function EdgeChange(rings: seq<seq<Point>>, stored: seq<Point>, before: seq<Point>, after: seq<Point>): real {
    NetTurn(rings, stored) * (Runs.PathSum(after) - Runs.PathSum(before))
  }

  lemma PartChange(ring: seq<Point>, table: map<Key, Record>, cur: map<Key, seq<Point>>, k: Key, q: seq<Point>,
                   d: real)
    requires k in table && k in cur && |table[k].pts| >= 2 && d == Runs.PathSum(q) - Runs.PathSum(cur[k])
    ensures Adjacent(ring, table[k].pts[0], table[k].pts[1]) ==>
      PartArea(ring, table, cur[k := q], k) - PartArea(ring, table, cur, k) == Turn(ring, table[k].pts) * d
    ensures !Adjacent(ring, table[k].pts[0], table[k].pts[1]) ==> Turn(ring, table[k].pts) * d == 0.0
  {
    PartAreaIs(ring, table, cur, k, q);
    hide Runs.PathSum;
  }

  /** New points for any edge change the sum of the ring areas by their own change times what the rings run along it. */
  lemma OneChange(c: Coverage, cuts: seq<seq<nat>>, keys: seq<seq<Key>>, table: map<Key, Record>,
                  cur: map<Key, seq<Point>>, k: Key, q: seq<Point>)
    requires Built(c, cuts, keys, table) && Current(table, cur) && k in table
    ensures Current(table, cur[k := q]) && |keys| == |c.rings| && KeysKnown(keys, table, cur)
    ensures KeysKnown(keys, table, cur[k := q]) && k in cur
    ensures Sum(EdgeSums(c, keys, table, cur[k := q])) - Sum(EdgeSums(c, keys, table, cur)) ==
            EdgeChange(c.rings, table[k].pts, cur[k], q)
  {
    hide *;
    CurrentSet(table, cur, k, q);
    BuiltKnows(c, cuts, keys, table, cur);
    BuiltKnows(c, cuts, keys, table, cur[k := q]);
    var xs, ys := EdgeSums(c, keys, table, cur), EdgeSums(c, keys, table, cur[k := q]);
    var d := Runs.PathSum(q) - Runs.PathSum(cur[k]);
    forall n | 0 <= n < |xs| ensures ys[n] - xs[n] == Turn(c.rings[n], table[k].pts) * d {
      UsesEdge(c, cuts, keys, table, n, k);
      RingAreaChange(c, cuts, keys, table, cur, k, q, n);
      PartChange(c.rings[n], table, cur, k, q, d);
    }
    SumScaled(xs, ys, c.rings, table[k].pts, d);
    EdgeChangeIs(c.rings, table[k].pts, cur[k], q);
  }

  lemma CurrentSet(table: map<Key, Record>, cur: map<Key, seq<Point>>, k: Key, q: seq<Point>)
    requires Current(table, cur) && k in table
    ensures Current(table, cur[k := q]) && k in cur
  {
  }

  lemma EdgeChangeIs(rings: seq<seq<Point>>, stored: seq<Point>, before: seq<Point>, after: seq<Point>)
    ensures EdgeChange(rings, stored, before, after) ==
      NetTurn(rings, stored) * (Runs.PathSum(after) - Runs.PathSum(before))
  {
  }

  // The change of the total area when two rings run along an edge, turning as s and t.
  function TotalChange(s: real, t: real, before: seq<Point>, after: seq<Point>): real {
    if s == t then 2.0 * s * (Runs.PathSum(after) - Runs.PathSum(before)) else 0.0
  }

  lemma TwoTurns(rings: seq<seq<Point>>, stored: seq<Point>, s: real, t: real, before: seq<Point>, after: seq<Point>)
    requires (s == 1.0 || s == -1.0) && (t == 1.0 || t == -1.0) && NetTurn(rings, stored) == s + t
    ensures EdgeChange(rings, stored, before, after) == TotalChange(s, t, before, after)
    ensures s + t == 0.0 ==> EdgeChange(rings, stored, before, after) == 0.0
  {
    hide NetTurn;
    hide Runs.PathSum;
  }

  lemma SignIsOne(ring: seq<Point>, stored: seq<Point>)
    ensures Sign(ring, stored) == 1.0 || Sign(ring, stored) == -1.0
  {
  }

  /**
   New points for an inner edge leave the sum of the ring areas unchanged if its two rings run along it in
   opposite directions; otherwise they change it by twice what they change under the edge.
   */
  lemma InnerChange(c: Coverage, cuts: seq<seq<nat>>, keys: seq<seq<Key>>, table: map<Key, Record>,
                    cur: map<Key, seq<Point>>, k: Key, q: seq<Point>)
    returns (i: nat, j: nat)
    requires Built(c, cuts, keys, table) && Current(table, cur) && k in table && table[k].count == 2
    ensures Current(table, cur[k := q]) && |keys| == |c.rings| && KeysKnown(keys, table, cur)
    ensures KeysKnown(keys, table, cur[k := q]) && k in cur
    ensures i < j < |c.rings| && forall n :: 0 <= n < |c.rings| ==> (k in keys[n] <==> n == i || n == j)
    ensures Sum(EdgeSums(c, keys, table, cur[k := q])) - Sum(EdgeSums(c, keys, table, cur)) ==
            TotalChange(Sign(c.rings[i], table[k].pts), Sign(c.rings[j], table[k].pts), cur[k], q)
    ensures OppositeTraversal(c.rings) ==>
      Sum(EdgeSums(c, keys, table, cur[k := q])) == Sum(EdgeSums(c, keys, table, cur))
  {
    hide *;
    i, j := InnerNetTurn(c, cuts, keys, table, k);
    OneChange(c, cuts, keys, table, cur, k, q);
    SignIsOne(c.rings[i], table[k].pts);
    SignIsOne(c.rings[j], table[k].pts);
    TwoTurns(c.rings, table[k].pts, Sign(c.rings[i], table[k].pts), Sign(c.rings[j], table[k].pts), cur[k], q);
  }

  // The changes under the edges listed.
  function EdgeChanges(rings: seq<seq<Point>>, table: map<Key, Record>, before: map<Key, seq<Point>>,
                       after: map<Key, seq<Point>>, order: seq<Key>): real
    requires forall k :: k in order ==> k in table && k in before && k in after
  {
    if order == [] then 0.0
    else
      var n := |order| - 1;
      EdgeChanges(rings, table, before, after, order[..n]) +
      EdgeChange(rings, table[order[n]].pts, before[order[n]], after[order[n]])
  }

  lemma {:induction false} ChangesOnly(rings: seq<seq<Point>>, table: map<Key, Record>, before: map<Key, seq<Point>>,
                                       after: map<Key, seq<Point>>, mid: map<Key, seq<Point>>, order: seq<Key>)
    requires forall k :: k in order ==> k in table && k in before && k in after && k in mid && mid[k] == after[k]
    ensures EdgeChanges(rings, table, before, mid, order) == EdgeChanges(rings, table, before, after, order)
  {
    hide EdgeChange;
    if order != [] {
      assert order[|order| - 1] in order;
      ChangesOnly(rings, table, before, after, mid, order[..|order| - 1]);
    }
  }

  // All keys, each once.
  ghost predicate Lists(order: seq<Key>, keys: set<Key>) {
    && (forall i, j :: 0 <= i < j < |order| ==> order[i] != order[j])
    && (forall k :: k in order <==> k in keys)
  }

  lemma {:induction false} KeysListed(keys: set<Key>) returns (order: seq<Key>)
    ensures Lists(order, keys)
  {
    if keys == {} {
      order := [];
    } else {
      var k :| k in keys;
      var rest := KeysListed(keys - {k});
      order := rest + [k];
    }
  }

  lemma LastListed(order: seq<Key>, keys: set<Key>)
    requires Lists(order, keys) && order != []
    ensures var n := |order| - 1; order[n] in keys && Lists(order[..n], keys - {order[n]})
  {
    var n := |order| - 1;
    assert order == order[..n] + [order[n]];
  }

  /** However the edges are changed, the total area changes by what their changes add up to. */
  lemma {:induction false} AllChanges(c: Coverage, cuts: seq<seq<nat>>, keys: seq<seq<Key>>, table: map<Key, Record>,
                                      before: map<Key, seq<Point>>, after: map<Key, seq<Point>>, order: seq<Key>,
                                      rest: set<Key>)
    requires Built(c, cuts, keys, table) && Current(table, before) && Current(table, after)
    requires Lists(order, rest) && rest <= table.Keys
    requires forall k :: k in table && before[k] != after[k] ==> k in rest
    ensures |keys| == |c.rings| && KeysKnown(keys, table, before) && KeysKnown(keys, table, after)
    ensures forall k :: k in order ==> k in table && k in before && k in after
    ensures Sum(EdgeSums(c, keys, table, after)) - Sum(EdgeSums(c, keys, table, before)) ==
            EdgeChanges(c.rings, table, before, after, order)
    decreases |order|
  {
    hide Built;
    hide EdgeChange;
    hide Sum;
    BuiltKnows(c, cuts, keys, table, before);
    BuiltKnows(c, cuts, keys, table, after);
    if order == [] {
      assert before == after;
    } else {
      var n := |order| - 1;
      var k := order[n];
      LastListed(order, rest);
      var mid := after[k := before[k]];
      assert mid[k := after[k]] == after;
      AllChanges(c, cuts, keys, table, before, mid, order[..n], rest - {k});
      ChangesOnly(c.rings, table, before, after, mid, order[..n]);
      OneChange(c, cuts, keys, table, mid, k, after[k]);
    }
  }

  // Only inner edges have other points.
  predicate InnerOnly(table: map<Key, Record>, before: map<Key, seq<Point>>, after: map<Key, seq<Point>>) {
    && Current(table, before)
    && Current(table, after)
    && forall k :: k in table && before[k] != after[k] ==> table[k].count == 2
  }

  /** However the inner edges are changed, the signed areas of all rings sum to the same. */
  lemma {:induction false} InnerChangesConserve(c: Coverage, cuts: seq<seq<nat>>, keys: seq<seq<Key>>,
                                                table: map<Key, Record>,
                                                before: map<Key, seq<Point>>, after: map<Key, seq<Point>>,
                                                rest: set<Key>)
    requires Built(c, cuts, keys, table) && OppositeTraversal(c.rings) && InnerOnly(table, before, after)
    requires forall k :: k in table && before[k] != after[k] ==> k in rest
    ensures |keys| == |c.rings| && KeysKnown(keys, table, before) && KeysKnown(keys, table, after)
    ensures Sum(EdgeSums(c, keys, table, after)) == Sum(EdgeSums(c, keys, table, before))
    decreases rest
  {
    hide Built;
    BuiltKnows(c, cuts, keys, table, before);
    BuiltKnows(c, cuts, keys, table, after);
    if rest == {} {
      assert before == after;
    } else {
      var k :| k in rest;
      if k in table && table[k].count == 2 {
        var i, j := InnerChange(c, cuts, keys, table, before, k, after[k]);
        InnerChangesConserve(c, cuts, keys, table, before[k := after[k]], after, rest - {k});
      } else {
        InnerChangesConserve(c, cuts, keys, table, before, after, rest - {k});
      }
    }
  }
}
