/**
 Rings with repeated consecutive points, and rings that collapse to one: splitting works on
 rings without them, although nodes are looked for on the rings as they are given.
 */
module RepeatedPoints {
  import opened Planar
  import opened CoordinateLists
  import opened CoverageRings
  import opened CoverageNodes

  // The ring with consecutive repeats removed.
  function Compact(ring: seq<Point>): seq<Point> {
    AddAll([], ring)
  }

  // A ring that is empty or of one point only.
  predicate Collapsed(ring: seq<Point>) {
    |Compact(ring)| < 3
  }

  // What every ring is by construction: empty, or closed and of three points or more.
  predicate Linear(ring: seq<Point>) {
    ring == [] || (|ring| >= 3 && ring[0] == ring[|ring| - 1])
  }

  predicate AllLinear(rings: seq<seq<Point>>) {
    forall k :: 0 <= k < |rings| ==> Linear(rings[k])
  }

  // The rings without repeated points, those left out that collapse.
  function Compacted(rings: seq<seq<Point>>): seq<seq<Point>> {
    if rings == [] then []
    else
      var n := |rings| - 1;
      if Collapsed(rings[n]) then Compacted(rings[..n]) else Compacted(rings[..n]) + [Compact(rings[n])]
  }

  // The place of ring n among those that do not collapse.
  function Rank(rings: seq<seq<Point>>, n: nat): nat
    requires n <= |rings|
  {
    |Compacted(rings[..n])|
  }

  lemma RankNext(rings: seq<seq<Point>>, n: nat)
    requires n < |rings|
    ensures Compacted(rings[..n + 1]) ==
      if Collapsed(rings[n]) then Compacted(rings[..n]) else Compacted(rings[..n]) + [Compact(rings[n])]
    ensures Rank(rings, n + 1) == Rank(rings, n) + if Collapsed(rings[n]) then 0 else 1
  {
    assert rings[..n + 1][..n] == rings[..n];
  }

  lemma {:induction false} RankGrows(rings: seq<seq<Point>>, m: nat, n: nat)
    requires m <= n <= |rings|
    ensures Rank(rings, m) <= Rank(rings, n) && Compacted(rings[..n])[..Rank(rings, m)] == Compacted(rings[..m])
  {
    if m < n {
      RankGrows(rings, m, n - 1);
      RankNext(rings, n - 1);
    }
  }

  // Every ring that does not collapse is in its place.
  lemma CompactedAt(rings: seq<seq<Point>>, n: nat)
    requires n < |rings|
    ensures Rank(rings, n) <= Rank(rings, n + 1) <= |Compacted(rings)|
    ensures !Collapsed(rings[n]) ==>
      Rank(rings, n) < |Compacted(rings)| && Compacted(rings)[Rank(rings, n)] == Compact(rings[n])
  {
    RankNext(rings, n);
    RankGrows(rings, n + 1, |rings|);
    assert rings[..|rings|] == rings;
    if !Collapsed(rings[n]) {
      assert Compacted(rings[..n + 1])[Rank(rings, n)] == Compact(rings[n]);
    }
  }

  method RemoveRepeatedPoints(ring: seq<Point>) returns (pts: seq<Point>)
    ensures pts == Compact(ring)
  {
    pts := [];
    assert ring[..0] == [];
    for i := 0 to |ring|
      invariant pts == AddAll([], ring[..i])
    {
      AddAllStep([], ring, i);
      if !(pts != [] && pts[|pts| - 1] == ring[i]) {
        pts := pts + [ring[i]];
      }
    }
    assert ring[..|ring|] == ring;
  }

  // ---- Walking along a ring with repeats and without

  // How the walks before and after suppressing repeats compare, one point further on.
  lemma CompactNext(ring: seq<Point>)
    requires |ring| >= 2
    ensures var n := |ring| - 1; var r, p := Compact(ring[..n]), ring[n];
      && r != [] && r[|r| - 1] == ring[n - 1]
      && Compact(ring) == if ring[n - 1] == p then r else r + [p]
  {
    AddAllKeepsEnds(ring[..|ring| - 1]);
  }

  lemma CompactShort(ring: seq<Point>)
    requires |ring| <= 1
    ensures Compact(ring) == ring
  {
    if |ring| == 1 { assert AddAll([], ring[..0]) == []; }
  }

  // Suppressing repeats takes no segment with different ends away, and adds none.
  lemma {:induction false} CompactPasses(ring: seq<Point>, s: (Point, Point))
    requires s.0 != s.1
    ensures Passes(Compact(ring), s) == Passes(ring, s)
  {
    if |ring| >= 2 {
      var n := |ring| - 1;
      var r, p := Compact(ring[..n]), ring[n];
      CompactPasses(ring[..n], s);
      CompactNext(ring);
      if ring[n - 1] != p {
        assert (r + [p])[..|r|] == r;
        assert SegmentOf(r + [p], |r| - 1) == SegmentOf(ring, n - 1);
      }
    } else {
      CompactShort(ring);
    }
  }

  // A vertex is visited once more for each time it is repeated.
  lemma {:induction false} CompactVisits(ring: seq<Point>, v: Point)
    ensures Visits(ring, v) == Visits(Compact(ring), v) + Passes(ring, (v, v))
  {
    if |ring| >= 2 {
      var n := |ring| - 1;
      var r, p := Compact(ring[..n]), ring[n];
      CompactVisits(ring[..n], v);
      CompactNext(ring);
      if ring[n - 1] != p {
        assert (r + [p])[..|r|] == r;
      }
    } else {
      CompactShort(ring);
    }
  }

  // A walk that has passed a segment has it among its segments.
  lemma {:induction false} PassedAt(ring: seq<Point>, s: (Point, Point)) returns (i: nat)
    requires Passes(ring, s) > 0
    ensures i + 1 < |ring| && SegmentOf(ring, i) == s
  {
    i := |ring| - 2;
    if SegmentOf(ring, i) != s {
      i := PassedAt(ring[..|ring| - 1], s);
    }
  }

  lemma {:induction false} PassesThere(ring: seq<Point>, i: nat)
    requires i + 1 < |ring|
    ensures Passes(ring, SegmentOf(ring, i)) > 0
  {
    if i + 2 < |ring| {
      PassesThere(ring[..|ring| - 1], i);
      assert SegmentOf(ring[..|ring| - 1], i) == SegmentOf(ring, i);
    }
  }

  lemma {:induction false} PrefixPassesOnce(ring: seq<Point>, n: nat, s: (Point, Point))
    requires SimpleRing(ring) && n < |ring|
    ensures Passes(ring[..n + 1], s) == One(s in Segments(ring[..n + 1]))
  {
    if n > 0 {
      PrefixPassesOnce(ring, n - 1, s);
      FirstSegments(ring, n - 1);
      PassesStep(ring, n - 1, s);
    }
  }

  lemma SimplePasses(ring: seq<Point>, s: (Point, Point))
    requires SimpleRing(ring)
    ensures Passes(ring, s) == One(s in Segments(ring))
  {
    PrefixPassesOnce(ring, |ring| - 1, s);
    assert ring[..|ring|] == ring;
  }

  lemma {:induction false} PrefixVisitsOnce(ring: seq<Point>, n: nat, v: Point)
    requires SimpleRing(ring) && n < |ring|
    ensures Visits(ring[..n + 1], v) == One(v in ring[1..n + 1])
  {
    if n > 0 {
      PrefixVisitsOnce(ring, n - 1, v);
      VisitsStep(ring, n, v);
      assert ring[1..n + 1] == ring[1..n] + [ring[n]];
    }
  }

  lemma SimpleVisits(ring: seq<Point>, v: Point)
    requires SimpleRing(ring)
    ensures Visits(ring, v) == One(v in ring)
  {
    var n := |ring| - 1;
    PrefixVisitsOnce(ring, n, v);
    assert ring[..|ring|] == ring && ring[1..|ring|] == ring[1..];
    assert ring == [ring[0]] + ring[1..] && ring[1..][n - 1] == ring[0];
  }

  lemma {:induction false} VisitsThere(ring: seq<Point>, i: nat)
    requires 0 < i < |ring|
    ensures Visits(ring, ring[i]) > 0
  {
    if i + 1 < |ring| { VisitsThere(ring[..|ring| - 1], i); }
  }

  lemma VisitsTwice(ring: seq<Point>, i: nat, j: nat)
    requires 0 < i < j < |ring| && ring[i] == ring[j]
    ensures Visits(ring, ring[i]) > 1
    decreases |ring|
  {
    if j + 1 < |ring| {
      VisitsTwice(ring[..|ring| - 1], i, j);
    } else {
      VisitsThere(ring[..|ring| - 1], i);
    }
  }

  // ---- All rings

  // Rings that are simple but for repeated points, or collapse.
  ghost predicate SimpleApart(rings: seq<seq<Point>>) {
    forall k :: 0 <= k < |rings| ==> Linear(rings[k]) && (Collapsed(rings[k]) || SimpleRing(Compact(rings[k])))
  }

  lemma {:induction false} CompactedSimple(rings: seq<seq<Point>>)
    requires SimpleApart(rings)
    ensures forall k :: 0 <= k < |Compacted(rings)| ==> SimpleRing(Compacted(rings)[k])
  {
    hide SimpleRing;
    hide Linear;
    if rings != [] { CompactedSimple(rings[..|rings| - 1]); }
  }

  lemma {:induction false} CompactLength(ring: seq<Point>)
    ensures |Compact(ring)| <= |ring|
  {
    if |ring| > 0 { CompactLength(ring[..|ring| - 1]); }
  }

  // Only repeats keep the ring from being simple, so it is closed and long enough.
  lemma StillRing(ring: seq<Point>)
    requires SimpleRing(Compact(ring))
    ensures IsRing(ring)
  {
    CompactLength(ring);
    AddAllKeepsEnds(ring);
  }

  lemma CompactUses(ring: seq<Point>, v: Point)
    requires SimpleRing(Compact(ring))
    ensures VertexUses(ring, v) == One(v in Compact(ring)) + Passes(ring, (v, v))
  {
    StillRing(ring);
    CompactVisits(ring, v);
    SimpleVisits(Compact(ring), v);
  }

  lemma {:induction false} CompactKeeps(ring: seq<Point>, v: Point)
    ensures v in ring <==> v in Compact(ring)
  {
    if ring != [] {
      var n := |ring| - 1;
      CompactKeeps(ring[..n], v);
      assert ring == ring[..n] + [ring[n]];
    }
  }

  lemma {:induction false} CompactNoRepeats(ring: seq<Point>)
    ensures NoRepeats(Compact(ring))
  {
    if ring != [] { CompactNoRepeats(ring[..|ring| - 1]); }
  }

  // A ring that collapses does so to a point.
  lemma CollapsedIsPoint(ring: seq<Point>, p: Point)
    requires Linear(ring) && Collapsed(ring) && p in ring
    ensures p == ring[0]
  {
    CompactNoRepeats(ring);
    AddAllKeepsEnds(ring);
    CompactKeeps(ring, p);
  }

  lemma {:induction false} PointPasses(ring: seq<Point>, s: (Point, Point))
    requires forall p :: p in ring ==> p == ring[0]
    ensures Passes(ring, s) == if ring != [] && s == (ring[0], ring[0]) then |ring| - 1 else 0
  {
    if |ring| >= 2 {
      var n := |ring| - 1;
      assert ring[n] in ring && ring[n - 1] in ring;
      assert forall p :: p in ring[..n] ==> p in ring;
      PointPasses(ring[..n], s);
    }
  }

  lemma {:induction false} PointVisits(ring: seq<Point>, v: Point)
    requires forall p :: p in ring ==> p == ring[0]
    ensures Visits(ring, v) == if ring != [] && v == ring[0] then |ring| - 1 else 0
  {
    if |ring| >= 2 {
      var n := |ring| - 1;
      assert ring[n] in ring;
      assert forall p :: p in ring[..n] ==> p in ring;
      PointVisits(ring[..n], v);
    }
  }

  // A ring that collapses passes no segment but the one without length, where it counts more than twice.
  lemma CollapsedUses(ring: seq<Point>, v: Point)
    requires Linear(ring) && Collapsed(ring)
    ensures forall s: (Point, Point) :: s.0 != s.1 ==> Passes(ring, s) == 0
    ensures VertexUses(ring, v) >= Passes(ring, (v, v))
    ensures Repeats(ring, v) ==> VertexUses(ring, v) > 2
    ensures !Repeats(ring, v) ==> VertexUses(ring, v) == 0
  {
    forall p | p in ring ensures p == ring[0] { CollapsedIsPoint(ring, p); }
    hide Collapsed;
    forall s: (Point, Point) | s.0 != s.1 ensures Passes(ring, s) == 0 { PointPasses(ring, s); }
    PointPasses(ring, (v, v));
    PointVisits(ring, v);
  }

  predicate Repeats(ring: seq<Point>, v: Point) {
    Passes(ring, (v, v)) > 0
  }

  // No ring collapses to the point v.
  ghost predicate NoneCollapsesTo(rings: seq<seq<Point>>, v: Point) {
    forall k :: 0 <= k < |rings| && Collapsed(rings[k]) ==> !Repeats(rings[k], v)
  }

  lemma RingUses(ring: seq<Point>, v: Point)
    requires Linear(ring) && (Collapsed(ring) || SimpleRing(Compact(ring)))
    ensures var here := if !Collapsed(ring) && v in Compact(ring) then 1 else 0;
      && VertexUses(ring, v) >= here + Passes(ring, (v, v))
      && ((Collapsed(ring) && Repeats(ring, v)) || VertexUses(ring, v) == here + Passes(ring, (v, v)))
  {
    if Collapsed(ring) { CollapsedUses(ring, v); } else { CompactUses(ring, v); }
  }

  lemma VertexRingsMore(rings: seq<seq<Point>>, ring: seq<Point>, v: Point)
    ensures VertexRings(rings + [ring], v) == VertexRings(rings, v) + if v in ring then 1 else 0
  {
    VertexRingsStep(rings + [ring], |rings|, v);
    assert (rings + [ring])[..|rings| + 1] == rings + [ring];
    assert (rings + [ring])[..|rings|] == rings;
  }

  lemma SegmentRingsMore(rings: seq<seq<Point>>, ring: seq<Point>, s: (Point, Point))
    ensures SegmentRings(rings + [ring], s) == SegmentRings(rings, s) + if s in Segments(ring) then 1 else 0
  {
    SegmentRingsStep(rings + [ring], |rings|, s);
    assert (rings + [ring])[..|rings| + 1] == rings + [ring];
    assert (rings + [ring])[..|rings|] == rings;
  }

  /**
   A vertex counts once for every ring it is in and once for every time it is repeated, and no less where
   a ring collapses to it.
   */
  lemma {:induction false} UsesAre(rings: seq<seq<Point>>, v: Point)
    requires SimpleApart(rings)
    ensures TotalUses(rings, v) >= VertexRings(Compacted(rings), v) + TotalPasses(rings, (v, v))
    ensures NoneCollapsesTo(rings, v) ==>
      TotalUses(rings, v) == VertexRings(Compacted(rings), v) + TotalPasses(rings, (v, v))
  {
    if rings != [] {
      var n := |rings| - 1;
      UsesAre(rings[..n], v);
      RingUses(rings[n], v);
      VertexRingsMore(Compacted(rings[..n]), Compact(rings[n]), v);
      hide SimpleRing;
      hide VertexRings;
      hide Linear;
      hide VertexUses;
    }
  }

  lemma RingPasses(ring: seq<Point>, s: (Point, Point))
    requires Linear(ring) && (Collapsed(ring) || SimpleRing(Compact(ring))) && s.0 != s.1
    ensures Passes(ring, s) == if !Collapsed(ring) && s in Segments(Compact(ring)) then 1 else 0
  {
    if Collapsed(ring) {
      CollapsedUses(ring, s.0);
    } else {
      CompactPasses(ring, s);
      SimplePasses(Compact(ring), s);
    }
  }

  /** A segment with different ends is passed once for every ring it is in. */
  lemma {:induction false} PassesAre(rings: seq<seq<Point>>, s: (Point, Point))
    requires SimpleApart(rings) && s.0 != s.1
    ensures TotalPasses(rings, s) == SegmentRings(Compacted(rings), s)
  {
    if rings != [] {
      var n := |rings| - 1;
      PassesAre(rings[..n], s);
      RingPasses(rings[n], s);
      SegmentRingsMore(Compacted(rings[..n]), Compact(rings[n]), s);
      hide SimpleRing;
      hide SegmentRings;
      hide Linear;
      hide Segments;
    }
  }

  lemma {:induction false} PassesOfOne(rings: seq<seq<Point>>, k: nat, s: (Point, Point))
    requires k < |rings|
    ensures TotalPasses(rings, s) >= Passes(rings[k], s)
  {
    if k + 1 < |rings| { PassesOfOne(rings[..|rings| - 1], k, s); }
  }

  // The segments with different ends.
  function Proper(segs: set<(Point, Point)>): set<(Point, Point)> {
    set s | s in segs && s.0 != s.1
  }

  lemma SegmentProperEnds(ring: seq<Point>, s: (Point, Point))
    requires SimpleRing(ring) && s in Segments(ring)
    ensures s.0 != s.1
  {
    var i :| 0 <= i < |ring| - 1 && SegmentOf(ring, i) == s;
    BothNeighbours(ring, i);
  }

  lemma NoRingPasses(rings: seq<seq<Point>>, s: (Point, Point))
    requires (forall k :: 0 <= k < |rings| ==> SimpleRing(rings[k])) && s.0 == s.1
    ensures SegmentRings(rings, s) == 0
  {
    if SegmentRings(rings, s) > 0 {
      var k := CountFind(RingsWithSegment(rings, s));
      SegmentProperEnds(rings[k], s);
      assert false;
    }
  }

  /** The boundary is what is left of the segments found when those without length are disregarded. */
  lemma ProperIsBoundary(rings: seq<seq<Point>>, segs: set<(Point, Point)>)
    requires SimpleApart(rings) && IsOddSet(rings, segs)
    ensures IsBoundarySet(Compacted(rings), Proper(segs))
  {
    forall s ensures s in Proper(segs) <==> SegmentRings(Compacted(rings), s) % 2 == 1 {
      if s.0 == s.1 {
        CompactedSimple(rings);
        NoRingPasses(Compacted(rings), s);
      } else {
        PassesAre(rings, s);
      }
    }
  }

  // ---- Repeated points are nodes

  // The nodes as the rings with their repeats give them.
  ghost predicate FirstNodes(rings: seq<seq<Point>>, segs: set<(Point, Point)>, first: set<Point>) {
    IsOddSet(rings, segs) && forall v :: v in first <==> TotalUses(rings, v) > 2 || Ends(segs, v) > 2
  }

  // The segments of a vertex of one ring only are in that ring only.
  lemma LoneSegment(rings: seq<seq<Point>>, k: nat, s: (Point, Point), v: Point)
    requires k < |rings| && s in Segments(rings[k]) && VertexRings(rings, v) <= 1 && (s.0 == v || s.1 == v)
    requires forall j :: 0 <= j < |rings| ==> SimpleRing(rings[j])
    ensures SegmentRings(rings, s) == 1
  {
    AtLeastOnce(rings, s, k);
    if SegmentRings(rings, s) >= 2 {
      var j := OtherRing(rings, s, k);
      SegmentVertex(rings[k], s, v);
      SegmentVertex(rings[j], s, v);
      var bs := RingsWithVertex(rings, v);
      if j < k { CountTwo(bs, j, k); } else { CountTwo(bs, k, j); }
    }
  }

  lemma SegmentVertex(ring: seq<Point>, s: (Point, Point), v: Point)
    requires s in Segments(ring) && (s.0 == v || s.1 == v)
    ensures v in ring
  {
    var i :| 0 <= i < |ring| - 1 && SegmentOf(ring, i) == s;
    assert ring[i] in ring && ring[i + 1] in ring;
  }

  lemma ThreeTouching(segs: set<(Point, Point)>, v: Point, r: (Point, Point), s: (Point, Point), t: (Point, Point))
    requires r in segs && s in segs && t in segs && r != s && s != t && r != t
    requires (r.0 == v || r.1 == v) && (s.0 == v || s.1 == v) && (t.0 == v || t.1 == v)
    ensures Ends(segs, v) > 2
  {
    var all := Touching(segs, v);
    assert {r, s, t} <= all;
    assert |{r, s, t}| == 3;
    SubsetSize({r, s, t}, all);
  }

  lemma {:induction false} SubsetSize<T>(a: set<T>, b: set<T>)
    requires a <= b
    ensures |a| <= |b|
  {
    if a != {} {
      var x :| x in a;
      SubsetSize(a - {x}, b - {x});
    }
  }

  // The two segments of a ring at a vertex, told apart.
  lemma SegmentsAtVertex(ring: seq<Point>, v: Point) returns (s: (Point, Point), t: (Point, Point))
    requires SimpleRing(ring) && v in ring
    ensures s in Segments(ring) && t in Segments(ring) && s != t && s.0 != s.1 && t.0 != t.1
    ensures (s.0 == v || s.1 == v) && (t.0 == v || t.1 == v)
  {
    var x := IndexOfVertex(ring, v);
    BothNeighbours(ring, x);
    var n, p := ring[NextIndex(ring, x)], ring[PrevIndex(ring, x)];
    s, t := Normalized(v, n), Normalized(v, p);
    NormalizedIsUndirected(v, n, v, p);
  }

  lemma RepeatedIsVertex(ring: seq<Point>, v: Point)
    requires Repeats(ring, v)
    ensures v in ring && v in Compact(ring)
  {
    var i := PassedAt(ring, (v, v));
    assert ring[i] in ring;
    CompactKeeps(ring, v);
  }

  lemma {:induction false} UsesOfOne(rings: seq<seq<Point>>, k: nat, v: Point)
    requires k < |rings|
    ensures TotalUses(rings, v) >= VertexUses(rings[k], v)
  {
    if k + 1 < |rings| { UsesOfOne(rings[..|rings| - 1], k, v); }
  }

  // Only a point that no ring collapses to is counted twice or less.
  lemma NoneCollapses(rings: seq<seq<Point>>, v: Point)
    requires SimpleApart(rings) && TotalUses(rings, v) <= 2
    ensures NoneCollapsesTo(rings, v)
  {
    forall k | 0 <= k < |rings| && Collapsed(rings[k]) ensures !Repeats(rings[k], v) {
      UsesOfOne(rings, k, v);
      CollapsedUses(rings[k], v);
    }
  }

  lemma RepeatUses(rings: seq<seq<Point>>, k: nat, v: Point) returns (n: nat)
    requires SimpleApart(rings) && k < |rings| && Repeats(rings[k], v) && TotalUses(rings, v) <= 2
    ensures var plain := Compacted(rings);
      && VertexRings(plain, v) == 1 && TotalPasses(rings, (v, v)) == 1
      && n < |plain| && v in plain[n] && forall j :: 0 <= j < |plain| ==> SimpleRing(plain[j])
  {
    hide SimpleRing;
    hide Linear;
    hide TotalUses;
    hide Repeats;
    NoneCollapses(rings, v);
    UsesAre(rings, v);
    PassesRepeat(rings, k, v);
    RepeatedIsVertex(rings[k], v);
    CompactedAt(rings, k);
    n := Rank(rings, k);
    CountOne(RingsWithVertex(Compacted(rings), v), n);
    CompactedSimple(rings);
  }

  lemma PassesRepeat(rings: seq<seq<Point>>, k: nat, v: Point)
    requires k < |rings| && Repeats(rings[k], v)
    ensures TotalPasses(rings, (v, v)) >= 1
  {
    PassesOfOne(rings, k, (v, v));
  }

  lemma OddOne(rings: seq<seq<Point>>, segs: set<(Point, Point)>, s: (Point, Point))
    requires IsOddSet(rings, segs) && TotalPasses(rings, s) == 1
    ensures s in segs
  {
  }

  lemma LoneIsOdd(rings: seq<seq<Point>>, segs: set<(Point, Point)>, k: nat, s: (Point, Point), v: Point)
    requires SimpleApart(rings) && IsOddSet(rings, segs)
    requires k < |Compacted(rings)| && s in Segments(Compacted(rings)[k])
    requires VertexRings(Compacted(rings), v) <= 1 && s.0 != s.1 && (s.0 == v || s.1 == v)
    ensures s in segs
  {
    CompactedSimple(rings);
    LoneSegment(Compacted(rings), k, s, v);
    PassesAre(rings, s);
    hide Segments;
    hide SegmentRings;
    hide VertexRings;
    OddOne(rings, segs, s);
  }

  lemma FirstNodesAre(rings: seq<seq<Point>>, segs: set<(Point, Point)>, first: set<Point>, v: Point)
    requires FirstNodes(rings, segs, first)
    ensures IsOddSet(rings, segs) && (v in first <==> TotalUses(rings, v) > 2 || Ends(segs, v) > 2)
  {
  }

  /** A repeated point is a node from the start, and so is one that a ring collapses to. */
  lemma RepeatIsNode(rings: seq<seq<Point>>, segs: set<(Point, Point)>, first: set<Point>, k: nat, v: Point)
    requires SimpleApart(rings) && FirstNodes(rings, segs, first) && k < |rings| && Repeats(rings[k], v)
    ensures v in first
  {
    hide *;
    FirstNodesAre(rings, segs, first, v);
    if TotalUses(rings, v) <= 2 {
      var n := RepeatUses(rings, k, v);
      var s, t := SegmentsAtVertex(Compacted(rings)[n], v);
      LoneIsOdd(rings, segs, n, s, v);
      LoneIsOdd(rings, segs, n, t, v);
      OddOne(rings, segs, (v, v));
      ThreeTouching(segs, v, (v, v), s, t);
    }
  }

  lemma {:induction false} PassedBySome(rings: seq<seq<Point>>, s: (Point, Point)) returns (k: nat)
    requires TotalPasses(rings, s) > 0
    ensures k < |rings| && Passes(rings[k], s) > 0
  {
    k := |rings| - 1;
    if Passes(rings[k], s) == 0 {
      k := PassedBySome(rings[..k], s);
    }
  }

  ghost predicate RepeatsSomewhere(rings: seq<seq<Point>>, v: Point) {
    exists k: nat :: k < |rings| && Repeats(rings[k], v)
  }

  lemma NotPassed(rings: seq<seq<Point>>, segs: set<(Point, Point)>, v: Point)
    requires IsOddSet(rings, segs) && !RepeatsSomewhere(rings, v)
    ensures TotalPasses(rings, (v, v)) == 0 && (v, v) !in segs
  {
    if TotalPasses(rings, (v, v)) > 0 {
      var k := PassedBySome(rings, (v, v));
      assert Repeats(rings[k], v);
    }
  }

  lemma EndsAre(segs: set<(Point, Point)>, v: Point)
    requires (v, v) !in segs
    ensures Ends(segs, v) == |Touching(Proper(segs), v)|
  {
    assert Touching(Proper(segs), v) == Touching(segs, v);
  }

  lemma TouchingProper(segs: set<(Point, Point)>, v: Point)
    ensures |Touching(Proper(segs), v)| <= Ends(segs, v)
  {
    SubsetSize(Touching(Proper(segs), v), Touching(segs, v));
  }

  /**
   The nodes found first: vertices of more than two rings, vertices where more than two boundary segments meet,
   and repeated points.
   */
  lemma FirstNodesExactly(rings: seq<seq<Point>>, segs: set<(Point, Point)>, first: set<Point>, v: Point)
    requires SimpleApart(rings) && FirstNodes(rings, segs, first)
    ensures v in first <==>
      VertexRings(Compacted(rings), v) > 2 || |Touching(Proper(segs), v)| > 2 || RepeatsSomewhere(rings, v)
  {
    UsesAre(rings, v);
    TouchingProper(segs, v);
    FirstNodesAre(rings, segs, first, v);
    hide FirstNodes;
    hide SimpleApart;
    hide Repeats;
    hide Ends;
    hide TotalUses;
    hide Compacted;
    if k: nat :| k < |rings| && Repeats(rings[k], v) {
      RepeatIsNode(rings, segs, first, k, v);
    } else {
      NotPassed(rings, segs, v);
      EndsAre(segs, v);
    }
  }

  // ---- Where the ring turns

  lemma NoRepeatMeans(ring: seq<Point>, i: nat)
    requires i + 1 < |ring| && !Repeats(ring, ring[i])
    ensures ring[i] != ring[i + 1]
  {
    PassesThere(ring, i);
  }

  // The neighbours along the ring as given are neighbours without the repeats too, and conversely.
  lemma SameSegments(ring: seq<Point>, s: (Point, Point))
    requires SimpleRing(Compact(ring)) && s.0 != s.1
    ensures s in Segments(Compact(ring)) <==> s in Segments(ring)
  {
    CompactPasses(ring, s);
    SimplePasses(Compact(ring), s);
    if Passes(ring, s) > 0 {
      var i := PassedAt(ring, s);
    }
    if s in Segments(ring) {
      var i :| 0 <= i < |ring| - 1 && SegmentOf(ring, i) == s;
      PassesThere(ring, i);
    }
  }

  // A vertex that is not repeated is in one place of the ring.
  lemma OnePlace(ring: seq<Point>, i: nat, j: nat)
    requires SimpleRing(Compact(ring)) && i < |ring| - 1 && j < |ring| - 1 && ring[i] == ring[j]
    requires !Repeats(ring, ring[i])
    ensures i == j
  {
    var v := ring[i];
    StillRing(ring);
    CompactVisits(ring, v);
    SimpleVisits(Compact(ring), v);
    if i != j {
      var p, q := if i == 0 then |ring| - 1 else i, if j == 0 then |ring| - 1 else j;
      if p < q { VisitsTwice(ring, p, q); } else { VisitsTwice(ring, q, p); }
    }
  }

  // The segments at a place of the ring as given.
  lemma SegmentsAround(ring: seq<Point>, i: nat)
    requires IsRing(ring) && i < |ring| - 1
    ensures SegmentOf(ring, i) == Normalized(ring[i], ring[NextIndex(ring, i)])
    ensures SegmentOf(ring, PrevIndex(ring, i)) == Normalized(ring[i], ring[PrevIndex(ring, i)])
    ensures SegmentOf(ring, i) in Segments(ring) && SegmentOf(ring, PrevIndex(ring, i)) in Segments(ring)
  {
    var p := PrevIndex(ring, i);
    NormalizedIsUndirected(ring[p], ring[i], ring[p], ring[i]);
  }

  lemma NeighboursDiffer(ring: seq<Point>, i: nat)
    requires IsRing(ring) && i < |ring| - 1 && !Repeats(ring, ring[i])
    ensures ring[NextIndex(ring, i)] != ring[i] && ring[PrevIndex(ring, i)] != ring[i]
  {
    NoRepeatMeans(ring, i);
    var p := PrevIndex(ring, i);
    PassesThere(ring, p);
  }

  lemma ProperSides(u: Point, v: Point)
    requires u != v
    ensures Normalized(u, v).0 != Normalized(u, v).1
  {
  }

  // Around a vertex that is not repeated the ring turns with its repeats just as it does without.
  lemma TurnsAlike(ring: seq<Point>, segs: set<(Point, Point)>, v: Point)
    requires SimpleRing(Compact(ring)) && !Repeats(ring, v)
    ensures IsRing(ring) && (v in Transitions(ring, segs) <==> v in Transitions(Compact(ring), Proper(segs)))
  {
    StillRing(ring);
    if v in Transitions(ring, segs) {
      TurnsWithout(ring, segs, v);
    }
    if v in Transitions(Compact(ring), Proper(segs)) {
      TurnsWith(ring, segs, v);
    }
  }

  lemma TurnsWithout(ring: seq<Point>, segs: set<(Point, Point)>, v: Point)
    requires SimpleRing(Compact(ring)) && !Repeats(ring, v) && IsRing(ring) && v in Transitions(ring, segs)
    ensures v in Transitions(Compact(ring), Proper(segs))
  {
    var i :| 0 <= i < |ring| - 1 && TurnsAt(ring, segs, i) && ring[i] == v;
    var u, w := ring[NextIndex(ring, i)], ring[PrevIndex(ring, i)];
    SegmentsAround(ring, i);
    NeighboursDiffer(ring, i);
    ProperSides(v, u);
    ProperSides(v, w);
    SameSegments(ring, Normalized(v, u));
    SameSegments(ring, Normalized(v, w));
    hide Segments;
    hide Transitions;
    hide Compact;
    if Normalized(v, u) in segs {
      TransitionHere(Compact(ring), Proper(segs), v, u, w);
    } else {
      TransitionHere(Compact(ring), Proper(segs), v, w, u);
    }
  }

  lemma SideIs(ring: seq<Point>, i: nat, v: Point, u: Point)
    requires SimpleRing(Compact(ring)) && IsRing(ring) && i < |ring| - 1 && ring[i] == v && !Repeats(ring, v)
    requires u != v && Adjacent(ring, v, u)
    ensures Normalized(v, u) == SegmentOf(ring, i) || Normalized(v, u) == SegmentOf(ring, PrevIndex(ring, i))
  {
    var j := AdjacentAt(ring, v, u);
    SegmentsAround(ring, i);
    if ring[j] == v {
      OnePlace(ring, i, j);
    } else {
      OnePlace(ring, i, if j + 1 == |ring| - 1 then 0 else j + 1);
    }
  }

  lemma TurnsWith(ring: seq<Point>, segs: set<(Point, Point)>, v: Point)
    requires SimpleRing(Compact(ring)) && !Repeats(ring, v) && IsRing(ring)
    requires v in Transitions(Compact(ring), Proper(segs))
    ensures v in Transitions(ring, segs)
  {
    var u, w := TransitionSegments(Compact(ring), Proper(segs), v);
    AdjacentDiffers(Compact(ring), v, u);
    AdjacentDiffers(Compact(ring), v, w);
    ProperSides(v, u);
    ProperSides(v, w);
    SameSegments(ring, Normalized(v, u));
    SameSegments(ring, Normalized(v, w));
    AdjacentInRing(ring, v, u);
    var i :| 0 <= i < |ring| && ring[i] == v;
    if i == |ring| - 1 { i := 0; }
    hide Segments;
    hide Compact;
    SideIs(ring, i, v, u);
    SideIs(ring, i, v, w);
    assert TurnsAt(ring, segs, i);
  }

  lemma AdjacentDiffers(ring: seq<Point>, v: Point, u: Point)
    requires SimpleRing(ring) && Adjacent(ring, v, u)
    ensures u != v
  {
    SegmentProperEnds(ring, Normalized(v, u));
  }

  /** Repeated points being nodes, it makes no difference whether turns are looked for with repeats or without. */
  lemma TransitionsAlike(rings: seq<seq<Point>>, segs: set<(Point, Point)>, first: set<Point>, nodes: set<Point>,
                         k: nat)
    requires SimpleApart(rings) && FirstNodes(rings, segs, first) && k < |rings| && first <= nodes
    requires !Collapsed(rings[k])
    ensures IsRing(rings[k]) && SimpleRing(Compact(rings[k]))
    ensures nodes + Transitions(rings[k], segs) == nodes + Transitions(Compact(rings[k]), Proper(segs))
  {
    assert SimpleRing(Compact(rings[k]));
    StillRing(rings[k]);
    forall v | v !in nodes
      ensures v in Transitions(rings[k], segs) <==> v in Transitions(Compact(rings[k]), Proper(segs))
    {
      if Repeats(rings[k], v) { RepeatIsNode(rings, segs, first, k, v); }
      TurnsAlike(rings[k], segs, v);
    }
  }

  // A ring that collapses turns nowhere.
  lemma CollapsedTurnsNowhere(ring: seq<Point>, segs: set<(Point, Point)>)
    requires Linear(ring) && Collapsed(ring) && ring != []
    ensures |ring| >= 2 && Transitions(ring, segs) == {}
  {
    forall i | 0 <= i < |ring| - 1 ensures !TurnsAt(ring, segs, i) {
      assert ring[i] in ring && ring[i + 1] in ring && ring[PrevIndex(ring, i)] in ring;
      assert ring[PrevIndex(ring, i) + 1] in ring;
      CollapsedIsPoint(ring, ring[i]);
      CollapsedIsPoint(ring, ring[i + 1]);
      CollapsedIsPoint(ring, ring[PrevIndex(ring, i)]);
      CollapsedIsPoint(ring, ring[PrevIndex(ring, i) + 1]);
    }
  }

  lemma {:induction false} CompactedApart(rings: seq<seq<Point>>)
    requires ValidCoverage(Compacted(rings)) && AllLinear(rings)
    ensures SimpleApart(rings)
  {
    forall k | 0 <= k < |rings| ensures Collapsed(rings[k]) || SimpleRing(Compact(rings[k])) {
      CompactedAt(rings, k);
      if !Collapsed(rings[k]) { assert SimpleRing(Compacted(rings)[Rank(rings, k)]); }
    }
  }

  /** So the rings without repeats can be split at them. */
  lemma FirstNodesSuffice(rings: seq<seq<Point>>, segs: set<(Point, Point)>, first: set<Point>)
    requires ValidCoverage(Compacted(rings)) && SimpleApart(rings) && FirstNodes(rings, segs, first)
    ensures Setting(Compacted(rings), Proper(segs), first)
  {
    ProperIsBoundary(rings, segs);
    hide FirstNodes;
    hide IsBoundarySet;
    hide RepeatsSomewhere;
    hide VertexRings;
    forall v ensures VertexRings(Compacted(rings), v) > 2 || |Touching(Proper(segs), v)| > 2 ==> v in first {
      FirstNodesExactly(rings, segs, first, v);
    }
  }
}
