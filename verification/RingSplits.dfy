/**
 Splitting a ring at its nodes and joining the parts again.
 */
module RingSplits {
  import opened Planar
  import opened CoordinateLists
  import opened CoverageRings
  import opened CoverageNodes
  import opened CoverageSections
  import opened CoverageKeys
  import opened CoverageEdges

  // ---- Cutting

  // The indices of the nodes of a ring, in order.
  predicate CutsOf(ring: seq<Point>, nodes: set<Point>, cuts: seq<nat>) {
    && |ring| >= 2
    && (forall m :: 0 <= m < |cuts| ==> cuts[m] < |ring| - 1 && ring[cuts[m]] in nodes)
    && (forall m, n :: 0 <= m < n < |cuts| ==> cuts[m] < cuts[n])
    && (forall i :: 0 <= i < |ring| - 1 && ring[i] in nodes ==> i in cuts)
  }

  // The index of the cut where piece m ends.
  function EndOf(cuts: seq<nat>, m: nat): nat
    requires m < |cuts|
  {
    if m + 1 < |cuts| then cuts[m + 1] else cuts[0]
  }

  function Pieces(ring: seq<Point>, cuts: seq<nat>): (ps: seq<seq<Point>>)
    requires forall m :: 0 <= m < |cuts| ==> cuts[m] < |ring|
    ensures |ps| == if cuts == [] then 1 else |cuts|
  {
    if cuts == [] then [ring]
    else seq(|cuts|, m requires 0 <= m < |cuts| => Section(ring, cuts[m], EndOf(cuts, m)))
  }

  lemma NoNodeBetween(ring: seq<Point>, nodes: set<Point>, cuts: seq<nat>, m: nat)
    requires CutsOf(ring, nodes, cuts) && m < |cuts|
    ensures NextNode(ring, nodes, cuts[m], EndOf(cuts, m))
  {
    forall i | 0 <= i < |ring| - 1 && ring[i] in nodes
      ensures i <= cuts[m] || (m + 1 < |cuts| && cuts[m + 1] <= i)
      ensures cuts[0] <= i
    {
      var n :| 0 <= n < |cuts| && cuts[n] == i;
    }
  }

  lemma CutsEmpty(ring: seq<Point>, nodes: set<Point>, cuts: seq<nat>)
    requires SimpleRing(ring) && CutsOf(ring, nodes, cuts)
    ensures cuts == [] <==> NodeFree(ring, nodes)
  {
    if cuts == [] {
      forall v | v in ring ensures v !in nodes { var x := IndexOfVertex(ring, v); }
    } else {
      assert ring[cuts[0]] in ring;
    }
  }

  /** The parts of a ring are its edges. */
  lemma PieceIsEdge(ring: seq<Point>, nodes: set<Point>, cuts: seq<nat>, m: nat)
    requires SimpleRing(ring) && CutsOf(ring, nodes, cuts) && m < |Pieces(ring, cuts)|
    ensures IsEdge(ring, nodes, Pieces(ring, cuts)[m])
  {
    CutsEmpty(ring, nodes, cuts);
    if cuts != [] {
      NoNodeBetween(ring, nodes, cuts, m);
      SectionIsNodePath(ring, nodes, cuts[m], EndOf(cuts, m));
    }
  }

  // Ring segment x belongs to piece m.
  predicate InPiece(ring: seq<Point>, cuts: seq<nat>, m: nat, x: nat) {
    && x + 1 < |ring|
    && (cuts == [] || (m < |cuts| &&
         if m + 1 < |cuts| then cuts[m] <= x < cuts[m + 1] else cuts[m] <= x || x < cuts[0]))
  }

  lemma SegmentInjective(ring: seq<Point>, x: nat, y: nat)
    requires SimpleRing(ring) && x + 1 < |ring| && y + 1 < |ring| && SegmentOf(ring, x) == SegmentOf(ring, y)
    ensures x == y
  {
    NormalizedIsUndirected(ring[x], ring[x + 1], ring[y], ring[y + 1]);
  }

  // Segment t of a section is segment x of the ring.
  lemma SectionSegment(ring: seq<Point>, s: nat, e: nat, t: nat)
    requires SimpleRing(ring) && s < |ring| - 1 && e < |ring| - 1 && t + 1 < |Section(ring, s, e)|
    ensures PlaceOf(ring, s, t) + 1 < |ring|
    ensures SegmentOf(Section(ring, s, e), t) == SegmentOf(ring, PlaceOf(ring, s, t))
  {
    SectionAt(ring, s, e, t);
    SectionAt(ring, s, e, t + 1);
  }

  // Indices within the ring, rising.
  predicate Rising(ring: seq<Point>, cuts: seq<nat>) {
    && (forall i :: 0 <= i < |cuts| ==> cuts[i] < |ring| - 1)
    && (forall i, j :: 0 <= i < j < |cuts| ==> cuts[i] < cuts[j])
  }

  // Ring segment x is in the section from s to e.
  predicate InSection(ring: seq<Point>, s: nat, e: nat, x: nat) {
    x + 1 < |ring| && if s < e then s <= x < e else s <= x || x < e
  }

  lemma PieceAt(ring: seq<Point>, cuts: seq<nat>, m: nat)
    requires Rising(ring, cuts) && |ring| >= 2 && m < |cuts|
    ensures cuts[m] < |ring| - 1 && EndOf(cuts, m) < |ring| - 1
    ensures Pieces(ring, cuts)[m] == Section(ring, cuts[m], EndOf(cuts, m))
    ensures forall x :: InPiece(ring, cuts, m, x) <==> InSection(ring, cuts[m], EndOf(cuts, m), x)
  {
    assert m > 0 ==> cuts[0] < cuts[m];
  }

  lemma SectionHas(ring: seq<Point>, s: nat, e: nat, x: nat)
    requires SimpleRing(ring) && s < |ring| - 1 && e < |ring| - 1 && InSection(ring, s, e, x)
    ensures SegmentOf(ring, x) in Segments(Section(ring, s, e))
  {
    var t := if x >= s then x - s else x - s + |ring| - 1;
    SectionSegment(ring, s, e, t);
    assert SegmentOf(Section(ring, s, e), t) in Segments(Section(ring, s, e));
  }

  lemma SectionOnly(ring: seq<Point>, s: nat, e: nat, g: (Point, Point)) returns (x: nat)
    requires SimpleRing(ring) && s < |ring| - 1 && e < |ring| - 1 && g in Segments(Section(ring, s, e))
    ensures InSection(ring, s, e, x) && SegmentOf(ring, x) == g
  {
    var q := Section(ring, s, e);
    var t :| 0 <= t < |q| - 1 && SegmentOf(q, t) == g;
    SectionSegment(ring, s, e, t);
    x := PlaceOf(ring, s, t);
  }

  lemma PieceSegment(ring: seq<Point>, cuts: seq<nat>, m: nat, g: (Point, Point)) returns (x: nat)
    requires SimpleRing(ring) && Rising(ring, cuts) && m < |Pieces(ring, cuts)| && g in Segments(Pieces(ring, cuts)[m])
    ensures InPiece(ring, cuts, m, x) && SegmentOf(ring, x) == g
  {
    if cuts == [] {
      x :| 0 <= x < |ring| - 1 && SegmentOf(ring, x) == g;
    } else {
      PieceAt(ring, cuts, m);
      x := SectionOnly(ring, cuts[m], EndOf(cuts, m), g);
    }
  }

  lemma SegmentPiece(ring: seq<Point>, cuts: seq<nat>, m: nat, x: nat)
    requires SimpleRing(ring) && Rising(ring, cuts) && m < |Pieces(ring, cuts)| && InPiece(ring, cuts, m, x)
    ensures SegmentOf(ring, x) in Segments(Pieces(ring, cuts)[m])
  {
    if cuts != [] {
      PieceAt(ring, cuts, m);
      hide *;
      SectionHas(ring, cuts[m], EndOf(cuts, m), x);
    }
  }

  lemma OnePieceOnly(ring: seq<Point>, cuts: seq<nat>, m: nat, n: nat, x: nat)
    requires Rising(ring, cuts) && m < n < |cuts| && InPiece(ring, cuts, m, x)
    ensures !InPiece(ring, cuts, n, x)
  {
    assert cuts[0] <= cuts[m];
    assert cuts[m + 1] <= cuts[n];
  }

  lemma {:induction false} FindPiece(ring: seq<Point>, cuts: seq<nat>, x: nat) returns (m: nat)
    requires x + 1 < |ring|
    ensures InPiece(ring, cuts, m, x) && m < if cuts == [] then 1 else |cuts|
  {
    if cuts == [] {
      m := 0;
    } else if x < cuts[0] {
      m := |cuts| - 1;
    } else {
      m := LastCut(cuts, x);
    }
  }

  lemma {:induction false} LastCut(cuts: seq<nat>, x: nat) returns (m: nat)
    requires cuts != [] && cuts[0] <= x
    ensures m < |cuts| && cuts[m] <= x && (m + 1 < |cuts| ==> x < cuts[m + 1])
  {
    var n := |cuts| - 1;
    if cuts[n] <= x {
      m := n;
    } else {
      m := LastCut(cuts[..n], x);
    }
  }

  /** Every segment of the ring is in one of its parts. */
  lemma PiecesCover(ring: seq<Point>, cuts: seq<nat>, s: (Point, Point)) returns (m: nat)
    requires SimpleRing(ring) && Rising(ring, cuts) && s in Segments(ring)
    ensures m < |Pieces(ring, cuts)| && s in Segments(Pieces(ring, cuts)[m])
  {
    var x :| 0 <= x < |ring| - 1 && SegmentOf(ring, x) == s;
    m := FindPiece(ring, cuts, x);
    SegmentPiece(ring, cuts, m, x);
  }

  /** And in no more than one. */
  lemma PiecesApart(ring: seq<Point>, cuts: seq<nat>, m: nat, n: nat, s: (Point, Point))
    requires SimpleRing(ring) && Rising(ring, cuts)
    requires m < |Pieces(ring, cuts)| && n < |Pieces(ring, cuts)|
    requires s in Segments(Pieces(ring, cuts)[m]) && s in Segments(Pieces(ring, cuts)[n])
    ensures m == n
  {
    var x := PieceSegment(ring, cuts, m, s);
    var y := PieceSegment(ring, cuts, n, s);
    SegmentInjective(ring, x, y);
    hide Segments;
    if m < n {
      OnePieceOnly(ring, cuts, m, n, x);
    } else if n < m {
      OnePieceOnly(ring, cuts, n, m, x);
    }
  }

  // ---- Joining

  // A path and another one that continues it.
  function Joined(a: seq<Point>, b: seq<Point>): seq<Point> {
    if a == [] || b == [] then a + b else a + b[1..]
  }

  function JoinAll(ps: seq<seq<Point>>): seq<Point> {
    if ps == [] then [] else Joined(JoinAll(ps[..|ps| - 1]), ps[|ps| - 1])
  }

  lemma JoinSlices(ring: seq<Point>, a: nat, b: nat, c: nat)
    requires a <= b < c < |ring|
    ensures Joined(ring[a..b + 1], Section(ring, b, c)) == ring[a..c + 1]
  {
    assert Section(ring, b, c)[1..] == ring[b + 1..c + 1];
  }

  lemma JoinLast(ring: seq<Point>, a: nat, b: nat)
    requires a < b < |ring| - 1
    ensures Joined(ring[a..b + 1], Section(ring, b, a)) == Section(ring, a, a)
  {
    assert Section(ring, b, a)[1..] == ring[b + 1..] + ring[1..a + 1];
    assert ring[a..b + 1] + ring[b + 1..] == ring[a..];
  }

  lemma JoinStep(ps: seq<seq<Point>>, m: nat)
    requires m < |ps|
    ensures JoinAll(ps[..m + 1]) == Joined(JoinAll(ps[..m]), ps[m])
  {
    assert ps[..m + 1][..m] == ps[..m];
  }

  lemma JoinedNothing(b: seq<Point>)
    ensures JoinAll([]) == [] && Joined([], b) == b
  {
  }

  lemma CutsRise(ring: seq<Point>, cuts: seq<nat>, m: nat)
    requires Rising(ring, cuts) && 0 < m < |cuts| && |ring| >= 2
    ensures cuts[0] <= cuts[m - 1] < cuts[m] < |ring| - 1 && EndOf(cuts, m - 1) == cuts[m]
  {
  }

  lemma JoinSetup(ring: seq<Point>, cuts: seq<nat>, m: nat)
    requires SimpleRing(ring) && Rising(ring, cuts) && 0 < m < |cuts|
    ensures forall i :: 0 <= i < |cuts| ==> cuts[i] < |ring|
    ensures cuts[0] <= cuts[m - 1] < cuts[m] && |Pieces(ring, cuts)| == |cuts|
    ensures Pieces(ring, cuts)[m - 1] == Section(ring, cuts[m - 1], cuts[m])
  {
    PieceAt(ring, cuts, m - 1);
    CutsRise(ring, cuts, m);
  }

  lemma JoinFirst(ring: seq<Point>, cuts: seq<nat>, m: nat)
    requires SimpleRing(ring) && Rising(ring, cuts) && 0 < m < |cuts|
    ensures cuts[m] < |ring| && cuts[0] <= cuts[m]
    ensures |Pieces(ring, cuts)| == |cuts| && JoinAll(Pieces(ring, cuts)[..m]) == ring[cuts[0]..cuts[m] + 1]
  {
    hide *;
    JoinSetup(ring, cuts, m);
    var ps := Pieces(ring, cuts);
    JoinStep(ps, m - 1);
    if m == 1 {
      assert ps[..0] == [];
      JoinedNothing(ps[0]);
      FirstSlice(ring, cuts[0], cuts[1]);
    } else {
      JoinFirst(ring, cuts, m - 1);
      JoinSlices(ring, cuts[0], cuts[m - 1], cuts[m]);
    }
  }

  lemma FirstSlice(ring: seq<Point>, a: nat, b: nat)
    requires a < b < |ring|
    ensures Section(ring, a, b) == ring[a..b + 1]
  {
  }

  /** The parts of a ring join to the ring, started at its first node. */
  lemma PiecesJoin(ring: seq<Point>, cuts: seq<nat>)
    requires SimpleRing(ring) && Rising(ring, cuts)
    ensures JoinAll(Pieces(ring, cuts)) == if cuts == [] then ring else Section(ring, cuts[0], cuts[0])
  {
    var ps := Pieces(ring, cuts);
    var n := |ps| - 1;
    assert ps[..n + 1] == ps;
    if n == 0 {
      assert ps[..0] == [];
    } else {
      PieceAt(ring, cuts, n);
      JoinFirst(ring, cuts, n);
      CutsRise(ring, cuts, n);
      assert EndOf(cuts, n) == cuts[0];
      hide *;
      JoinStep(ps, n);
      JoinLast(ring, cuts[0], cuts[n]);
    }
  }
}
