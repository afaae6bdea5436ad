/**
 Point in ring by counting the crossings of a horizontal ray, with the half-open rule at
 vertices, and what the answer does not depend on.
 */
module RayCrossings {
  import opened Planar
  import opened CoordinateLists
  import opened Pasch

  datatype Location = Interior | Boundary | Exterior

  // One end is above the height y and the other is not.
  predicate Straddles(y: real, a: Point, b: Point) {
    (a.y > y) != (b.y > y)
  }

  // The segment crosses the ray that runs from p in the positive x direction.
  predicate Crosses(p: Point, a: Point, b: Point) {
    && Straddles(p.y, a, b)
    && if b.y < a.y then Orientation(a, b, p) < 0 else Orientation(a, b, p) > 0
  }

  // Counting the segment finds p on it: the start of a falling segment is left to the one before.
  predicate FindsOn(p: Point, a: Point, b: Point) {
    OnSegment(p, a, b) && (p == a && a != b ==> b.y >= a.y)
  }

  // ---- One segment

  lemma CrossFrom(p: Point, a: Point, b: Point)
    ensures Cross(a, b, p) == (a.x - p.x) * (b.y - p.y) - (b.x - p.x) * (a.y - p.y)
  {
  }

  lemma ProductSign(u: real, v: real)
    ensures u > 0.0 && v > 0.0 ==> u * v > 0.0
    ensures u < 0.0 && v > 0.0 ==> u * v < 0.0
    ensures u > 0.0 && v < 0.0 ==> u * v < 0.0
    ensures u < 0.0 && v < 0.0 ==> u * v > 0.0
    ensures u == 0.0 || v == 0.0 ==> u * v == 0.0
  {
  }

  lemma CrossSigns(p: Point, a: Point, b: Point)
    ensures var s, t := (a.x - p.x) * (b.y - p.y), (b.x - p.x) * (a.y - p.y); Cross(a, b, p) == s - t
    ensures var u, v := a.x - p.x, b.y - p.y; (u > 0.0 && v > 0.0) || (u < 0.0 && v < 0.0) ==> u * v > 0.0
    ensures var u, v := a.x - p.x, b.y - p.y; (u > 0.0 && v < 0.0) || (u < 0.0 && v > 0.0) ==> u * v < 0.0
    ensures var u, v := a.x - p.x, b.y - p.y; u == 0.0 || v == 0.0 ==> u * v == 0.0
    ensures var u, v := b.x - p.x, a.y - p.y; (u > 0.0 && v > 0.0) || (u < 0.0 && v < 0.0) ==> u * v > 0.0
    ensures var u, v := b.x - p.x, a.y - p.y; (u > 0.0 && v < 0.0) || (u < 0.0 && v > 0.0) ==> u * v < 0.0
    ensures var u, v := b.x - p.x, a.y - p.y; u == 0.0 || v == 0.0 ==> u * v == 0.0
  {
    CrossFrom(p, a, b);
    ProductSign(a.x - p.x, b.y - p.y);
    ProductSign(b.x - p.x, a.y - p.y);
  }

  // A segment to the left of p neither holds it nor crosses its ray.
  lemma LeftSegment(p: Point, a: Point, b: Point)
    requires a.x < p.x && b.x < p.x
    ensures !OnSegment(p, a, b) && !Crosses(p, a, b)
  {
    CrossSigns(p, a, b);
  }

  // A segment that straddles the height of p holds p exactly when the orientation is zero.
  lemma StraddlingSegment(p: Point, a: Point, b: Point)
    requires Straddles(p.y, a, b)
    ensures FindsOn(p, a, b) <==> Orientation(a, b, p) == 0
    ensures OnSegment(p, a, b) <==> Orientation(a, b, p) == 0
  {
    CrossSigns(p, a, b);
  }

  // Any other segment is not counted and marks nothing.
  lemma OtherSegment(p: Point, a: Point, b: Point)
    requires !Straddles(p.y, a, b) && p != b && !(a.y == p.y && b.y == p.y)
    ensures !FindsOn(p, a, b) && !Crosses(p, a, b)
  {
    CrossSigns(p, a, b);
  }

  // ---- The counter

  class RayCrossingCounter {
    const point: Point
    var crossingCount: nat
    var isPointOnSegment: bool

    constructor (point: Point)
      ensures this.point == point && crossingCount == 0 && !isPointOnSegment
    {
      this.point := point;
      crossingCount := 0;
      isPointOnSegment := false;
    }

    method CountSegment(p1: Point, p2: Point)
      modifies this
      ensures isPointOnSegment == (old(isPointOnSegment) || FindsOn(point, p1, p2))
      ensures crossingCount == old(crossingCount) + if Crosses(point, p1, p2) then 1 else 0
    {
      if p1.x < point.x && p2.x < point.x {
        LeftSegment(point, p1, p2);
        return;
      }
      if point.x == p2.x && point.y == p2.y {
        CrossSigns(point, p1, p2);
        isPointOnSegment := true;
        return;
      }
      if p1.y == point.y && p2.y == point.y {
        var minx, maxx := p1.x, p2.x;
        if minx > maxx {
          minx, maxx := p2.x, p1.x;
        }
        CrossSigns(point, p1, p2);
        if point.x >= minx && point.x <= maxx {
          isPointOnSegment := true;
        }
        return;
      }
      if (p1.y > point.y && p2.y <= point.y) || (p2.y > point.y && p1.y <= point.y) {
        var sign := Orientation(p1, p2, point);
        StraddlingSegment(point, p1, p2);
        if sign == 0 {
          isPointOnSegment := true;
          return;
        }
        if p2.y < p1.y {
          sign := -sign;
        }
        if sign > 0 {
          crossingCount := crossingCount + 1;
        }
      } else {
        OtherSegment(point, p1, p2);
      }
    }

    method GetLocation() returns (loc: Location)
      ensures loc == if isPointOnSegment then Boundary else if crossingCount % 2 == 1 then Interior else Exterior
    {
      if isPointOnSegment {
        return Boundary;
      }
      if crossingCount % 2 == 1 {
        return Interior;
      }
      return Exterior;
    }
  }

  // ---- A ring

  // How many segments of the ring cross the ray.
  function Crossings(p: Point, ring: seq<Point>): nat {
    if |ring| < 2 then 0
    else
      var n := |ring| - 1;
      Crossings(p, ring[..n]) + if Crosses(p, ring[n - 1], ring[n]) then 1 else 0
  }

  predicate MarkedAt(p: Point, ring: seq<Point>, i: nat)
    requires i + 1 < |ring|
  {
    FindsOn(p, ring[i], ring[i + 1])
  }

  predicate Marked(p: Point, ring: seq<Point>) {
    exists i :: 0 <= i < |ring| - 1 && MarkedAt(p, ring, i)
  }

  function Located(p: Point, ring: seq<Point>): Location {
    if Marked(p, ring) then Boundary
    else if Crossings(p, ring) % 2 == 1 then Interior
    else Exterior
  }

  /** Where the point lies, by even-odd counting that stops once it is found on a segment. */
  method LocatePointInRing(point: Point, ring: seq<Point>) returns (loc: Location)
    ensures loc == Located(point, ring)
  {
    var rcc := new RayCrossingCounter(point);
    var i := 1;
    while i < |ring|
      invariant 1 <= i && (|ring| > 0 ==> i <= |ring|) && rcc.point == point && fresh(rcc)
      invariant !rcc.isPointOnSegment && forall j :: 0 <= j < i - 1 && j + 1 < |ring| ==> !MarkedAt(point, ring, j)
      invariant rcc.crossingCount == if i <= |ring| then Crossings(point, ring[..i]) else 0
    {
      assert ring[..i + 1][..i] == ring[..i];
      rcc.CountSegment(ring[i - 1], ring[i]);
      if rcc.isPointOnSegment {
        assert MarkedAt(point, ring, i - 1);
        loc := rcc.GetLocation();
        return;
      }
      i := i + 1;
    }
    assert |ring| > 0 ==> ring[..i] == ring;
    loc := rcc.GetLocation();
  }

  // ---- The boundary

  predicate ClosedRing(ring: seq<Point>) {
    |ring| >= 2 && ring[0] == ring[|ring| - 1]
  }

  predicate OnAt(p: Point, ring: seq<Point>, i: nat)
    requires i + 1 < |ring|
  {
    OnSegment(p, ring[i], ring[i + 1])
  }

  predicate OnRing(p: Point, ring: seq<Point>) {
    exists i :: 0 <= i < |ring| - 1 && OnAt(p, ring, i)
  }

  lemma EndMarks(p: Point, a: Point)
    ensures FindsOn(p, a, p)
  {
  }

  /** The answer is BOUNDARY exactly when the point is on a segment of the ring. */
  lemma BoundaryIsOnRing(p: Point, ring: seq<Point>)
    requires ClosedRing(ring)
    ensures Located(p, ring) == Boundary <==> OnRing(p, ring)
  {
    if Marked(p, ring) {
      var i :| 0 <= i < |ring| - 1 && MarkedAt(p, ring, i);
      assert OnAt(p, ring, i);
    }
    if OnRing(p, ring) {
      var i :| 0 <= i < |ring| - 1 && OnAt(p, ring, i);
      if !MarkedAt(p, ring, i) {
        var j := if i == 0 then |ring| - 2 else i - 1;
        EndMarks(p, ring[j]);
        assert MarkedAt(p, ring, j);
      }
    }
  }

  // ---- What the location does not depend on

  lemma {:induction false} CrossingsJoin(p: Point, s: seq<Point>, t: seq<Point>)
    requires s != [] && t != []
    ensures Crossings(p, s + t) == Crossings(p, s) + Crossings(p, [s[|s| - 1]] + t)
  {
    var n := |t| - 1;
    var l := [s[|s| - 1]];
    assert (s + t)[..|s| + n] == s + t[..n];
    assert (l + t)[..1 + n] == l + t[..n];
    if n == 0 {
      assert s + t[..0] == s && l + t[..0] == l;
    } else {
      CrossingsJoin(p, s, t[..n]);
    }
  }

  // A path cut at vertex k, which both parts keep.
  lemma CrossingsCut(p: Point, s: seq<Point>, k: nat)
    requires k < |s|
    ensures Crossings(p, s) == Crossings(p, s[..k + 1]) + Crossings(p, s[k..])
  {
    if k + 1 == |s| {
      assert s[..k + 1] == s;
    } else {
      assert s == s[..k + 1] + s[k + 1..] && s[k..] == [s[k]] + s[k + 1..];
      hide Crossings;
      CrossingsJoin(p, s[..k + 1], s[k + 1..]);
    }
  }

  lemma CrossingsFromVertex(p: Point, ring: seq<Point>, k: nat)
    requires ClosedRing(ring) && k < |ring| - 1
    ensures Crossings(p, Section(ring, k, k)) == Crossings(p, ring)
  {
    var r, m := Section(ring, k, k), |ring| - 1 - k;
    assert r[..m + 1] == ring[k..] && r[m..] == ring[..k + 1];
    hide *;
    CrossingsCut(p, ring, k);
    CrossingsCut(p, r, m);
  }

  lemma OnFromVertex(p: Point, ring: seq<Point>, k: nat)
    requires ClosedRing(ring) && k < |ring| - 1
    ensures OnRing(p, Section(ring, k, k)) <==> OnRing(p, ring)
  {
    var r, n := Section(ring, k, k), |ring| - 1;
    forall i | 0 <= i < n ensures OnAt(p, r, i) <==> OnAt(p, ring, if i + k < n then i + k else i + k - n) {}
    if OnRing(p, ring) {
      var j :| 0 <= j < n && OnAt(p, ring, j);
      var i := if j >= k then j - k else j - k + n;
      assert OnAt(p, r, i);
    }
    if OnRing(p, r) {
      var i :| 0 <= i < n && OnAt(p, r, i);
      assert OnAt(p, ring, if i + k < n then i + k else i + k - n);
    }
  }

  /** Moving the start vertex does not change the location. */
  lemma LocatedFromVertex(p: Point, ring: seq<Point>, k: nat)
    requires ClosedRing(ring) && k < |ring| - 1
    ensures Located(p, Section(ring, k, k)) == Located(p, ring)
  {
    CrossingsFromVertex(p, ring, k);
    OnFromVertex(p, ring, k);
    BoundaryIsOnRing(p, ring);
    BoundaryIsOnRing(p, Section(ring, k, k));
  }

  lemma CrossesEitherWay(p: Point, a: Point, b: Point)
    ensures Crosses(p, a, b) <==> Crosses(p, b, a)
    ensures OnSegment(p, a, b) <==> OnSegment(p, b, a)
  {
    CrossCyclic(a, b, p);
  }

  lemma {:induction false} CrossingsBackwards(p: Point, ring: seq<Point>)
    ensures Crossings(p, Reversed(ring)) == Crossings(p, ring)
  {
    if |ring| >= 2 {
      var n := |ring| - 1;
      var r := Reversed(ring);
      assert r[1..] == Reversed(ring[..n]) && r[..2] == [ring[n], ring[n - 1]];
      CrossingsBackwards(p, ring[..n]);
      CrossingsCut(p, r, 1);
      CrossesEitherWay(p, ring[n], ring[n - 1]);
      SegmentCrossings(p, ring[n], ring[n - 1]);
    } else {
      assert Reversed(ring) == ring;
    }
  }

  lemma SegmentCrossings(p: Point, a: Point, b: Point)
    ensures Crossings(p, [a, b]) == if Crosses(p, a, b) then 1 else 0
  {
    assert [a, b][..1] == [a];
  }

  lemma OnBackwards(p: Point, ring: seq<Point>)
    ensures OnRing(p, Reversed(ring)) <==> OnRing(p, ring)
  {
    var r := Reversed(ring);
    forall i | 0 <= i < |ring| - 1 ensures OnAt(p, r, i) <==> OnAt(p, ring, |ring| - 2 - i) {
      CrossesEitherWay(p, r[i], r[i + 1]);
    }
    if OnRing(p, ring) {
      var j :| 0 <= j < |ring| - 1 && OnAt(p, ring, j);
      assert OnAt(p, r, |ring| - 2 - j);
    }
  }

  /** Reversing the ring does not change the location. */
  lemma LocatedBackwards(p: Point, ring: seq<Point>)
    requires ClosedRing(ring)
    ensures Located(p, Reversed(ring)) == Located(p, ring)
  {
    CrossingsBackwards(p, ring);
    OnBackwards(p, ring);
    BoundaryIsOnRing(p, ring);
    BoundaryIsOnRing(p, Reversed(ring));
  }

  // The ring with one more vertex after vertex i.
  function WithVertex(ring: seq<Point>, i: nat, v: Point): seq<Point>
    requires i + 1 < |ring|
  {
    ring[..i + 1] + [v] + ring[i + 1..]
  }

  // Points on one line: the cross products scale with the differences of the ordinates.
  lemma CrossScales(a: Point, b: Point, v: Point, p: Point)
    requires Cross(a, b, v) == 0.0
    ensures (b.y - a.y) * Cross(a, v, p) == (v.y - a.y) * Cross(a, b, p)
    ensures (b.x - a.x) * Cross(a, v, p) == (v.x - a.x) * Cross(a, b, p)
  {
  }

  lemma ZeroFactor(u: real, x: real)
    requires u * x == 0.0 && u != 0.0
    ensures x == 0.0
  {
  }

  lemma PartOfSegment(p: Point, a: Point, v: Point, b: Point)
    requires OnSegment(v, a, b) && OnSegment(p, a, v)
    ensures OnSegment(p, a, b)
  {
    CrossScales(a, b, v, p);
    if v.y != a.y {
      ZeroFactor(v.y - a.y, Cross(a, b, p));
    } else if v.x != a.x {
      ZeroFactor(v.x - a.x, Cross(a, b, p));
    }
  }

  lemma NearerOrdinate(lo: real, d: real, u: real, t: real)
    requires 0.0 <= u <= t
    ensures Within(lo, lo + u * d, lo + t * d)
  {
    if d >= 0.0 { MulNonNeg(t - u, d); MulNonNeg(u, d); } else { MulNonNeg(t - u, -d); MulNonNeg(u, -d); }
  }

  lemma NearerOn(p: Point, a: Point, v: Point, b: Point, u: real, t: real)
    requires 0.0 <= u <= t
    requires p.x == a.x + u * (b.x - a.x) && p.y == a.y + u * (b.y - a.y)
    requires v.x == a.x + t * (b.x - a.x) && v.y == a.y + t * (b.y - a.y)
    ensures OnSegment(p, a, v)
  {
    NearerOrdinate(a.x, b.x - a.x, u, t);
    NearerOrdinate(a.y, b.y - a.y, u, t);
    CrossFrom(a, v, p);
    SwapProducts(v.x - a.x, v.y - a.y, p.x - a.x, p.y - a.y, u, t, b.x - a.x, b.y - a.y);
    CrossCyclic(a, v, p);
    hide Cross;
  }

  lemma SwapProducts(vx: real, vy: real, px: real, py: real, u: real, t: real, x: real, y: real)
    requires vx == t * x && vy == t * y && px == u * x && py == u * y
    ensures vx * py == px * vy
  {
  }

  lemma FromOtherEnd(lo: real, hi: real, t: real, v: real)
    requires v == lo + t * (hi - lo)
    ensures v == hi + (1.0 - t) * (lo - hi)
  {
  }

  // p is on the segment when it is on one of the two parts into which a point of it cuts it.
  lemma PartsCover(p: Point, a: Point, v: Point, b: Point)
    requires OnSegment(v, a, b)
    ensures OnSegment(p, a, b) <==> OnSegment(p, a, v) || OnSegment(p, v, b)
  {
    if OnSegment(p, a, b) && a != b {
      var t := SegmentFraction(v, a, b);
      var u := SegmentFraction(p, a, b);
      if u <= t {
        NearerOn(p, a, v, b, u, t);
      } else {
        FromOtherEnd(a.x, b.x, t, v.x);
        FromOtherEnd(a.y, b.y, t, v.y);
        FromOtherEnd(a.x, b.x, u, p.x);
        FromOtherEnd(a.y, b.y, u, p.y);
        NearerOn(p, b, v, a, 1.0 - u, 1.0 - t);
        CrossesEitherWay(p, b, v);
      }
    }
    if OnSegment(p, a, v) { PartOfSegment(p, a, v, b); }
    if OnSegment(p, v, b) {
      CrossesEitherWay(v, a, b);
      CrossesEitherWay(p, v, b);
      PartOfSegment(p, b, v, a);
      CrossesEitherWay(p, a, b);
    }
  }

  lemma SameSign(s: real, t: real, x: real, y: real)
    requires s * x == t * y && ((s > 0.0 && t > 0.0) || (s < 0.0 && t < 0.0))
    ensures x > 0.0 <==> y > 0.0
    ensures x < 0.0 <==> y < 0.0
  {
    ProductSign(s, x);
    ProductSign(t, y);
  }

  // The part from a to v crosses as the whole does, if it straddles.
  lemma FirstPartCrosses(p: Point, a: Point, v: Point, b: Point)
    requires OnSegment(v, a, b) && Straddles(p.y, a, v)
    ensures Straddles(p.y, a, b) && (Crosses(p, a, v) <==> Crosses(p, a, b))
  {
    CrossScales(a, b, v, p);
    SameSign(b.y - a.y, v.y - a.y, Cross(a, v, p), Cross(a, b, p));
  }

  lemma PartsCross(p: Point, a: Point, v: Point, b: Point)
    requires OnSegment(v, a, b)
    ensures (if Crosses(p, a, b) then 1 else 0) ==
      (if Crosses(p, a, v) then 1 else 0) + (if Crosses(p, v, b) then 1 else 0)
  {
    if Straddles(p.y, a, v) {
      FirstPartCrosses(p, a, v, b);
    }
    if Straddles(p.y, v, b) {
      CrossesEitherWay(v, a, b);
      FirstPartCrosses(p, b, v, a);
      CrossesEitherWay(p, a, b);
      CrossesEitherWay(p, v, b);
    }
  }

  lemma CrossingsWithVertex(p: Point, ring: seq<Point>, i: nat, v: Point)
    requires i + 1 < |ring| && OnSegment(v, ring[i], ring[i + 1])
    ensures Crossings(p, WithVertex(ring, i, v)) == Crossings(p, ring)
  {
    var r, a, b := WithVertex(ring, i, v), ring[i], ring[i + 1];
    assert r[..i + 1] == ring[..i + 1] && r[i..][..3] == [a, v, b] && r[i..][2..] == ring[i + 1..];
    assert ring[i..][..2] == [a, b] && ring[i..][1..] == ring[i + 1..];
    assert [a, v, b][..2] == [a, v] && [a, v, b][1..] == [v, b];
    hide *;
    CrossingsCut(p, ring, i);
    CrossingsCut(p, r, i);
    CrossingsCut(p, ring[i..], 1);
    CrossingsCut(p, r[i..], 2);
    CrossingsCut(p, [a, v, b], 1);
    SegmentCrossings(p, a, b);
    SegmentCrossings(p, a, v);
    SegmentCrossings(p, v, b);
    PartsCross(p, a, v, b);
  }

  lemma OnWithVertex(p: Point, ring: seq<Point>, i: nat, v: Point)
    requires i + 1 < |ring| && OnSegment(v, ring[i], ring[i + 1])
    ensures OnRing(p, WithVertex(ring, i, v)) <==> OnRing(p, ring)
  {
    var r := WithVertex(ring, i, v);
    PartsCover(p, ring[i], v, ring[i + 1]);
    assert r[i] == ring[i] && r[i + 1] == v && r[i + 2] == ring[i + 1];
    hide OnSegment;
    if OnRing(p, ring) {
      var j :| 0 <= j < |ring| - 1 && OnAt(p, ring, j);
      if j == i {
        assert OnAt(p, r, i) || OnAt(p, r, i + 1);
      } else {
        assert OnAt(p, r, if j < i then j else j + 1);
      }
    }
    if OnRing(p, r) {
      var j :| 0 <= j < |r| - 1 && OnAt(p, r, j);
      assert OnAt(p, ring, if j < i then j else if j <= i + 1 then i else j - 1);
    }
  }

  /** A further vertex on a segment does not change the location. */
  lemma LocatedWithVertex(p: Point, ring: seq<Point>, i: nat, v: Point)
    requires ClosedRing(ring) && i + 1 < |ring| && OnSegment(v, ring[i], ring[i + 1])
    ensures Located(p, WithVertex(ring, i, v)) == Located(p, ring)
  {
    CrossingsWithVertex(p, ring, i, v);
    OnWithVertex(p, ring, i, v);
    BoundaryIsOnRing(p, ring);
    BoundaryIsOnRing(p, WithVertex(ring, i, v));
  }

  // ---- Parity

  // How many segments of the ring pass the height y.
  function Passing(y: real, ring: seq<Point>): nat {
    if |ring| < 2 then 0
    else
      var n := |ring| - 1;
      Passing(y, ring[..n]) + if Straddles(y, ring[n - 1], ring[n]) then 1 else 0
  }

  /** A closed ring passes any height an even number of times. */
  lemma {:induction false} PassingParity(y: real, ring: seq<Point>)
    requires ring != []
    ensures Passing(y, ring) % 2 == if Straddles(y, ring[0], ring[|ring| - 1]) then 1 else 0
  {
    if |ring| >= 2 {
      PassingParity(y, ring[..|ring| - 1]);
    }
  }

  // The side of the line through p with normal n on which v is.
  function Side(n: Point, p: Point, v: Point): real {
    n.x * (v.x - p.x) + n.y * (v.y - p.y)
  }

  lemma SideOfCrossing(n: Point, p: Point, a: Point, b: Point)
    ensures Side(n, p, a) * (b.y - p.y) - Side(n, p, b) * (a.y - p.y) == n.x * Cross(a, b, p)
  {
    SideTerms(n.x, n.y, a.x - p.x, a.y - p.y, b.x - p.x, b.y - p.y);
    CrossFrom(p, a, b);
  }

  lemma SideTerms(nx: real, ny: real, u: real, v: real, x: real, y: real)
    ensures (nx * u + ny * v) * y - (nx * x + ny * y) * v == nx * (u * y - x * v)
  {
  }

  // A straddling segment with both ends on the positive side crosses the ray or its opposite, as the normal says.
  lemma StraddleSide(n: Point, p: Point, a: Point, b: Point)
    requires Straddles(p.y, a, b) && Side(n, p, a) > 0.0 && Side(n, p, b) > 0.0
    ensures n.x != 0.0 && Orientation(a, b, p) != 0 && (Crosses(p, a, b) <==> n.x > 0.0)
  {
    SideOfCrossing(n, p, a, b);
    CrossingSign(n.x, Cross(a, b, p), Side(n, p, a), Side(n, p, b), a.y - p.y, b.y - p.y);
    hide Side;
  }

  lemma CrossingSign(n: real, c: real, sa: real, sb: real, u: real, v: real)
    requires sa * v - sb * u == n * c && sa > 0.0 && sb > 0.0 && ((u > 0.0) != (v > 0.0))
    ensures n != 0.0 && c != 0.0
    ensures v > 0.0 ==> (c > 0.0 <==> n > 0.0)
    ensures u > 0.0 ==> (c < 0.0 <==> n > 0.0)
  {
    ProductSign(sa, v);
    ProductSign(sb, u);
    ProductSign(n, c);
  }

  lemma {:induction false} SideCrossings(n: Point, p: Point, ring: seq<Point>)
    requires forall v :: v in ring ==> Side(n, p, v) > 0.0
    ensures Crossings(p, ring) == if n.x > 0.0 then Passing(p.y, ring) else 0
  {
    if |ring| >= 2 {
      var m := |ring| - 1;
      SideCrossings(n, p, ring[..m]);
      assert ring[m] in ring && ring[m - 1] in ring;
      if Straddles(p.y, ring[m - 1], ring[m]) { StraddleSide(n, p, ring[m - 1], ring[m]); }
    }
  }

  lemma SideNotOn(n: Point, p: Point, a: Point, b: Point)
    requires Side(n, p, a) > 0.0 && Side(n, p, b) > 0.0
    ensures !OnSegment(p, a, b)
  {
    if OnSegment(p, a, b) {
      SideZero(n, p);
      if a != b {
        var t := SegmentFraction(p, a, b);
        SideAlong(n, p, a, b, t);
        SideMix(Side(n, p, a), Side(n, p, b), t);
      }
      assert false;
    }
  }

  lemma SideZero(n: Point, p: Point)
    ensures Side(n, p, p) == 0.0
  {
  }

  lemma SideAlong(n: Point, p: Point, a: Point, b: Point, t: real)
    ensures Side(n, p, Along(a, b, t)) == Side(n, p, a) + t * (Side(n, p, b) - Side(n, p, a))
  {
  }

  lemma SideMix(u: real, v: real, t: real)
    requires u > 0.0 && v > 0.0 && 0.0 <= t <= 1.0
    ensures u + t * (v - u) > 0.0
  {
    MulNonNeg(t, v);
    MulNonNeg(1.0 - t, u);
    if t == 0.0 {} else { MulPos(t, v); }
  }

  /** A point that some line through it separates from all vertices of a closed ring is outside. */
  lemma SeparatedIsExterior(n: Point, p: Point, ring: seq<Point>)
    requires ClosedRing(ring) && forall v :: v in ring ==> Side(n, p, v) > 0.0
    ensures Located(p, ring) == Exterior
  {
    SideCrossings(n, p, ring);
    PassingParity(p.y, ring);
    forall i | 0 <= i < |ring| - 1 ensures !MarkedAt(p, ring, i) {
      assert ring[i] in ring && ring[i + 1] in ring;
      SideNotOn(n, p, ring[i], ring[i + 1]);
    }
  }
}
