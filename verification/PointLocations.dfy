/**
 When a point is located as interior: on the inner side of all three sides of a triangle, and for any ring
 on the other side of an odd number of crossings from an exterior point at the same height.
 */
module PointLocations {
  import opened Planar
  import opened Pasch
  import opened RayCrossings
  import opened InteriorPoints

  // ---- Across segments

  // Strictly between the abscissas lo and hi the segment crosses the height y.
  ghost predicate CrossesBetween(y: real, lo: real, hi: real, a: Point, b: Point) {
    Straddles(y, a, b) && exists x: real :: MeetsAt(y, x, a, b) && lo < x < hi
  }

  predicate MeetsAt(y: real, x: real, a: Point, b: Point) {
    OnSegment(Point(x, y), a, b)
  }

  // How many segments of the ring do so.
  ghost function CrossedBetween(y: real, lo: real, hi: real, ring: seq<Point>): nat {
    if |ring| < 2 then 0
    else
      var n := |ring| - 1;
      CrossedBetween(y, lo, hi, ring[..n]) + if CrossesBetween(y, lo, hi, ring[n - 1], ring[n]) then 1 else 0
  }

  // A segment that straddles the height meets it at one abscissa only.
  lemma MeetsOnce(y: real, x: real, a: Point, b: Point)
    requires Straddles(y, a, b)
    ensures MeetsAt(y, x, a, b) <==> x == Intersection(a, b, y)
  {
    var p := Point(x, y);
    CrossesToTheRight(p, a, b);
    StraddlingSegment(p, a, b);
    hide Intersection;
    hide OnSegment;
    hide Crosses;
  }

  lemma AcrossSegment(p: Point, q: Point, a: Point, b: Point)
    requires p.y == q.y && p.x <= q.x && !OnSegment(p, a, b) && !OnSegment(q, a, b)
    ensures Crosses(q, a, b) ==> Crosses(p, a, b)
    ensures CrossesBetween(p.y, p.x, q.x, a, b) <==> Crosses(p, a, b) && !Crosses(q, a, b)
  {
    CrossesToTheRight(p, a, b);
    CrossesToTheRight(q, a, b);
    hide Crosses;
    hide OnSegment;
    if Straddles(p.y, a, b) {
      var x := Intersection(a, b, p.y);
      MeetsOnce(p.y, x, a, b);
      MeetsOnce(p.y, p.x, a, b);
      MeetsOnce(p.y, q.x, a, b);
      forall z: real | MeetsAt(p.y, z, a, b) ensures z == x { MeetsOnce(p.y, z, a, b); }
      assert Point(p.x, p.y) == p && Point(q.x, p.y) == q;
      hide Intersection;
    }
  }

  predicate OffSegments(p: Point, ring: seq<Point>) {
    forall i :: 0 <= i < |ring| - 1 ==> !OnAt(p, ring, i)
  }

  lemma {:induction false} AcrossPath(p: Point, q: Point, path: seq<Point>)
    requires p.y == q.y && p.x <= q.x && OffSegments(p, path) && OffSegments(q, path)
    ensures Crossings(p, path) == Crossings(q, path) + CrossedBetween(p.y, p.x, q.x, path)
  {
    if |path| >= 2 {
      var n := |path| - 1;
      forall i | 0 <= i < n - 1 ensures !OnAt(p, path[..n], i) && !OnAt(q, path[..n], i) {
        assert !OnAt(p, path, i) && !OnAt(q, path, i);
      }
      AcrossPath(p, q, path[..n]);
      assert !OnAt(p, path, n - 1) && !OnAt(q, path, n - 1);
      AcrossSegment(p, q, path[n - 1], path[n]);
      hide Crosses;
      hide CrossesBetween;
      hide OnSegment;
    }
  }

  /**
   Of two points off the ring at one height, one is interior and the other exterior exactly when an odd number
   of segments crosses between them.
   */
  lemma LocatedAcross(p: Point, q: Point, ring: seq<Point>)
    requires ClosedRing(ring) && p.y == q.y && p.x <= q.x && !OnRing(p, ring) && !OnRing(q, ring)
    ensures Located(p, ring) != Boundary && Located(q, ring) != Boundary
    ensures Located(p, ring) != Located(q, ring) <==> CrossedBetween(p.y, p.x, q.x, ring) % 2 == 1
  {
    BoundaryIsOnRing(p, ring);
    BoundaryIsOnRing(q, ring);
    AcrossPath(p, q, ring);
    hide Crossings;
    hide Marked;
    hide CrossedBetween;
  }

  /** To the right of all its vertices a point is exterior, and so the others are told apart by crossings. */
  lemma InteriorByCrossings(p: Point, q: Point, ring: seq<Point>)
    requires ClosedRing(ring) && p.y == q.y && p.x <= q.x && !OnRing(p, ring)
    requires forall v :: v in ring ==> v.x < q.x
    ensures Located(q, ring) == Exterior
    ensures Located(p, ring) == Interior <==> CrossedBetween(p.y, p.x, q.x, ring) % 2 == 1
  {
    var n := Point(-1.0, 0.0);
    forall v | v in ring ensures Side(n, q, v) > 0.0 {}
    SeparatedIsExterior(n, q, ring);
    BoundaryIsOnRing(q, ring);
    hide Located;
    LocatedAcross(p, q, ring);
  }

  // ---- A triangle

  function Triangle(a: Point, b: Point, c: Point): seq<Point> {
    [a, b, c, a]
  }

  lemma TriangleCrossings(p: Point, a: Point, b: Point, c: Point)
    ensures Crossings(p, Triangle(a, b, c)) ==
      (if Crosses(p, a, b) then 1 else 0) + (if Crosses(p, b, c) then 1 else 0) + (if Crosses(p, c, a) then 1 else 0)
  {
    var t := Triangle(a, b, c);
    assert t[..2] == [a, b] && t[1..] == [b, c, a] && [b, c, a][..2] == [b, c] && [b, c, a][1..] == [c, a];
    hide *;
    CrossingsCut(p, t, 1);
    CrossingsCut(p, [b, c, a], 1);
    SegmentCrossings(p, a, b);
    SegmentCrossings(p, b, c);
    SegmentCrossings(p, c, a);
  }

  lemma TriangleOn(p: Point, a: Point, b: Point, c: Point)
    ensures OnRing(p, Triangle(a, b, c)) <==> OnSegment(p, a, b) || OnSegment(p, b, c) || OnSegment(p, c, a)
  {
    var t := Triangle(a, b, c);
    hide OnSegment;
    assert OnAt(p, t, 0) <==> OnSegment(p, a, b);
    assert OnAt(p, t, 1) <==> OnSegment(p, b, c);
    assert OnAt(p, t, 2) <==> OnSegment(p, c, a);
  }

  // The sides weigh the heights of the opposite corners over p to nothing.
  lemma HeightsBalance(p: Point, a: Point, b: Point, c: Point)
    ensures Cross(b, c, p) * (a.y - p.y) + Cross(c, a, p) * (b.y - p.y) + Cross(a, b, p) * (c.y - p.y) == 0.0
  {
  }

  predicate AllPositive(u: real, v: real, w: real) {
    u > 0.0 && v > 0.0 && w > 0.0
  }

  predicate OneSign(u: real, v: real, w: real) {
    AllPositive(u, v, w) || AllPositive(-u, -v, -w)
  }

  lemma ApexSign(u: real, v: real, w: real, ha: real, hb: real, hc: real)
    requires v * ha + w * hb + u * hc == 0.0 && u > 0.0 && w > 0.0
    requires (ha > 0.0 && hb <= 0.0 && hc <= 0.0) || (ha <= 0.0 && hb > 0.0 && hc > 0.0)
    ensures v > 0.0 || (hb == 0.0 && hc == 0.0)
  {
    ProductSign(v, ha);
    ProductSign(w, hb);
    ProductSign(u, hc);
  }

  lemma ApexNegated(u: real, v: real, w: real, ha: real, hb: real, hc: real)
    requires v * ha + w * hb + u * hc == 0.0
    ensures (-v) * ha + (-w) * hb + (-u) * hc == 0.0
  {
  }

  // With b and c at the height of p, the sides from a tell on which side of p they are.
  lemma LevelBase(p: Point, a: Point, b: Point, c: Point)
    requires b.y == p.y && c.y == p.y && a.y > p.y && !OnSegment(p, b, c)
    ensures !(Cross(a, b, p) > 0.0 && Cross(c, a, p) > 0.0) && !(Cross(a, b, p) < 0.0 && Cross(c, a, p) < 0.0)
  {
    CrossSigns(p, a, b);
    CrossSigns(p, c, a);
    CrossSigns(p, b, c);
  }

  // Corner a is alone on its side of the height of p.
  lemma ApexApart(p: Point, a: Point, b: Point, c: Point)
    requires Straddles(p.y, a, b) && Straddles(p.y, c, a)
    requires !OnSegment(p, a, b) && !OnSegment(p, c, a) && !OnSegment(p, b, c)
    ensures Crosses(p, a, b) != Crosses(p, c, a) <==> OneSign(Cross(a, b, p), Cross(b, c, p), Cross(c, a, p))
  {
    StraddlingSegment(p, a, b);
    StraddlingSegment(p, c, a);
    HeightsBalance(p, a, b, c);
    var u, v, w := Cross(a, b, p), Cross(b, c, p), Cross(c, a, p);
    if b.y == p.y && c.y == p.y { LevelBase(p, a, b, c); }
    hide Cross;
    hide OnSegment;
    if u > 0.0 && w > 0.0 {
      ApexSign(u, v, w, a.y - p.y, b.y - p.y, c.y - p.y);
    } else if u < 0.0 && w < 0.0 {
      ApexNegated(u, v, w, a.y - p.y, b.y - p.y, c.y - p.y);
      ApexSign(-u, -v, -w, a.y - p.y, b.y - p.y, c.y - p.y);
    }
  }

  lemma NoBalance(u: real, v: real, w: real, ha: real, hb: real, hc: real)
    requires v * ha + w * hb + u * hc == 0.0 && AllPositive(u, v, w)
    requires (ha > 0.0 && hb > 0.0 && hc > 0.0) || (ha <= 0.0 && hb <= 0.0 && hc <= 0.0)
    ensures ha == 0.0 && hb == 0.0 && hc == 0.0
  {
    ProductSign(v, ha);
    ProductSign(w, hb);
    ProductSign(u, hc);
  }

  // A height that no side straddles is not inside.
  lemma NoApex(p: Point, a: Point, b: Point, c: Point)
    requires !Straddles(p.y, a, b) && !Straddles(p.y, b, c) && !Straddles(p.y, c, a)
    ensures !OneSign(Cross(a, b, p), Cross(b, c, p), Cross(c, a, p))
  {
    HeightsBalance(p, a, b, c);
    CrossSigns(p, a, b);
    var u, v, w := Cross(a, b, p), Cross(b, c, p), Cross(c, a, p);
    if AllPositive(u, v, w) {
      NoBalance(u, v, w, a.y - p.y, b.y - p.y, c.y - p.y);
      assert false;
    }
    if AllPositive(-u, -v, -w) {
      ApexNegated(u, v, w, a.y - p.y, b.y - p.y, c.y - p.y);
      NoBalance(-u, -v, -w, a.y - p.y, b.y - p.y, c.y - p.y);
      assert false;
    }
  }

  lemma OffTriangle(p: Point, a: Point, b: Point, c: Point)
    requires !OnSegment(p, a, b) && !OnSegment(p, b, c) && !OnSegment(p, c, a)
    ensures Crossings(p, Triangle(a, b, c)) % 2 == 1 <==> OneSign(Cross(a, b, p), Cross(b, c, p), Cross(c, a, p))
  {
    TriangleCrossings(p, a, b, c);
    hide Crossings;
    hide OnSegment;
    if !Straddles(p.y, a, b) && !Straddles(p.y, b, c) && !Straddles(p.y, c, a) {
      NoApex(p, a, b, c);
    } else if !Straddles(p.y, b, c) {
      ApexApart(p, a, b, c);
    } else if !Straddles(p.y, c, a) {
      ApexApart(p, b, c, a);
    } else {
      ApexApart(p, c, a, b);
    }
  }

  lemma OnNoOneSign(p: Point, a: Point, b: Point, c: Point)
    requires OnSegment(p, a, b) || OnSegment(p, b, c) || OnSegment(p, c, a)
    ensures !OneSign(Cross(a, b, p), Cross(b, c, p), Cross(c, a, p))
  {
  }

  /** A point is interior to a triangle exactly when it is strictly on the same side of all three sides. */
  lemma TriangleInside(p: Point, a: Point, b: Point, c: Point)
    ensures Located(p, Triangle(a, b, c)) == Interior <==>
      (Cross(a, b, p) > 0.0 && Cross(b, c, p) > 0.0 && Cross(c, a, p) > 0.0) ||
      (Cross(a, b, p) < 0.0 && Cross(b, c, p) < 0.0 && Cross(c, a, p) < 0.0)
  {
    var t := Triangle(a, b, c);
    assert ClosedRing(t);
    BoundaryIsOnRing(p, t);
    TriangleOn(p, a, b, c);
    hide OnRing;
    hide Marked;
    hide Crossings;
    hide OnSegment;
    hide Cross;
    hide Triangle;
    if OnRing(p, t) { OnNoOneSign(p, a, b, c); } else { OffTriangle(p, a, b, c); }
  }
}
