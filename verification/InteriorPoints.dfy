/**
 An interior point of a polygon: the middle of the widest section that a scan line cuts from
 it. The scan line avoids the vertices, its crossings come in pairs, and the middle of a
 section is inside by even-odd counting.
 */
module InteriorPoints {
  import opened Planar
  import opened Pasch
  import opened RayCrossings

  datatype Polygon = Polygon(shell: seq<Point>, holes: seq<seq<Point>>)

  function Rings(polygon: Polygon): (rings: seq<seq<Point>>)
    ensures |rings| == 1 + |polygon.holes| && rings[0] == polygon.shell
    ensures forall i :: 0 <= i < |polygon.holes| ==> rings[i + 1] == polygon.holes[i]
  {
    [polygon.shell] + polygon.holes
  }

  predicate RingsClosed(polygon: Polygon) {
    forall i :: 0 <= i < |Rings(polygon)| ==> ClosedRing(Rings(polygon)[i])
  }

  function Avg(a: real, b: real): real {
    (a + b) / 2.0
  }

  // ---- The height of the scan line

  // The least or the greatest ordinate of a ring.
  function MinY(ring: seq<Point>): (y: real)
    requires ring != []
    ensures forall i :: 0 <= i < |ring| ==> y <= ring[i].y
    ensures exists i :: 0 <= i < |ring| && y == ring[i].y
  {
    var n := |ring| - 1;
    if n == 0 then ring[0].y
    else
      var y := MinY(ring[..n]);
      if ring[n].y < y then ring[n].y else y
  }

  function MaxY(ring: seq<Point>): (y: real)
    requires ring != []
    ensures forall i :: 0 <= i < |ring| ==> ring[i].y <= y
    ensures exists i :: 0 <= i < |ring| && y == ring[i].y
  {
    var n := |ring| - 1;
    if n == 0 then ring[0].y
    else
      var y := MaxY(ring[..n]);
      if ring[n].y > y then ring[n].y else y
  }

  // The heights strictly between loY and hiY are free of the points.
  predicate FreeBetween(pts: seq<Point>, loY: real, hiY: real) {
    forall i :: 0 <= i < |pts| ==> pts[i].y <= loY || hiY <= pts[i].y
  }

  class ScanLineYOrdinateFinder {
    const poly: Polygon
    const centreY: real
    var hiY: real
    var loY: real

    // The interval around the centre height, not yet narrowed or narrowed only.
    ghost predicate Valid()
      reads this
    {
      && poly.shell != [] && centreY + centreY == MinY(poly.shell) + MaxY(poly.shell)
      && MinY(poly.shell) <= loY <= centreY <= hiY <= MaxY(poly.shell)
      && (MinY(poly.shell) < MaxY(poly.shell) ==> centreY < hiY)
    }

    constructor (poly: Polygon)
      requires poly.shell != []
      ensures Valid() && this.poly == poly && loY == MinY(poly.shell) && hiY == MaxY(poly.shell)
    {
      this.poly := poly;
      var hi, lo := MaxY(poly.shell), MinY(poly.shell);
      hiY := hi;
      loY := lo;
      centreY := Avg(lo, hi);
      new;
      assert poly.shell[0].y <= hi && lo <= poly.shell[0].y;
    }

    lemma IntervalIs()
      requires Valid()
      ensures poly.shell != [] && MinY(poly.shell) <= loY <= hiY <= MaxY(poly.shell)
      ensures loY + loY <= MinY(poly.shell) + MaxY(poly.shell) <= hiY + hiY
      ensures MinY(poly.shell) < MaxY(poly.shell) ==> MinY(poly.shell) + MaxY(poly.shell) < hiY + hiY
    {
    }

    method UpdateInterval(y: real)
      requires Valid()
      modifies `loY, `hiY
      ensures Valid() && old(loY) <= loY && hiY <= old(hiY)
      ensures y <= loY || hiY <= y
      ensures (loY == old(loY) || loY == y) && (hiY == old(hiY) || hiY == y)
    {
      if y <= centreY {
        if y > loY {
          loY := y;
        }
      } else {
        if y < hiY {
          hiY := y;
        }
      }
    }

    // Narrow the interval by the vertices of a ring.
    method ProcessRing(line: seq<Point>)
      requires Valid()
      modifies `loY, `hiY
      ensures Valid() && old(loY) <= loY && hiY <= old(hiY)
      ensures FreeBetween(line, loY, hiY)
      ensures loY == old(loY) || exists i :: 0 <= i < |line| && loY == line[i].y
      ensures hiY == old(hiY) || exists i :: 0 <= i < |line| && hiY == line[i].y
    {
      for i := 0 to |line|
        invariant loY == old(loY) || exists j :: 0 <= j < i && loY == line[j].y
        invariant hiY == old(hiY) || exists j :: 0 <= j < i && hiY == line[j].y
        invariant Valid() && old(loY) <= loY && hiY <= old(hiY)
        invariant FreeBetween(line[..i], loY, hiY)
      {
        assert line[..i + 1] == line[..i] + [line[i]];
        UpdateInterval(line[i].y);
      }
      assert line[..|line|] == line;
    }

    /** The scan line of a polygon with some height meets no vertex, half way between the vertices around the centre. */
    method GetScanLineY() returns (bisectY: real)
      requires Valid() && loY == MinY(poly.shell) && hiY == MaxY(poly.shell)
      modifies `loY, `hiY
      ensures MinY(poly.shell) <= bisectY <= MaxY(poly.shell)
      ensures MinY(poly.shell) < MaxY(poly.shell) ==> AvoidsVertices(poly, bisectY)
      ensures exists lo, hi :: HalfWay(poly, lo, hi, bisectY)
    {
      hide *;
      ShellHeights(poly);
      ShellHeight(poly, loY, hiY);
      ProcessRing(poly.shell);
      for i := 0 to |poly.holes|
        invariant Valid() && FreeBetween(poly.shell, loY, hiY)
        invariant IsHeight(poly, loY) && IsHeight(poly, hiY)
        invariant forall j :: 0 <= j < i ==> FreeBetween(poly.holes[j], loY, hiY)
      {
        HoleHeights(poly, i);
        ghost var lo, hi := loY, hiY;
        ProcessRing(poly.holes[i]);
        FreeNarrower(poly.shell, lo, hi, loY, hiY);
        forall j | 0 <= j < i ensures FreeBetween(poly.holes[j], loY, hiY) {
          FreeNarrower(poly.holes[j], lo, hi, loY, hiY);
        }
      }
      bisectY := Avg(hiY, loY);
      AvgIsMiddle(hiY, loY);
      IntervalIs();
      IsHalfWay(poly, loY, hiY, bisectY);
      if loY < hiY { MiddleAvoids(poly, loY, hiY, bisectY); }
    }
  }

  lemma AvgIsMiddle(a: real, b: real)
    ensures Avg(a, b) - b == a - Avg(a, b)
  {
  }

  lemma FreeNarrower(pts: seq<Point>, lo: real, hi: real, loY: real, hiY: real)
    requires FreeBetween(pts, lo, hi) && lo <= loY && hiY <= hi
    ensures FreeBetween(pts, loY, hiY)
  {
  }

  // Some vertex of the polygon has this ordinate.
  predicate IsHeight(poly: Polygon, y: real) {
    exists i, j :: 0 <= i < |Rings(poly)| && 0 <= j < |Rings(poly)[i]| && Rings(poly)[i][j].y == y
  }

  // Height y is half way between lo, the greatest ordinate of a vertex up to the centre of the shell, and hi, the
  // least one above it.
  predicate HalfWay(poly: Polygon, lo: real, hi: real, y: real)
    requires poly.shell != []
  {
    var twice := MinY(poly.shell) + MaxY(poly.shell);
    && y - lo == hi - y && IsHeight(poly, lo) && IsHeight(poly, hi) && lo + lo <= twice
    && (MinY(poly.shell) < MaxY(poly.shell) ==> hi + hi > twice)
    && (forall i, j :: 0 <= i < |Rings(poly)| && 0 <= j < |Rings(poly)[i]| ==>
         var v := Rings(poly)[i][j].y;
         (v + v <= twice ==> v <= lo) && (v + v > twice ==> hi <= v))
  }

  lemma ShellHeights(poly: Polygon)
    ensures forall j :: 0 <= j < |poly.shell| ==> IsHeight(poly, poly.shell[j].y)
  {
    forall j | 0 <= j < |poly.shell| ensures IsHeight(poly, poly.shell[j].y) {
      assert Rings(poly)[0][j].y == poly.shell[j].y;
    }
  }

  lemma ShellHeight(poly: Polygon, lo: real, hi: real)
    requires poly.shell != [] && lo == MinY(poly.shell) && hi == MaxY(poly.shell)
    ensures IsHeight(poly, lo) && IsHeight(poly, hi)
  {
    ShellHeights(poly);
  }

  lemma HoleHeights(poly: Polygon, i: nat)
    requires i < |poly.holes|
    ensures forall j :: 0 <= j < |poly.holes[i]| ==> IsHeight(poly, poly.holes[i][j].y)
  {
    forall j | 0 <= j < |poly.holes[i]| ensures IsHeight(poly, poly.holes[i][j].y) {
      assert Rings(poly)[i + 1][j].y == poly.holes[i][j].y;
    }
  }

  lemma IsHalfWay(poly: Polygon, lo: real, hi: real, y: real)
    requires poly.shell != [] && y - lo == hi - y && IsHeight(poly, lo) && IsHeight(poly, hi)
    requires MinY(poly.shell) <= lo <= hi <= MaxY(poly.shell)
    requires lo + lo <= MinY(poly.shell) + MaxY(poly.shell) <= hi + hi
    requires MinY(poly.shell) < MaxY(poly.shell) ==> MinY(poly.shell) + MaxY(poly.shell) < hi + hi
    requires FreeBetween(poly.shell, lo, hi)
    requires forall j :: 0 <= j < |poly.holes| ==> FreeBetween(poly.holes[j], lo, hi)
    ensures HalfWay(poly, lo, hi, y)
  {
    var twice := MinY(poly.shell) + MaxY(poly.shell);
    forall i, j | 0 <= i < |Rings(poly)| && 0 <= j < |Rings(poly)[i]|
      ensures var v := Rings(poly)[i][j].y; (v + v <= twice ==> v <= lo) && (v + v > twice ==> hi <= v)
    {
      if i > 0 { assert FreeBetween(poly.holes[i - 1], lo, hi); }
      assert FreeBetween(Rings(poly)[i], lo, hi);
    }
  }

  predicate AvoidsVertices(poly: Polygon, y: real) {
    forall i, j :: 0 <= i < |Rings(poly)| && 0 <= j < |Rings(poly)[i]| ==> Rings(poly)[i][j].y != y
  }

  lemma MiddleAvoids(poly: Polygon, loY: real, hiY: real, y: real)
    requires loY < y < hiY && FreeBetween(poly.shell, loY, hiY)
    requires forall j :: 0 <= j < |poly.holes| ==> FreeBetween(poly.holes[j], loY, hiY)
    ensures AvoidsVertices(poly, y)
  {
    forall i, j | 0 <= i < |Rings(poly)| && 0 <= j < |Rings(poly)[i]| ensures Rings(poly)[i][j].y != y {
      assert FreeBetween(Rings(poly)[i], loY, hiY) by { if i > 0 { assert FreeBetween(poly.holes[i - 1], loY, hiY); } }
    }
  }

  // ---- The crossings of the scan line

  predicate SpansHeight(p0: Point, p1: Point, y: real) {
    !(p0.y > y && p1.y > y) && !(p0.y < y && p1.y < y)
  }

  predicate IsEdgeCrossingCounted(p0: Point, p1: Point, scanY: real) {
    if p0.y == p1.y then false
    else if p0.y == scanY && p1.y < scanY then false
    else if p1.y == scanY && p0.y < scanY then false
    else true
  }

  /** The segments counted are those of the half-open rule that ray crossings use. */
  lemma CountedIsStraddling(p0: Point, p1: Point, y: real)
    ensures SpansHeight(p0, p1, y) && IsEdgeCrossingCounted(p0, p1, y) <==> Straddles(y, p0, p1)
  {
  }

  // Where a segment that is not horizontal is at height y.
  function Intersection(p0: Point, p1: Point, y: real): real
    requires p0.y != p1.y
  {
    if p0.x == p1.x then p0.x
    else
      var m := (p1.y - p0.y) / (p1.x - p0.x);
      p0.x + (y - p0.y) / m
  }

  // The abscissas where the segments of a path cross the scan line, in order.
  function CrossingsAt(y: real, path: seq<Point>): (xs: seq<real>)
    ensures |xs| == Passing(y, path)
  {
    if |path| < 2 then []
    else
      var n := |path| - 1;
      CrossingsAt(y, path[..n]) +
        if Straddles(y, path[n - 1], path[n]) then [Intersection(path[n - 1], path[n], y)] else []
  }

  function AllCrossings(y: real, rings: seq<seq<Point>>): seq<real> {
    if rings == [] then [] else AllCrossings(y, rings[..|rings| - 1]) + CrossingsAt(y, rings[|rings| - 1])
  }

  method AddEdgeCrossing(p0: Point, p1: Point, scanY: real, crossings: seq<real>) returns (more: seq<real>)
    ensures more == crossings + if Straddles(scanY, p0, p1) then [Intersection(p0, p1, scanY)] else []
  {
    CountedIsStraddling(p0, p1, scanY);
    more := crossings;
    if !SpansHeight(p0, p1, scanY) {
      return;
    }
    if !IsEdgeCrossingCounted(p0, p1, scanY) {
      return;
    }
    var xInt := Intersection(p0, p1, scanY);
    more := crossings + [xInt];
  }

  // A path that stays on one side of the scan line does not cross it.
  lemma {:induction false} NoCrossings(y: real, path: seq<Point>)
    requires (forall i :: 0 <= i < |path| ==> path[i].y > y) || (forall i :: 0 <= i < |path| ==> path[i].y < y)
    ensures CrossingsAt(y, path) == []
  {
    if |path| >= 2 { NoCrossings(y, path[..|path| - 1]); }
  }

  method ScanRing(ring: seq<Point>, scanY: real, crossings: seq<real>) returns (more: seq<real>)
    requires ring != []
    ensures more == crossings + CrossingsAt(scanY, ring)
  {
    more := crossings;
    // rings above or below the scan line are passed over
    if scanY < MinY(ring) || scanY > MaxY(ring) {
      NoCrossings(scanY, ring);
      return;
    }
    for i := 1 to |ring|
      invariant more == crossings + CrossingsAt(scanY, ring[..i])
    {
      assert ring[..i + 1][..i] == ring[..i];
      more := AddEdgeCrossing(ring[i - 1], ring[i], scanY, more);
    }
    assert ring[..|ring|] == ring;
  }

  lemma RingCrossesEvenly(y: real, ring: seq<Point>)
    requires ClosedRing(ring)
    ensures |CrossingsAt(y, ring)| % 2 == 0
  {
    PassingParity(y, ring);
  }

  /** The crossings of closed rings come in pairs. */
  lemma {:induction false} CrossingsAreEven(y: real, rings: seq<seq<Point>>)
    requires forall i :: 0 <= i < |rings| ==> ClosedRing(rings[i])
    ensures |AllCrossings(y, rings)| % 2 == 0
  {
    hide ClosedRing;
    hide CrossingsAt;
    if rings != [] {
      var n := |rings| - 1;
      CrossingsAreEven(y, rings[..n]);
      RingCrossesEvenly(y, rings[n]);
    }
  }

  // ---- Crossings to the right of a point

  function CountAbove(xs: seq<real>, x: real): nat {
    if xs == [] then 0 else CountAbove(xs[..|xs| - 1], x) + if xs[|xs| - 1] > x then 1 else 0
  }

  lemma {:induction false} CountJoin(xs: seq<real>, ys: seq<real>, x: real)
    ensures CountAbove(xs + ys, x) == CountAbove(xs, x) + CountAbove(ys, x)
  {
    if ys == [] {
      assert xs + ys == xs;
    } else {
      var n := |ys| - 1;
      assert (xs + ys)[..|xs| + n] == xs + ys[..n];
      CountJoin(xs, ys[..n], x);
    }
  }

  // The list without the entry at place i.
  function Without(xs: seq<real>, i: nat): (r: seq<real>)
    requires i < |xs|
    ensures |r| == |xs| - 1
  {
    xs[..i] + xs[i + 1..]
  }

  lemma WithoutCounts(xs: seq<real>, i: nat, x: real)
    requires i < |xs|
    ensures CountAbove(xs, x) == CountAbove(Without(xs, i), x) + if xs[i] > x then 1 else 0
  {
    var a, b := xs[..i], xs[i + 1..];
    assert xs == a + [xs[i]] + b;
    CountJoin(a, b, x);
    CountJoin(a + [xs[i]], b, x);
    CountJoin(a, [xs[i]], x);
    OneAbove(xs[i], x);
  }

  lemma WithoutMultiset(xs: seq<real>, i: nat)
    requires i < |xs|
    ensures multiset(xs) == multiset(Without(xs, i)) + multiset{xs[i]}
  {
    assert xs == xs[..i] + [xs[i]] + xs[i + 1..];
  }

  lemma TakeAway(a: multiset<real>, b: multiset<real>, v: real)
    requires a + multiset{v} == b + multiset{v}
    ensures a == b
  {
    assert a == (a + multiset{v}) - multiset{v};
    assert b == (b + multiset{v}) - multiset{v};
  }

  // Counting does not depend on the order.
  lemma {:induction false} CountAnyOrder(xs: seq<real>, ys: seq<real>, x: real)
    requires multiset(xs) == multiset(ys)
    ensures CountAbove(xs, x) == CountAbove(ys, x) && |xs| == |ys|
  {
    if xs == [] {
      assert |multiset(ys)| == 0;
    } else {
      assert xs[0] in multiset(ys);
      var i :| 0 <= i < |ys| && ys[i] == xs[0];
      hide *;
      WithoutMultiset(xs, 0);
      WithoutMultiset(ys, i);
      TakeAway(multiset(Without(xs, 0)), multiset(Without(ys, i)), xs[0]);
      CountAnyOrder(Without(xs, 0), Without(ys, i), x);
      WithoutCounts(xs, 0, x);
      WithoutCounts(ys, i, x);
    }
  }

  lemma OneAbove(y: real, x: real)
    ensures CountAbove([y], x) == if y > x then 1 else 0
  {
    assert [y][..0] == [];
  }

  lemma {:induction false} CountAll(xs: seq<real>, x: real)
    requires forall i :: 0 <= i < |xs| ==> xs[i] > x
    ensures CountAbove(xs, x) == |xs|
  {
    if xs != [] { CountAll(xs[..|xs| - 1], x); }
  }

  lemma {:induction false} CountNone(xs: seq<real>, x: real)
    requires forall i :: 0 <= i < |xs| ==> xs[i] <= x
    ensures CountAbove(xs, x) == 0
  {
    if xs != [] { CountNone(xs[..|xs| - 1], x); }
  }

  predicate Ascending(xs: seq<real>) {
    forall i, j :: 0 <= i < j < |xs| ==> xs[i] <= xs[j]
  }

  // Between places i and i + 1 of the sorted crossings there are the later ones to the right.
  lemma CountInGap(xs: seq<real>, i: nat, x: real)
    requires Ascending(xs) && i + 1 < |xs| && xs[i] < x < xs[i + 1]
    ensures CountAbove(xs, x) == |xs| - i - 1
    ensures forall k :: 0 <= k < |xs| ==> xs[k] != x
  {
    assert xs == xs[..i + 1] + xs[i + 1..];
    CountNone(xs[..i + 1], x);
    CountAll(xs[i + 1..], x);
    CountJoin(xs[..i + 1], xs[i + 1..], x);
    forall k | 0 <= k < |xs| ensures xs[k] != x {
      if k <= i { assert xs[k] <= xs[i]; } else { assert xs[i + 1] <= xs[k]; }
    }
  }

  // ---- Crossings of the ray

  // Where the line through a and b is at height y.
  lemma IntersectionOnLine(a: Point, b: Point, y: real)
    requires a.y != b.y
    ensures Cross(a, b, Point(Intersection(a, b, y), y)) == 0.0
  {
    if a.x != b.x {
      var dx, dy := b.x - a.x, b.y - a.y;
      Slope(dx, dy, y - a.y);
    }
  }

  lemma Slope(dx: real, dy: real, h: real)
    requires dx != 0.0 && dy != 0.0
    ensures dy / dx != 0.0 && dy * (h / (dy / dx)) == h * dx
  {
    var m := dy / dx;
    assert m * dx == dy;
    var q := h / m;
    assert q * m == h;
    assert dy * q == (m * dx) * q == (q * m) * dx;
  }

  lemma CrossAtHeight(a: Point, b: Point, p: Point)
    requires a.y != b.y
    ensures Cross(a, b, p) == (b.y - a.y) * (Intersection(a, b, p.y) - p.x)
  {
    var x := Intersection(a, b, p.y);
    IntersectionOnLine(a, b, p.y);
    CrossShift(a, b, p, x);
  }

  lemma CrossShift(a: Point, b: Point, p: Point, x: real)
    ensures Cross(a, b, p) == Cross(a, b, Point(x, p.y)) + (b.y - a.y) * (x - p.x)
  {
  }

  lemma RightOf(dy: real, dx: real, cross: real)
    requires cross == dy * dx && dy != 0.0
    ensures dy > 0.0 ==> (cross > 0.0 <==> dx > 0.0)
    ensures dy < 0.0 ==> (cross < 0.0 <==> dx > 0.0)
    ensures cross == 0.0 <==> dx == 0.0
  {
    ProductSign(dy, dx);
  }

  /** The ray from p crosses a segment exactly when the segment crosses the scan line to the right of p. */
  lemma CrossesToTheRight(p: Point, a: Point, b: Point)
    ensures Crosses(p, a, b) <==> Straddles(p.y, a, b) && Intersection(a, b, p.y) > p.x
    ensures Straddles(p.y, a, b) ==> (Cross(a, b, p) == 0.0 <==> Intersection(a, b, p.y) == p.x)
  {
    if Straddles(p.y, a, b) {
      CrossAtHeight(a, b, p);
      RightOf(b.y - a.y, Intersection(a, b, p.y) - p.x, Cross(a, b, p));
      hide Intersection;
      hide Cross;
    }
  }

  lemma {:induction false} CrossingsAreAbove(p: Point, path: seq<Point>)
    ensures Crossings(p, path) == CountAbove(CrossingsAt(p.y, path), p.x)
  {
    if |path| >= 2 {
      var n := |path| - 1;
      CrossingsAreAbove(p, path[..n]);
      CrossesToTheRight(p, path[n - 1], path[n]);
      if Straddles(p.y, path[n - 1], path[n]) {
        var x := Intersection(path[n - 1], path[n], p.y);
        CountJoin(CrossingsAt(p.y, path[..n]), [x], p.x);
        OneAbove(x, p.x);
      } else {
        assert CrossingsAt(p.y, path) == CrossingsAt(p.y, path[..n]);
      }
      hide Crosses;
    }
  }

  // How many segments of all rings the ray crosses.
  function TotalCrossings(p: Point, rings: seq<seq<Point>>): nat {
    if rings == [] then 0 else TotalCrossings(p, rings[..|rings| - 1]) + Crossings(p, rings[|rings| - 1])
  }

  lemma {:induction false} TotalIsAbove(p: Point, rings: seq<seq<Point>>)
    ensures TotalCrossings(p, rings) == CountAbove(AllCrossings(p.y, rings), p.x)
  {
    if rings != [] {
      var n := |rings| - 1;
      TotalIsAbove(p, rings[..n]);
      CrossingsAreAbove(p, rings[n]);
      CountJoin(AllCrossings(p.y, rings[..n]), CrossingsAt(p.y, rings[n]), p.x);
    }
  }

  // ---- The edges of the polygon

  // On a scan line that avoids the vertices, a point of a segment is where the segment crosses it.
  lemma OnSegmentCrosses(p: Point, a: Point, b: Point)
    requires OnSegment(p, a, b) && a.y != p.y && b.y != p.y
    ensures Straddles(p.y, a, b) && Intersection(a, b, p.y) == p.x
  {
    CrossesToTheRight(p, a, b);
    hide Intersection;
    hide Crosses;
  }

  lemma {:induction false} CrossingListed(y: real, path: seq<Point>, i: nat)
    requires i + 1 < |path| && Straddles(y, path[i], path[i + 1])
    ensures Intersection(path[i], path[i + 1], y) in CrossingsAt(y, path)
  {
    hide Intersection;
    var n := |path| - 1;
    if i + 1 < n {
      CrossingListed(y, path[..n], i);
    }
  }

  lemma {:induction false} RingCrossingListed(y: real, rings: seq<seq<Point>>, r: nat, x: real)
    requires r < |rings| && x in CrossingsAt(y, rings[r])
    ensures x in AllCrossings(y, rings)
  {
    if r < |rings| - 1 {
      RingCrossingListed(y, rings[..|rings| - 1], r, x);
    }
  }

  /** A point of the scan line that is at no crossing is on no ring. */
  lemma OffTheRings(poly: Polygon, p: Point)
    requires AvoidsVertices(poly, p.y) && p.x !in AllCrossings(p.y, Rings(poly))
    ensures forall r :: 0 <= r < |Rings(poly)| ==> !OnRing(p, Rings(poly)[r])
  {
    forall r | 0 <= r < |Rings(poly)| ensures !OnRing(p, Rings(poly)[r]) {
      var ring := Rings(poly)[r];
      forall i | 0 <= i < |ring| - 1 ensures !OnAt(p, ring, i) {
        if OnSegment(p, ring[i], ring[i + 1]) {
          OnSegmentCrosses(p, ring[i], ring[i + 1]);
          CrossingListed(p.y, ring, i);
          RingCrossingListed(p.y, Rings(poly), r, p.x);
        }
      }
    }
  }

  // ---- The widest section

  // p is inside by even-odd counting over all rings, and on none of them when the scan line avoids the vertices.
  ghost predicate Inside(poly: Polygon, p: Point) {
    && TotalCrossings(p, Rings(poly)) % 2 == 1
    && (AvoidsVertices(poly, p.y) ==>
         && (forall r :: 0 <= r < |Rings(poly)| ==> !OnRing(p, Rings(poly)[r]))
         && InteriorTo(p, Rings(poly)) % 2 == 1)
  }

  // In how many of the rings the point is located as interior.
  function InteriorTo(p: Point, rings: seq<seq<Point>>): nat {
    if rings == [] then 0
    else InteriorTo(p, rings[..|rings| - 1]) + if Located(p, rings[|rings| - 1]) == Interior then 1 else 0
  }

  // Off the rings, the crossings of all of them tell whether the point is interior to an odd number.
  lemma {:induction false} InteriorByTotal(p: Point, rings: seq<seq<Point>>)
    requires forall r :: 0 <= r < |rings| ==> ClosedRing(rings[r]) && !OnRing(p, rings[r])
    ensures InteriorTo(p, rings) % 2 == TotalCrossings(p, rings) % 2
  {
    hide ClosedRing;
    hide OnRing;
    hide Crossings;
    if rings != [] {
      var n := |rings| - 1;
      InteriorByTotal(p, rings[..n]);
      BoundaryIsOnRing(p, rings[n]);
    }
  }

  /** Without holes that means interior to the shell. */
  lemma InsideShell(poly: Polygon, p: Point)
    requires Inside(poly, p) && AvoidsVertices(poly, p.y) && poly.holes == []
    ensures Located(p, poly.shell) == Interior
  {
    assert Rings(poly) == [poly.shell];
    hide Located;
    assert InteriorTo(p, Rings(poly)[..0]) == 0 by { assert Rings(poly)[..0] == []; }
    assert InteriorTo(p, Rings(poly)) == if Located(p, poly.shell) == Interior then 1 else 0;
  }

  /** Between a crossing at an even place and the next one the scan line is inside the polygon. */
  lemma MiddleIsInside(poly: Polygon, sorted: seq<real>, i: nat, p: Point)
    requires RingsClosed(poly) && Ascending(sorted) && multiset(sorted) == multiset(AllCrossings(p.y, Rings(poly)))
    requires i % 2 == 0 && i + 1 < |sorted| && sorted[i] < p.x < sorted[i + 1]
    ensures Inside(poly, p)
  {
    hide AllCrossings;
    hide CountAbove;
    var xs := AllCrossings(p.y, Rings(poly));
    CountInGap(sorted, i, p.x);
    CountAnyOrder(sorted, xs, p.x);
    TotalIsAbove(p, Rings(poly));
    CrossingsAreEven(p.y, Rings(poly));
    assert p.x !in multiset(sorted);
    assert p.x !in xs;
    if AvoidsVertices(poly, p.y) {
      OffTheRings(poly, p);
      InteriorByTotal(p, Rings(poly));
    }
  }

  lemma AscendingBounds(xs: seq<real>, i: nat, j: nat)
    requires Ascending(xs) && i <= j < |xs|
    ensures xs[i] <= xs[j]
  {
  }

  lemma InsertedAt(xs: seq<real>, k: nat, x: real, i: nat)
    requires k <= |xs| && i <= |xs|
    ensures (xs[..k] + [x] + xs[k..])[i] == if i < k then xs[i] else if i == k then x else xs[i - 1]
  {
  }

  lemma InsertAscending(xs: seq<real>, k: nat, x: real)
    requires Ascending(xs) && k <= |xs| && (k > 0 ==> xs[k - 1] <= x) && (k < |xs| ==> x <= xs[k])
    ensures Ascending(xs[..k] + [x] + xs[k..])
  {
    var ys := xs[..k] + [x] + xs[k..];
    forall i, j | 0 <= i < j < |ys| ensures ys[i] <= ys[j] {
      hide Ascending;
      InsertedAt(xs, k, x, i);
      InsertedAt(xs, k, x, j);
      if i == k {
        AscendingBounds(xs, k, j - 1);
      } else if j == k {
        AscendingBounds(xs, i, k - 1);
      } else {
        AscendingBounds(xs, if i < k then i else i - 1, if j < k then j else j - 1);
      }
    }
  }

  lemma InsertedMultiset(xs: seq<real>, k: nat, x: real)
    requires k <= |xs|
    ensures multiset(xs[..k] + [x] + xs[k..]) == multiset(xs) + multiset{x}
  {
    assert xs == xs[..k] + xs[k..];
  }

  // Insert x into the sorted list.
  method InsertSorted(xs: seq<real>, x: real) returns (ys: seq<real>)
    requires Ascending(xs)
    ensures Ascending(ys) && multiset(ys) == multiset(xs) + multiset{x}
  {
    var k := |xs|;
    while k > 0 && x < xs[k - 1]
      invariant 0 <= k <= |xs| && (k < |xs| ==> x <= xs[k])
    {
      k := k - 1;
    }
    InsertAscending(xs, k, x);
    InsertedMultiset(xs, k, x);
    ys := xs[..k] + [x] + xs[k..];
  }

  method Sort(xs: seq<real>) returns (ys: seq<real>)
    ensures Ascending(ys) && multiset(ys) == multiset(xs)
  {
    ys := [];
    for i := 0 to |xs|
      invariant Ascending(ys) && multiset(ys) == multiset(xs[..i])
    {
      assert xs[..i + 1] == xs[..i] + [xs[i]];
      ys := InsertSorted(ys, xs[i]);
    }
    assert xs[..|xs|] == xs;
  }

  // Section i of the sorted crossings, for even i.
  predicate IsSection(sorted: seq<real>, i: nat) {
    i % 2 == 0 && i + 1 < |sorted|
  }

  function SectionWidth(sorted: seq<real>, i: nat): real
    requires IsSection(sorted, i)
  {
    sorted[i + 1] - sorted[i]
  }

  // The width is that of a widest section before place n, and the point the middle of the first one at height y.
  ghost predicate Widest(sorted: seq<real>, n: nat, y: real, default: Point, width: real, point: Point) {
    && width >= 0.0
    && (forall i :: 0 <= i < n && IsSection(sorted, i) ==> SectionWidth(sorted, i) <= width)
    && (width == 0.0 ==> point == default)
    && (width > 0.0 ==> exists i :: 0 <= i < n && MiddleOf(sorted, i, y, width, point))
  }

  ghost predicate MiddleOf(sorted: seq<real>, i: nat, y: real, width: real, point: Point) {
    && IsSection(sorted, i) && width == SectionWidth(sorted, i)
    && point.x - sorted[i] == sorted[i + 1] - point.x && point.y == y
    && forall j :: 0 <= j < i && IsSection(sorted, j) ==> SectionWidth(sorted, j) < width
  }

  lemma WidestNext(sorted: seq<real>, n: nat, y: real, default: Point, width: real, point: Point)
    requires Widest(sorted, n, y, default, width, point) && IsSection(sorted, n)
    ensures var w := SectionWidth(sorted, n);
      if w > width then Widest(sorted, n + 2, y, default, w, Point(Avg(sorted[n], sorted[n + 1]), y))
      else Widest(sorted, n + 2, y, default, width, point)
  {
    var w := SectionWidth(sorted, n);
    if w > width { assert MiddleOf(sorted, n, y, w, Point(Avg(sorted[n], sorted[n + 1]), y)); }
    forall i | 0 <= i < n + 2 && IsSection(sorted, i)
      ensures SectionWidth(sorted, i) <= if w > width then w else width
    {
      assert i < n || i == n;
    }
    hide MiddleOf;
  }

  class InteriorPointPolygon {
    const polygon: Polygon
    const interiorPointY: real
    var interiorSectionWidth: real
    var interiorPoint: Point

    // An empty polygon has no heights; its scan line is never used.
    constructor (polygon: Polygon)
      ensures this.polygon == polygon && interiorSectionWidth == 0.0 && interiorPoint == Point(0.0, 0.0)
      ensures polygon.shell != [] ==> MinY(polygon.shell) <= interiorPointY <= MaxY(polygon.shell)
      ensures polygon.shell != [] && MinY(polygon.shell) < MaxY(polygon.shell) ==>
        AvoidsVertices(polygon, interiorPointY)
      ensures polygon.shell != [] ==> exists lo, hi :: HalfWay(polygon, lo, hi, interiorPointY)
    {
      var y := 0.0;
      if polygon.shell != [] {
        var finder := new ScanLineYOrdinateFinder(polygon);
        y := finder.GetScanLineY();
      }
      this.polygon := polygon;
      this.interiorPointY := y;
      interiorSectionWidth := 0.0;
      interiorPoint := Point(0.0, 0.0);
    }

    method FindBestMidpoint(crossings: seq<real>) returns (ghost sorted: seq<real>)
      requires |crossings| % 2 == 0 && interiorSectionWidth == 0.0
      modifies `interiorSectionWidth, `interiorPoint
      ensures Ascending(sorted) && multiset(sorted) == multiset(crossings)
      ensures Widest(sorted, |sorted|, interiorPointY, old(interiorPoint), interiorSectionWidth, interiorPoint)
    {
      sorted := [];
      if crossings == [] {
        return;
      }
      var xs := Sort(crossings);
      assert |xs| == |multiset(xs)| == |multiset(crossings)| == |crossings|;
      sorted := xs;
      ghost var default := interiorPoint;
      var i := 0;
      while i < |xs|
        invariant 0 <= i <= |xs| && i % 2 == 0
        invariant Widest(xs, i, interiorPointY, default, interiorSectionWidth, interiorPoint)
      {
        WidestNext(xs, i, interiorPointY, default, interiorSectionWidth, interiorPoint);
        hide Widest;
        var x1 := xs[i];
        var x2 := xs[i + 1];
        var width := x2 - x1;
        if width > interiorSectionWidth {
          interiorSectionWidth := width;
          var interiorPointX := Avg(x1, x2);
          interiorPoint := Point(interiorPointX, interiorPointY);
        }
        i := i + 2;
      }
    }

    // The crossings of all rings, the shell first.
    method ScanRings() returns (crossings: seq<real>)
      requires RingsClosed(polygon)
      ensures crossings == AllCrossings(interiorPointY, Rings(polygon))
    {
      var rings := Rings(polygon);
      crossings := [];
      for i := 0 to |rings|
        invariant crossings == AllCrossings(interiorPointY, rings[..i])
      {
        assert rings[..i + 1][..i] == rings[..i];
        assert ClosedRing(rings[i]);
        crossings := ScanRing(rings[i], interiorPointY, crossings);
      }
      assert rings[..|rings|] == rings;
    }

    /**
     Find the middle of the widest section of the scan line. When the width is positive the point is
     inside the polygon, and for a polygon of some height it is on none of its rings. An empty polygon
     is left alone.
     */
    method Process()
      requires (polygon.shell == [] || RingsClosed(polygon)) && interiorSectionWidth == 0.0
      modifies `interiorSectionWidth, `interiorPoint
      ensures polygon.shell == [] ==> interiorPoint == old(interiorPoint) && interiorSectionWidth == 0.0
      ensures polygon.shell != [] ==>
        exists sorted :: FoundWidest(polygon, sorted, interiorPointY, interiorSectionWidth, interiorPoint)
      ensures interiorSectionWidth > 0.0 ==> interiorPoint.y == interiorPointY && Inside(polygon, interiorPoint)
      ensures interiorSectionWidth > 0.0 && polygon.holes == [] && AvoidsVertices(polygon, interiorPointY) ==>
        Located(interiorPoint, polygon.shell) == Interior
    {
      if polygon.shell == [] {
        return;
      }
      interiorPoint := polygon.shell[0];
      var crossings := ScanRings();
      CrossingsAreEven(interiorPointY, Rings(polygon));
      ghost var sorted := FindBestMidpoint(crossings);
      WidestIsInside(polygon, sorted, interiorPointY, polygon.shell[0], interiorSectionWidth, interiorPoint);
      assert FoundWidest(polygon, sorted, interiorPointY, interiorSectionWidth, interiorPoint);
      hide *;
      if interiorSectionWidth > 0.0 && polygon.holes == [] && AvoidsVertices(polygon, interiorPointY) {
        InsideShell(polygon, interiorPoint);
      }
    }
  }

  // The point is the first shell point, or the middle of the first widest section between paired crossings.
  ghost predicate FoundWidest(poly: Polygon, sorted: seq<real>, y: real, width: real, point: Point)
    requires poly.shell != []
  {
    && Ascending(sorted) && multiset(sorted) == multiset(AllCrossings(y, Rings(poly)))
    && Widest(sorted, |sorted|, y, poly.shell[0], width, point)
  }

  lemma WidestIsInside(poly: Polygon, sorted: seq<real>, y: real, default: Point, width: real, point: Point)
    requires RingsClosed(poly) && Ascending(sorted) && multiset(sorted) == multiset(AllCrossings(y, Rings(poly)))
    requires Widest(sorted, |sorted|, y, default, width, point)
    ensures width > 0.0 ==> point.y == y && Inside(poly, point)
  {
    if width > 0.0 {
      var i :| 0 <= i < |sorted| && MiddleOf(sorted, i, y, width, point);
      hide *;
      MiddleHeight(sorted, i, y, width, point);
      SectionIsEven(sorted, i, y, width, point);
      MiddleIsInside(poly, sorted, i, point);
    }
  }

  lemma MiddleHeight(sorted: seq<real>, i: nat, y: real, width: real, point: Point)
    requires MiddleOf(sorted, i, y, width, point)
    ensures point.y == y
  {
  }

  lemma SectionIsEven(sorted: seq<real>, i: nat, y: real, width: real, point: Point)
    requires MiddleOf(sorted, i, y, width, point) && width > 0.0
    ensures i % 2 == 0 && i + 1 < |sorted| && sorted[i] < point.x < sorted[i + 1]
  {
  }
}
