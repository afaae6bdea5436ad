/**
 The centroid: of the area, by signed triangles from a base point, and otherwise of the segments
 or the points. Why the base point, which is the shell's for the holes too, does not matter.
 */
module Centroids {
  import opened Planar
  import opened CoordinateLists
  import opened Areas
  import Runs = SimplifyRuns

  function Area2(p1: Point, p2: Point, p3: Point): real {
    (p2.x - p1.x) * (p3.y - p1.y) - (p3.x - p1.x) * (p2.y - p1.y)
  }

  // Three times the centroid of a triangle.
  function Centroid3(p1: Point, p2: Point, p3: Point): Point {
    Point(p1.x + p2.x + p3.x, p1.y + p2.y + p3.y)
  }

  function Plus(p: Point, q: Point): Point {
    Point(p.x + q.x, p.y + q.y)
  }

  function Minus(p: Point, q: Point): Point {
    Point(p.x - q.x, p.y - q.y)
  }

  function Times(s: real, p: Point): Point {
    Point(s * p.x, s * p.y)
  }

  // ---- Sums over the segments of a path

  // What the triangles from a base point to the first k segments add up to.
  function TriangleAreas(base: Point, pts: seq<Point>, k: nat): real
    requires k < |pts| || k == 0
  {
    if k == 0 then 0.0 else TriangleAreas(base, pts, k - 1) + Area2(base, pts[k - 1], pts[k])
  }

  function TriangleMoments(base: Point, pts: seq<Point>, k: nat): Point
    requires k < |pts| || k == 0
  {
    if k == 0 then Point(0.0, 0.0)
    else Plus(TriangleMoments(base, pts, k - 1), Moment3(base, pts[k - 1], pts[k]))
  }

  // The moment of the triangle.
  function Moment3(p1: Point, p2: Point, p3: Point): Point {
    Times(Area2(p1, p2, p3), Centroid3(p1, p2, p3))
  }

  // The moment of the triangle from the coordinate origin.
  function Moment(p: Point, q: Point): Point {
    Times(Runs.EdgeTerm(p, q), Plus(p, q))
  }

  function PathMoment(pts: seq<Point>, k: nat): Point
    requires k < |pts| || k == 0
  {
    if k == 0 then Point(0.0, 0.0) else Plus(PathMoment(pts, k - 1), Moment(pts[k - 1], pts[k]))
  }

  lemma AreaFromOrigin(b: Point, p: Point, q: Point)
    ensures Area2(b, p, q) == Runs.EdgeTerm(p, q) + Runs.EdgeTerm(b, p) - Runs.EdgeTerm(b, q)
  {
  }

  // Three points in the plane, each weighted with the area the other two span from the origin.
  lemma TripleTerm(b0: real, b1: real, p0: real, p1: real, q0: real, q1: real)
    ensures (p0 * q1 - q0 * p1) * b0 + (b0 * p1 - p0 * b1) * q0 - (b0 * q1 - q0 * b1) * p0 == 0.0
  {
    assert (p0 * q1) * b0 == (b0 * q1) * p0;
    assert (q0 * p1) * b0 == (b0 * p1) * q0;
    assert (p0 * b1) * q0 == (q0 * b1) * p0;
  }

  lemma Regroup(u: real, v: real, w: real, b: real, p: real, q: real)
    requires u * b + v * q - w * p == 0.0
    ensures (u + v - w) * (b + p + q) == u * (p + q) + v * (b + p) - w * (b + q)
  {
  }

  lemma Weighted(b: Point, p: Point, q: Point)
    ensures Runs.EdgeTerm(p, q) * b.x + Runs.EdgeTerm(b, p) * q.x - Runs.EdgeTerm(b, q) * p.x == 0.0
    ensures Runs.EdgeTerm(p, q) * b.y + Runs.EdgeTerm(b, p) * q.y - Runs.EdgeTerm(b, q) * p.y == 0.0
  {
    TripleTerm(b.x, b.y, p.x, p.y, q.x, q.y);
    TripleTerm(b.y, b.x, p.y, p.x, q.y, q.x);
  }

  lemma MomentFromOrigin(b: Point, p: Point, q: Point)
    ensures Moment3(b, p, q).x == Moment(p, q).x + Moment(b, p).x - Moment(b, q).x
    ensures Moment3(b, p, q).y == Moment(p, q).y + Moment(b, p).y - Moment(b, q).y
  {
    hide Runs.EdgeTerm;
    hide Area2;
    var u, v, w := Runs.EdgeTerm(p, q), Runs.EdgeTerm(b, p), Runs.EdgeTerm(b, q);
    Weighted(b, p, q);
    AreaFromOrigin(b, p, q);
    Regroup(u, v, w, b.x, p.x, q.x);
    Regroup(u, v, w, b.y, p.y, q.y);
  }

  lemma {:induction false} AreasFromOrigin(b: Point, pts: seq<Point>, k: nat)
    requires k < |pts|
    ensures TriangleAreas(b, pts, k) == Runs.PathSum(pts[..k + 1]) + Runs.EdgeTerm(b, pts[0]) - Runs.EdgeTerm(b, pts[k])
  {
    if k == 0 {
      assert Runs.PathSum(pts[..1]) == 0.0;
    } else {
      AreasFromOrigin(b, pts, k - 1);
      PathStep(pts, k);
      AreaFromOrigin(b, pts[k - 1], pts[k]);
      hide Area2;
      hide Runs.EdgeTerm;
      hide Runs.PathSum;
    }
  }

  lemma {:induction false} MomentsFromOrigin(b: Point, pts: seq<Point>, k: nat)
    requires k < |pts|
    ensures TriangleMoments(b, pts, k).x == PathMoment(pts, k).x + Moment(b, pts[0]).x - Moment(b, pts[k]).x
    ensures TriangleMoments(b, pts, k).y == PathMoment(pts, k).y + Moment(b, pts[0]).y - Moment(b, pts[k]).y
  {
    hide Moment;
    hide Moment3;
    if k > 0 {
      MomentsFromOrigin(b, pts, k - 1);
      MomentFromOrigin(b, pts[k - 1], pts[k]);
    }
  }

  predicate ClosedPath(pts: seq<Point>) {
    |pts| > 0 && pts[0] == pts[|pts| - 1]
  }

  /** On a closed ring neither sum depends on the base point. */
  lemma BasePointIsFree(b: Point, pts: seq<Point>)
    requires ClosedPath(pts)
    ensures TriangleAreas(b, pts, |pts| - 1) == Runs.PathSum(pts)
    ensures TriangleMoments(b, pts, |pts| - 1) == PathMoment(pts, |pts| - 1)
  {
    var n := |pts| - 1;
    AreasFromOrigin(b, pts, n);
    MomentsFromOrigin(b, pts, n);
    assert pts[..n + 1] == pts;
    hide Moment;
    hide Runs.EdgeTerm;
  }

  // ---- Segments

  // The distance of two points, which the sums take as given.
  type Distance = (Point, Point) -> real

  // It is symmetric and positive except for a point and itself.
  ghost predicate IsDistance(length: Distance) {
    && (forall p, q :: length(p, q) == length(q, p))
    && (forall p, q :: if p == q then length(p, q) == 0.0 else length(p, q) > 0.0)
  }

  function Middle(p: Point, q: Point): Point {
    Point((p.x + q.x) / 2.0, (p.y + q.y) / 2.0)
  }

  // The length of a path.
  function PathLength(length: Distance, pts: seq<Point>): real {
    if |pts| < 2 then 0.0
    else PathLength(length, pts[..|pts| - 1]) + length(pts[|pts| - 2], pts[|pts| - 1])
  }

  // The middles of its segments, weighted with their lengths.
  function PathMiddles(length: Distance, pts: seq<Point>): Point {
    if |pts| < 2 then Point(0.0, 0.0)
    else
      var p, q := pts[|pts| - 2], pts[|pts| - 1];
      Plus(PathMiddles(length, pts[..|pts| - 1]), Times(length(p, q), Middle(p, q)))
  }

  lemma {:induction false} LengthNotNegative(length: Distance, pts: seq<Point>)
    requires IsDistance(length)
    ensures PathLength(length, pts) >= 0.0
  {
    if |pts| >= 2 { LengthNotNegative(length, pts[..|pts| - 1]); }
  }

  /** Exactly the paths that stay at one point have no length, and count as that point. */
  lemma {:induction false} NoLength(length: Distance, pts: seq<Point>)
    requires IsDistance(length) && pts != []
    ensures PathLength(length, pts) == 0.0 <==> forall p :: p in pts ==> p == pts[0]
  {
    if |pts| >= 2 {
      var before := pts[..|pts| - 1];
      NoLength(length, before);
      LengthNotNegative(length, before);
      assert before[|before| - 1] in before && before[0] == pts[0];
      assert pts[|pts| - 1] in pts && pts[|pts| - 2] in pts;
      assert forall p :: p in pts <==> p in before || p == pts[|pts| - 1];
    }
  }

  lemma PathStarts(length: Distance, pts: seq<Point>, sum: Point)
    requires pts != []
    ensures PathLength(length, pts[..1]) == 0.0 && Plus(sum, PathMiddles(length, pts[..1])) == sum
  {
  }

  lemma LengthNext(length: Distance, pts: seq<Point>, i: nat)
    requires i + 1 < |pts|
    ensures PathLength(length, pts[..i + 2]) == PathLength(length, pts[..i + 1]) + length(pts[i], pts[i + 1])
    ensures PathMiddles(length, pts[..i + 2]) ==
            Plus(PathMiddles(length, pts[..i + 1]), Times(length(pts[i], pts[i + 1]), Middle(pts[i], pts[i + 1])))
  {
    assert pts[..i + 2][..i + 1] == pts[..i + 1];
  }

  lemma MiddleAdded(sum: Point, middles: Point, len: real, p: Point, q: Point)
    ensures var c, m := Plus(sum, middles), Middle(p, q);
      Plus(sum, Plus(middles, Times(len, m))) == if len == 0.0 then c else Point(c.x + len * m.x, c.y + len * m.y)
    ensures Middle(p, q) == Point((p.x + q.x) / 2.0, (p.y + q.y) / 2.0)
  {
  }

  lemma {:induction false} LengthJoin(length: Distance, s: seq<Point>, t: seq<Point>)
    requires s != [] && t != []
    ensures PathLength(length, s + t) ==
            PathLength(length, s) + length(s[|s| - 1], t[0]) + PathLength(length, t)
    ensures PathMiddles(length, s + t) ==
            Plus(Plus(PathMiddles(length, s), Times(length(s[|s| - 1], t[0]), Middle(s[|s| - 1], t[0]))),
                 PathMiddles(length, t))
  {
    hide Times;
    hide Middle;
    assert (s + t)[..|s + t| - 1] == s + t[..|t| - 1];
    if |t| == 1 {
      assert s + t[..0] == s;
    } else {
      LengthJoin(length, s, t[..|t| - 1]);
    }
  }

  /** A path has the same length and the same centroid backwards. */
  lemma {:induction false} BackwardsLength(length: Distance, pts: seq<Point>)
    requires IsDistance(length)
    ensures PathLength(length, Reversed(pts)) == PathLength(length, pts)
    ensures PathMiddles(length, Reversed(pts)) == PathMiddles(length, pts)
  {
    if |pts| >= 2 {
      var n := |pts| - 1;
      BackwardsLength(length, pts[..n]);
      ReversedLast(pts);
      LengthJoin(length, [pts[n]], Reversed(pts[..n]));
      MiddleEither(pts[n], pts[n - 1]);
    }
  }

  lemma ReversedLast(pts: seq<Point>)
    requires |pts| >= 2
    ensures var n := |pts| - 1;
      Reversed(pts) == [pts[n]] + Reversed(pts[..n]) && Reversed(pts[..n]) != [] && Reversed(pts[..n])[0] == pts[n - 1]
  {
  }

  lemma MiddleEither(p: Point, q: Point)
    ensures Middle(p, q) == Middle(q, p)
  {
  }

  // ---- Accumulating

  function SignOf(isPositiveArea: bool): real {
    if isPositiveArea then 1.0 else -1.0
  }

  lemma SignMeans(isPositiveArea: bool, area: real, p: Point, m: Point)
    ensures isPositiveArea ==> SignOf(isPositiveArea) == 1.0 && Plus(p, Times(SignOf(isPositiveArea), m)) == Plus(p, m)
    ensures !isPositiveArea ==>
      SignOf(isPositiveArea) == -1.0 && Plus(p, Times(SignOf(isPositiveArea), m)) == Minus(p, m)
    ensures 2.0 * SignOf(isPositiveArea) * area == if isPositiveArea then 2.0 * area else -2.0 * area
  {
  }

  lemma AbsIs(r: real)
    ensures Abs(r) == if r < 0.0 then -r else r
  {
  }

  lemma Distributes(s: real, x: real, y: real)
    ensures s * (x + y) == s * x + s * y
  {
  }

  class Centroid {
    const length: Distance
    var areaBasePt: Point
    var areasum2: real
    var cg3: Point
    var lineCentSum: Point
    var totalLength: real
    var ptCount: nat
    var ptCentSum: Point

    constructor (length: Distance)
      ensures this.length == length && areasum2 == 0.0 && cg3 == Point(0.0, 0.0)
      ensures totalLength == 0.0 && lineCentSum == Point(0.0, 0.0) && ptCount == 0 && ptCentSum == Point(0.0, 0.0)
    {
      this.length := length;
      areaBasePt := Point(0.0, 0.0);
      areasum2 := 0.0;
      cg3 := Point(0.0, 0.0);
      lineCentSum := Point(0.0, 0.0);
      totalLength := 0.0;
      ptCount := 0;
      ptCentSum := Point(0.0, 0.0);
    }

    method AddPoint(pt: Point)
      modifies `ptCount, `ptCentSum
      ensures ptCount == old(ptCount) + 1 && ptCentSum == Plus(old(ptCentSum), pt)
    {
      ptCount := ptCount + 1;
      ptCentSum := Point(ptCentSum.x + pt.x, ptCentSum.y + pt.y);
    }

    /** Add the segments of a line or ring; one without length counts as its first point. */
    method AddLineSegments(pts: seq<Point>)
      requires pts != []
      modifies `lineCentSum, `totalLength, `ptCount, `ptCentSum
      ensures totalLength == old(totalLength) + PathLength(length, pts)
      ensures lineCentSum == Plus(old(lineCentSum), PathMiddles(length, pts))
      ensures if PathLength(length, pts) == 0.0 then
                ptCount == old(ptCount) + 1 && ptCentSum == Plus(old(ptCentSum), pts[0])
              else ptCount == old(ptCount) && ptCentSum == old(ptCentSum)
    {
      hide *;
      var lineLen := 0.0;
      PathStarts(length, pts, lineCentSum);
      for i := 0 to |pts| - 1
        invariant lineLen == PathLength(length, pts[..i + 1])
        invariant lineCentSum == Plus(old(lineCentSum), PathMiddles(length, pts[..i + 1]))
        invariant totalLength == old(totalLength) && ptCount == old(ptCount) && ptCentSum == old(ptCentSum)
      {
        LengthNext(length, pts, i);
        var segmentLen := length(pts[i], pts[i + 1]);
        MiddleAdded(old(lineCentSum), PathMiddles(length, pts[..i + 1]), segmentLen, pts[i], pts[i + 1]);
        if segmentLen == 0.0 {
          continue;
        }
        lineLen := lineLen + segmentLen;
        var midx := (pts[i].x + pts[i + 1].x) / 2.0;
        var midy := (pts[i].y + pts[i + 1].y) / 2.0;
        lineCentSum := Point(lineCentSum.x + segmentLen * midx, lineCentSum.y + segmentLen * midy);
      }
      assert pts[..|pts|] == pts;
      totalLength := totalLength + lineLen;
      if lineLen == 0.0 {
        AddPoint(pts[0]);
      }
    }

    method AddTriangle(p0: Point, p1: Point, p2: Point, isPositiveArea: bool)
      modifies `cg3, `areasum2
      ensures areasum2 == old(areasum2) + SignOf(isPositiveArea) * Area2(p0, p1, p2)
      ensures cg3 == Plus(old(cg3), Times(SignOf(isPositiveArea), Moment3(p0, p1, p2)))
    {
      var sign := SignOf(isPositiveArea);
      var triangleCent3 := Centroid3(p0, p1, p2);
      var a2 := Area2(p0, p1, p2);
      cg3 := Point(cg3.x + sign * a2 * triangleCent3.x, cg3.y + sign * a2 * triangleCent3.y);
      areasum2 := areasum2 + sign * a2;
    }

    // Add the triangles from the base point to the segments of a ring.
    method AddTriangles(pts: seq<Point>, isPositiveArea: bool)
      requires pts != []
      modifies `cg3, `areasum2
      ensures areasum2 == old(areasum2) + SignOf(isPositiveArea) * TriangleAreas(areaBasePt, pts, |pts| - 1)
      ensures cg3 == Plus(old(cg3), Times(SignOf(isPositiveArea), TriangleMoments(areaBasePt, pts, |pts| - 1)))
    {
      hide *;
      var n, s := |pts| - 1, SignOf(isPositiveArea);
      NothingAdded(s, areaBasePt, pts, areasum2, cg3);
      for i := 0 to n
        invariant areasum2 == old(areasum2) + s * TriangleAreas(areaBasePt, pts, i)
        invariant cg3 == Plus(old(cg3), Times(s, TriangleMoments(areaBasePt, pts, i)))
      {
        AddedNext(s, areaBasePt, pts, i, old(areasum2), old(cg3));
        AddTriangle(areaBasePt, pts[i], pts[i + 1], isPositiveArea);
      }
    }

    /** A ring adds twice its signed area and its moment, whatever the base point is. */
    method AddRing(pts: seq<Point>, isPositiveArea: bool)
      requires ClosedPath(pts)
      modifies `cg3, `areasum2
      ensures areasum2 == old(areasum2) - 2.0 * SignOf(isPositiveArea) * RingArea(pts)
      ensures cg3 == Plus(old(cg3), Times(SignOf(isPositiveArea), PathMoment(pts, |pts| - 1)))
    {
      BasePointIsFree(areaBasePt, pts);
      AreaOfClosed(pts);
      TwiceArea(SignOf(isPositiveArea), Runs.PathSum(pts), RingArea(pts));
      hide *;
      AddTriangles(pts, isPositiveArea);
    }

    // The shell of a polygon: its first vertex becomes the base point.
    method AddShell(pts: seq<Point>, isCCW: bool)
      requires ClosedPath(pts)
      modifies this
      ensures areasum2 == old(areasum2) + if isCCW then 2.0 * RingArea(pts) else -2.0 * RingArea(pts)
      ensures cg3 == if isCCW then Minus(old(cg3), PathMoment(pts, |pts| - 1))
                     else Plus(old(cg3), PathMoment(pts, |pts| - 1))
      ensures (isCCW <==> RingArea(pts) < 0.0) ==> areasum2 == old(areasum2) - 2.0 * Abs(RingArea(pts))
      ensures totalLength == old(totalLength) + PathLength(length, pts)
      ensures lineCentSum == Plus(old(lineCentSum), PathMiddles(length, pts))
      ensures if PathLength(length, pts) == 0.0 then
                ptCount == old(ptCount) + 1 && ptCentSum == Plus(old(ptCentSum), pts[0])
              else ptCount == old(ptCount) && ptCentSum == old(ptCentSum)
    {
      hide *;
      ClosedHasPoints(pts);
      areaBasePt := pts[0];
      SignMeans(!isCCW, RingArea(pts), cg3, PathMoment(pts, |pts| - 1));
      AbsIs(RingArea(pts));
      AddRing(pts, !isCCW);
      AddLineSegments(pts);
    }

    // A hole, measured from the base point of the shell.
    method AddHole(pts: seq<Point>, isCCW: bool)
      requires pts == [] || ClosedPath(pts)
      modifies `areasum2, `cg3, `lineCentSum, `totalLength, `ptCount, `ptCentSum
      ensures pts == [] ==> areasum2 == old(areasum2) && cg3 == old(cg3)
      ensures pts == [] ==> totalLength == old(totalLength) && lineCentSum == old(lineCentSum)
      ensures pts == [] ==> ptCount == old(ptCount) && ptCentSum == old(ptCentSum)
      ensures pts != [] ==>
        areasum2 == old(areasum2) + if isCCW then -2.0 * RingArea(pts) else 2.0 * RingArea(pts)
      ensures pts != [] ==>
        cg3 == if isCCW then Plus(old(cg3), PathMoment(pts, |pts| - 1))
               else Minus(old(cg3), PathMoment(pts, |pts| - 1))
      ensures pts != [] && (isCCW <==> RingArea(pts) < 0.0) ==>
        areasum2 == old(areasum2) + 2.0 * Abs(RingArea(pts))
      ensures pts != [] ==> totalLength == old(totalLength) + PathLength(length, pts)
      ensures pts != [] ==> lineCentSum == Plus(old(lineCentSum), PathMiddles(length, pts))
      ensures pts != [] ==>
        if PathLength(length, pts) == 0.0 then
          ptCount == old(ptCount) + 1 && ptCentSum == Plus(old(ptCentSum), pts[0])
        else ptCount == old(ptCount) && ptCentSum == old(ptCentSum)
    {
      hide *;
      if pts == [] {
        return;
      }
      SignMeans(isCCW, RingArea(pts), cg3, PathMoment(pts, |pts| - 1));
      AbsIs(RingArea(pts));
      AddRing(pts, isCCW);
      AddLineSegments(pts);
    }

    /** The centroid of the area, or of the segments if there is no area, or of the points if no length either. */
    method GetCentroid() returns (found: bool, cent: Point)
      ensures found <==> areasum2 != 0.0 || totalLength > 0.0 || ptCount > 0
      ensures areasum2 != 0.0 ==> Times(3.0 * areasum2, cent) == cg3
      ensures areasum2 == 0.0 && totalLength > 0.0 ==> Times(totalLength, cent) == lineCentSum
      ensures areasum2 == 0.0 && totalLength <= 0.0 && ptCount > 0 ==> Times(ptCount as real, cent) == ptCentSum
    {
      found, cent := true, Point(0.0, 0.0);
      if areasum2 != 0.0 {
        cent := Point(cg3.x / 3.0 / areasum2, cg3.y / 3.0 / areasum2);
        Quotient(cg3.x, areasum2);
        Quotient(cg3.y, areasum2);
      } else if totalLength > 0.0 {
        cent := Point(lineCentSum.x / totalLength, lineCentSum.y / totalLength);
        Divided(lineCentSum.x, totalLength);
        Divided(lineCentSum.y, totalLength);
      } else if ptCount > 0 {
        cent := Point(ptCentSum.x / ptCount as real, ptCentSum.y / ptCount as real);
        Divided(ptCentSum.x, ptCount as real);
        Divided(ptCentSum.y, ptCount as real);
      } else {
        found := false;
      }
    }
  }

  // ---- A triangle

  lemma Spread(u: real, v: real, w: real, a: real, b: real, c: real)
    requires v * a + u * c + w * b == 0.0
    ensures u * (a + b) + v * (b + c) + w * (c + a) == (u + v + w) * (a + b + c)
  {
  }

  lemma TriangleTerms(a: Point, b: Point, c: Point)
    ensures var u, v, w := Runs.EdgeTerm(a, b), Runs.EdgeTerm(b, c), Runs.EdgeTerm(c, a);
      && u * (a.x + b.x) + v * (b.x + c.x) + w * (c.x + a.x) == (u + v + w) * (a.x + b.x + c.x)
      && u * (a.y + b.y) + v * (b.y + c.y) + w * (c.y + a.y) == (u + v + w) * (a.y + b.y + c.y)
  {
    var u, v, w := Runs.EdgeTerm(a, b), Runs.EdgeTerm(b, c), Runs.EdgeTerm(c, a);
    Weighted(a, b, c);
    assert Runs.EdgeTerm(a, c) == -w;
    hide Runs.EdgeTerm;
    Spread(u, v, w, a.x, b.x, c.x);
    Spread(u, v, w, a.y, b.y, c.y);
  }

  lemma TriangleSum(a: Point, b: Point, c: Point)
    ensures Runs.PathSum([a, b, c, a]) == Runs.EdgeTerm(a, b) + Runs.EdgeTerm(b, c) + Runs.EdgeTerm(c, a)
  {
    hide Runs.EdgeTerm;
    assert [a, b, c, a][1..] == [b, c, a] && [b, c, a][1..] == [c, a] && [c, a][1..] == [a];
    assert Runs.PathSum([c, a]) == Runs.EdgeTerm(c, a) + Runs.PathSum([a]);
  }

  // The moment of a triangle ring is its area sum times the sum of its corners.
  lemma TriangleMoment(a: Point, b: Point, c: Point)
    ensures var ring := [a, b, c, a];
      && PathMoment(ring, 3).x == Runs.PathSum(ring) * (a.x + b.x + c.x)
      && PathMoment(ring, 3).y == Runs.PathSum(ring) * (a.y + b.y + c.y)
  {
    TriangleTerms(a, b, c);
    TriangleSum(a, b, c);
    TriangleParts(a, b, c);
    MomentIs(a, b);
    MomentIs(b, c);
    MomentIs(c, a);
    hide *;
  }

  lemma TriangleParts(a: Point, b: Point, c: Point)
    ensures PathMoment([a, b, c, a], 3).x == Moment(a, b).x + Moment(b, c).x + Moment(c, a).x
    ensures PathMoment([a, b, c, a], 3).y == Moment(a, b).y + Moment(b, c).y + Moment(c, a).y
  {
    hide Moment;
    var ring := [a, b, c, a];
    assert PathMoment(ring, 1) == Plus(PathMoment(ring, 0), Moment(a, b));
  }

  lemma MomentIs(p: Point, q: Point)
    ensures Moment(p, q).x == Runs.EdgeTerm(p, q) * (p.x + q.x) && Moment(p, q).y == Runs.EdgeTerm(p, q) * (p.y + q.y)
  {
  }

  function Corners(a: Point, b: Point, c: Point): Point {
    Point(a.x + b.x + c.x, a.y + b.y + c.y)
  }

  lemma MomentOfCorners(a: Point, b: Point, c: Point)
    ensures PathMoment([a, b, c, a], 3) == Times(Runs.PathSum([a, b, c, a]), Corners(a, b, c))
  {
    TriangleMoment(a, b, c);
    hide PathMoment;
    hide Runs.PathSum;
  }

  // The moment as it is added up for a shell, which is turned as the area sum is.
  lemma Turned(isCCW: bool, s: real, m: Point, t: Point, sum: real, cg3: Point)
    requires m == Times(s, t) && sum == if isCCW then -s else s
    requires cg3 == if isCCW then Minus(Point(0.0, 0.0), m) else Plus(Point(0.0, 0.0), m)
    ensures cg3 == Times(sum, t)
  {
  }

  lemma Cancel(sum: real, x: real, total: real)
    requires 3.0 * sum * x == sum * total && sum != 0.0
    ensures 3.0 * x == total
  {
    assert sum * (3.0 * x - total) == 0.0;
  }

  lemma CancelPoint(sum: real, p: Point, t: Point)
    requires Times(3.0 * sum, p) == Times(sum, t) && sum != 0.0
    ensures 3.0 * p.x == t.x && 3.0 * p.y == t.y
  {
    Cancel(sum, p.x, t.x);
    Cancel(sum, p.y, t.y);
  }

  /** The centroid of a triangle, read in either direction, is the mean of its three corners. */
  lemma TriangleCentroid(a: Point, b: Point, c: Point, isCCW: bool, areasum2: real, cg3: Point, cent: Point)
    requires var ring := [a, b, c, a];
      && areasum2 == (if isCCW then 2.0 * RingArea(ring) else -2.0 * RingArea(ring)) && areasum2 != 0.0
      && cg3 == (if isCCW then Minus(Point(0.0, 0.0), PathMoment(ring, 3))
                 else Plus(Point(0.0, 0.0), PathMoment(ring, 3)))
    requires Times(3.0 * areasum2, cent) == cg3
    ensures 3.0 * cent.x == a.x + b.x + c.x && 3.0 * cent.y == a.y + b.y + c.y
  {
    hide *;
    var ring := [a, b, c, a];
    AreaOfClosed(ring);
    MomentOfCorners(a, b, c);
    Turned(isCCW, Runs.PathSum(ring), PathMoment(ring, 3), Corners(a, b, c), areasum2, cg3);
    CancelPoint(areasum2, cent, Corners(a, b, c));
    CornersAre(a, b, c);
  }

  lemma CornersAre(a: Point, b: Point, c: Point)
    ensures Corners(a, b, c).x == a.x + b.x + c.x && Corners(a, b, c).y == a.y + b.y + c.y
  {
  }

  lemma ClosedHasPoints(pts: seq<Point>)
    requires ClosedPath(pts)
    ensures pts != []
  {
  }

  lemma Divided(x: real, a: real)
    requires a != 0.0
    ensures a * (x / a) == x
  {
  }

  lemma Quotient(x: real, a: real)
    requires a != 0.0
    ensures 3.0 * a * (x / 3.0 / a) == x
  {
  }

  lemma TwiceArea(s: real, path: real, area: real)
    requires 2.0 * area == -path
    ensures s * path == -(2.0 * s * area)
  {
  }

  lemma NothingAdded(s: real, base: Point, pts: seq<Point>, area: real, moment: Point)
    ensures area == area + s * TriangleAreas(base, pts, 0)
    ensures moment == Plus(moment, Times(s, TriangleMoments(base, pts, 0)))
  {
  }

  // One more triangle in the sums.
  lemma AddedNext(s: real, base: Point, pts: seq<Point>, i: nat, area: real, moment: Point)
    requires i + 1 < |pts|
    ensures var a := Area2(base, pts[i], pts[i + 1]);
      area + s * TriangleAreas(base, pts, i + 1) == area + s * TriangleAreas(base, pts, i) + s * a
    ensures var t := Moment3(base, pts[i], pts[i + 1]);
      Plus(moment, Times(s, TriangleMoments(base, pts, i + 1)))
        == Plus(Plus(moment, Times(s, TriangleMoments(base, pts, i))), Times(s, t))
  {
    hide Moment3;
    hide Area2;
    var t, m := Moment3(base, pts[i], pts[i + 1]), TriangleMoments(base, pts, i);
    Distributes(s, TriangleAreas(base, pts, i), Area2(base, pts[i], pts[i + 1]));
    assert TriangleMoments(base, pts, i + 1) == Plus(m, t);
    TimesPlus(s, m, t, moment);
    hide *;
  }

  lemma TimesPlus(s: real, m: Point, t: Point, c: Point)
    ensures Plus(c, Times(s, Plus(m, t))) == Plus(Plus(c, Times(s, m)), Times(s, t))
  {
    Distributes(s, m.x, t.x);
    Distributes(s, m.y, t.y);
  }
}
