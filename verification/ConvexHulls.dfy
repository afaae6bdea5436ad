/**
 The convex hull of a list of coordinates: few points, reduction, sort, scan and cleaning
 together, and exactly when the result is the hull.
 */
module ConvexHulls {
  import opened Planar
  import opened Pasch
  import opened PolarOrder
  import opened GrahamScans
  import opened HullRings
  import opened HullCorners
  import opened HullReductions

  const TUNING_REDUCE_SIZE := 50

  datatype Hull = NoPoints | SinglePoint(p: Point) | Segment(a: Point, b: Point) | Polygon(ring: seq<Point>)

  ghost predicate RightOfSteps(pts: seq<Point>, ring: seq<Point>) {
    forall k :: 0 <= k < |ring| - 1 ==> StepAllRight(pts, ring, k)
  }

  ghost predicate StepAllRight(pts: seq<Point>, ring: seq<Point>, k: nat) {
    k + 1 < |ring| && AllRight(pts, ring[k], ring[k + 1])
  }

  // h is the convex hull of the points: its corners are among them and it holds them all.
  ghost predicate HullOf(pts: seq<Point>, h: Hull) {
    match h
    case NoPoints => pts == []
    case SinglePoint(p) => p in pts && forall q :: q in pts ==> q == p
    case Segment(a, b) => a != b && a in pts && b in pts && forall q :: q in pts ==> OnSegment(q, a, b)
    case Polygon(ring) =>
      && StrictlyConvex(ring) && NoDuplicates(ring[..|ring| - 1])
      && (forall q :: q in ring ==> q in pts) && RightOfSteps(pts, ring)
  }

  // ---- Few points

  datatype Limit = NoLimit | AtMost(n: nat)

  /** Collect the different points in order, stopping when there are more than the limit. */
  method ExtractUnique(input: seq<Point>, maxUnique: Limit) returns (pts: seq<Point>, isDone: bool)
    ensures NoDuplicates(pts) && forall p :: p in pts ==> p in input
    ensures !isDone ==> forall p :: p in input ==> p in pts
    ensures isDone <==> maxUnique.AtMost? && |pts| > maxUnique.n
  {
    pts, isDone := [], false;
    for i := 0 to |input|
      invariant NoDuplicates(pts) && !isDone
      invariant forall p :: p in pts <==> p in input[..i]
      invariant maxUnique.AtMost? ==> |pts| <= maxUnique.n
    {
      assert input[..i + 1] == input[..i] + [input[i]];
      if input[i] !in pts {
        pts := pts + [input[i]];
      }
      if maxUnique.AtMost? && |pts| > maxUnique.n {
        return pts, true;
      }
    }
    assert input[..|input|] == input;
  }

  /** At most two different points: the hull is empty, a point or a segment. */
  method CreateFewPointsResult(input: seq<Point>) returns (found: bool, h: Hull)
    ensures found ==> HullOf(input, h) && SafeRepeats(input)
    ensures !found ==> exists p, q, r :: ThreeOf(input, p, q, r)
  {
    h := NoPoints;
    var uniquePts, ok := ExtractUnique(input, AtMost(2));
    if ok {
      assert ThreeOf(input, uniquePts[0], uniquePts[1], uniquePts[2]);
      return false, h;
    }
    found := true;
    if |uniquePts| == 0 {
      NoneLeft(input, uniquePts);
    } else if |uniquePts| == 1 {
      h := SinglePoint(uniquePts[0]);
      FewAreSafe(input, uniquePts[0], uniquePts[0]);
    } else {
      h := Segment(uniquePts[0], uniquePts[1]);
      EndsOnSegment(uniquePts[0], uniquePts[1]);
      FewAreSafe(input, uniquePts[0], uniquePts[1]);
    }
  }

  ghost predicate ThreeOf(pts: seq<Point>, p: Point, q: Point, r: Point) {
    p in pts && q in pts && r in pts && p != q && q != r && p != r
  }

  // ---- When repeated points are harmless

  // Seen from o, the point q occurs twice among pts and is a left turn from u to w.
  ghost predicate LeftAtRepeat(pts: seq<Point>, o: Point, u: Point, q: Point, w: Point) {
    && o in pts && AllAbove(o, pts)
    && u in pts && w in pts && multiset(pts)[q] >= 2
    && PolarCompare(o, u, q) <= 0 && PolarCompare(o, q, w) <= 0
    && Cross(u, q, w) > 0.0
  }

  // No repeated point is a left turn on the way around the lowest point.
  ghost predicate SafeRepeats(pts: seq<Point>) {
    forall o, u, q, w :: !LeftAtRepeat(pts, o, u, q, w)
  }

  lemma FewAreSafe(pts: seq<Point>, a: Point, b: Point)
    requires forall p :: p in pts ==> p == a || p == b
    ensures SafeRepeats(pts)
  {
    forall o, u, q, w ensures !LeftAtRepeat(pts, o, u, q, w) {
      if u in pts && w in pts && q in multiset(pts) {
        assert q in pts;
        OfTwo(a, b, u, q, w);
      }
    }
  }

  lemma OfTwo(a: Point, b: Point, u: Point, q: Point, w: Point)
    requires (u == a || u == b) && (q == a || q == b) && (w == a || w == b)
    ensures Cross(u, q, w) == 0.0
  {
    CrossSame(a, b);
    CrossSame(b, a);
    CrossSame(a, a);
    CrossSame(b, b);
    hide Cross;
  }

  lemma NoneLeft(pts: seq<Point>, unique: seq<Point>)
    requires forall p :: p in pts ==> p in unique
    ensures pts != [] ==> unique != []
  {
    if pts != [] { assert pts[0] in unique; }
  }

  // Two equal entries at different places.
  lemma CountOfTwo(s: seq<Point>, i: nat, j: nat)
    requires i < j < |s| && s[i] == s[j]
    ensures multiset(s)[s[i]] >= 2
  {
    var a, b := s[..j], s[j..];
    assert s == a + b;
    assert a[i] in multiset(a) && b[0] in multiset(b);
  }

  lemma {:induction false} PlacesOfTwo(s: seq<Point>, q: Point) returns (i: nat, j: nat)
    requires multiset(s)[q] >= 2
    ensures i < j < |s| && s[i] == q == s[j]
  {
    var n := |s| - 1;
    assert s != [];
    assert s == s[..n] + [s[n]];
    if s[n] == q {
      assert multiset(s[..n])[q] >= 1;
      assert q in multiset(s[..n]);
      i :| 0 <= i < n && s[..n][i] == q;
      j := n;
    } else {
      i, j := PlacesOfTwo(s[..n], q);
    }
  }

  // The sorted points begin with the only point all others are above of.
  lemma FirstIsLowest(c: seq<Point>, o: Point)
    requires ScanInput(c) && o in c && AllAbove(o, c)
    ensures o == c[0]
  {
    assert c[0] in c;
    assert Above(o, c[0]) && Above(c[0], o);
  }

  // An earlier point of the order is at an earlier place.
  lemma OrderIsPlace(c: seq<Point>, i: nat, k: nat)
    requires ScanInput(c) && i < |c| && k < |c| && c[i] != c[k]
    requires PolarCompare(c[0], c[i], c[k]) <= 0
    ensures i < k
  {
    if k < i {
      assert c[i] in c && c[k] in c;
      assert PolarCompare(c[0], c[k], c[i]) <= 0;
      PolarCompareMeans(c[0], c[i], c[k]);
      hide PolarCompare;
      assert false;
    }
  }

  /** On sorted points the condition is the one the scan needs. */
  lemma SafeIsTurnRight(pts: seq<Point>, c: seq<Point>)
    requires ScanInput(c) && multiset(c) == multiset(pts)
    ensures SafeRepeats(pts) <==> RepeatsTurnRight(c)
  {
    SameElements(c, pts);
    if RepeatsTurnRight(c) {
      forall o, u, q, w ensures !LeftAtRepeat(pts, o, u, q, w) {
        if LeftAtRepeat(pts, o, u, q, w) { NoLeftAtRepeat(pts, c, o, u, q, w); }
      }
    }
    if SafeRepeats(pts) {
      forall i, k, j | 0 <= i < k < j < |c| && Repeated(c, k) ensures NoLeftTurn(c, i, k, j) {
        CountOfTwo(c, k, k + 1);
        SortedOrder(c, i, k);
        SortedOrder(c, k, j);
        assert !LeftAtRepeat(pts, c[0], c[i], c[k], c[j]);
      }
    }
  }

  lemma SortedOrder(c: seq<Point>, i: nat, j: nat)
    requires ScanInput(c) && i < j < |c|
    ensures PolarCompare(c[0], c[i], c[j]) <= 0 && c[0] in c && c[i] in c && c[j] in c && AllAbove(c[0], c)
  {
  }

  lemma NoLeftAtRepeat(pts: seq<Point>, c: seq<Point>, o: Point, u: Point, q: Point, w: Point)
    requires ScanInput(c) && multiset(c) == multiset(pts) && RepeatsTurnRight(c)
    requires o in c && AllAbove(o, c) && u in c && w in c && multiset(pts)[q] >= 2
    requires PolarCompare(o, u, q) <= 0 && PolarCompare(o, q, w) <= 0
    ensures Cross(u, q, w) <= 0.0
  {
    FirstIsLowest(c, o);
    var k, l := PlacesOfTwo(c, q);
    var i :| 0 <= i < |c| && c[i] == u;
    var j :| 0 <= j < |c| && c[j] == w;
    EqualsAdjacent(c, k, l);
    CrossSame(q, w);
    CrossSame(q, u);
    hide PolarCompare;
    hide Cross;
    if u != q && w != q {
      OrderIsPlace(c, i, k);
      OrderIsPlace(c, k, j);
      assert NoLeftTurn(c, i, k, j);
    }
  }

  // ---- From the ring to the hull

  lemma StepsAreAlong(c: seq<Point>, v: seq<Point>)
    ensures RightOfSteps(c, v) <==> AlongRight(c, v)
  {
    forall k | 0 <= k < |v| - 1 ensures StepAllRight(c, v, k) <==> StepRight(c, v, k) {
      RightOfAll(c, v[k], v[k + 1]);
    }
  }

  lemma RightOfAll(c: seq<Point>, a: Point, b: Point)
    ensures AllRight(c, a, b) <==> RightOf(c, |c|, a, b)
  {
  }

  // A segment that holds all points has them on the right in both directions.
  lemma SegmentIsRight(c: seq<Point>, a: Point, b: Point)
    requires forall p :: p in c ==> OnSegment(p, a, b)
    ensures AlongRight(c, [a, b, a])
  {
    var v := [a, b, a];
    forall p | p in c ensures Cross(a, b, p) == 0.0 && Cross(b, a, p) == 0.0 { CrossCyclic(a, b, p); }
    hide Cross;
    assert StepRight(c, v, 0) && StepRight(c, v, 1);
  }

  /** The cleaned ring is the hull exactly when it has all points on its right. */
  method LineOrPolygon(input: seq<Point>, ghost c: seq<Point>) returns (h: Hull)
    requires ScanInput(c) && c[0] != c[|c| - 1] && RingOf(c, input)
    ensures HullOf(c, h) <==> RingRight(c, input)
    ensures CornersIn(c, h)
  {
    RingOfCloses(c, input);
    var cleaned := CleanRing(input, c);
    ghost var kept :| Cleaned(c, input, |input| - 1, kept, cleaned);
    CleanedSize(c, input, kept, cleaned);
    if |cleaned| == 3 {
      h := Segment(cleaned[0], cleaned[1]);
      SegmentCase(c, input, kept, cleaned);
    } else {
      h := Polygon(cleaned);
      PolygonCase(c, input, kept, cleaned);
    }
  }

  lemma RingOfCloses(c: seq<Point>, ring: seq<Point>)
    requires RingOf(c, ring)
    ensures ring != [] && ring[0] == ring[|ring| - 1]
  {
    var s :| ClosesChain(c, ring, s);
  }

  lemma VisitedAreIn(c: seq<Point>, w: seq<nat>, v: seq<Point>)
    requires VisitsInOrder(c, w, v)
    ensures forall q :: q in v ==> q in c
  {
    forall q | q in v ensures q in c {
      var k :| 0 <= k < |v| && v[k] == q;
      if k < |w| { assert c[w[k]] in c; } else { assert c[0] in c; }
    }
  }

  // h is a segment or a polygon with corners among the points.
  ghost predicate CornersIn(c: seq<Point>, h: Hull) {
    match h
    case Segment(a, b) => a in c && b in c
    case Polygon(ring) => forall q :: q in ring ==> q in c
    case _ => false
  }

  lemma SegmentCase(c: seq<Point>, original: seq<Point>, kept: seq<nat>, v: seq<Point>)
    requires ScanInput(c) && c[0] != c[|c| - 1] && RingOf(c, original)
    requires Cleaned(c, original, |original| - 1, kept, v) && |v| == 3
    ensures HullOf(c, Segment(v[0], v[1])) <==> RingRight(c, original)
    ensures v[0] in c && v[1] in c
  {
    CleanedSize(c, original, kept, v);
    var w :| VisitsInOrder(c, w, v);
    VisitedAreIn(c, w, v);
    assert v[0] in c && v[1] in c;
    assert v[0] != v[1] by { assert TidyAt(v, 0); }
    hide *;
    if AlongRight(c, v) {
      forall q | q in c ensures OnSegment(q, v[0], v[1]) {
        var j :| 0 <= j < |c| && c[j] == q;
        AllOnSegment(c, original, kept, v, j);
      }
    }
    if forall q :: q in c ==> OnSegment(q, v[0], v[1]) {
      SegmentIsRight(c, v[0], v[1]);
      assert v == [v[0], v[1], v[0]];
    }
    SegmentHull(c, v[0], v[1]);
  }

  lemma SegmentHull(c: seq<Point>, a: Point, b: Point)
    ensures HullOf(c, Segment(a, b)) <==> a != b && a in c && b in c && forall q :: q in c ==> OnSegment(q, a, b)
  {
  }

  // No vertex of a tidy ring comes back before the ring closes.
  lemma VisitedOnce(c: seq<Point>, w: seq<nat>, v: seq<Point>)
    requires ScanInput(c) && VisitsInOrder(c, w, v) && Tidy(v)
    ensures NoDuplicates(v[..|v| - 1])
  {
    hide IsBetween;
    forall t, u | 0 <= t < u < |w| ensures v[t] != v[u] {
      assert TidyAt(v, t);
      if t + 1 < u { LaterDiffers(c, w[t], w[t + 1], w[u]); }
    }
  }

  lemma PolygonCase(c: seq<Point>, original: seq<Point>, kept: seq<nat>, v: seq<Point>)
    requires ScanInput(c) && c[0] != c[|c| - 1] && RingOf(c, original)
    requires Cleaned(c, original, |original| - 1, kept, v) && |v| > 3
    ensures HullOf(c, Polygon(v)) <==> RingRight(c, original)
    ensures forall q :: q in v ==> q in c
  {
    CleanedSize(c, original, kept, v);
    StepsAreAlong(c, v);
    var w :| VisitsInOrder(c, w, v);
    VisitedAreIn(c, w, v);
    VisitedOnce(c, w, v);
    if AlongRight(c, v) {
      CleanedIsConvex(c, original, kept, v);
    }
    hide AlongRight;
    hide StrictlyConvex;
    hide RightOfSteps;
    hide NoDuplicates;
  }

  // ---- From the scanned points to all points

  lemma SquareSign(x: real, u: real)
    requires u == x * x
    ensures u >= 0.0 && (x != 0.0 ==> u > 0.0)
  {
    if x != 0.0 { SameSignProduct(x, x, u); }
  }

  lemma SameSignProduct(u: real, v: real, p: real)
    requires p == u * v && ((u > 0.0 && v > 0.0) || (u < 0.0 && v < 0.0))
    ensures p > 0.0
  {
  }

  // The squared length of a step that moves; the squares have names of their own.
  lemma LengthPositive(x: real, y: real, u: real, v: real)
    requires x != 0.0 || y != 0.0
    requires u == x * x && v == y * y
    ensures u + v > 0.0
  {
    SquareSign(x, u);
    SquareSign(y, v);
  }

  function Ahead(a: Point, b: Point): Point {
    Point(a.x - (b.y - a.y), a.y + (b.x - a.x))
  }

  lemma CrossAhead(a: Point, b: Point, t: real, dx: real, dy: real)
    requires dx == b.x - a.x && dy == b.y - a.y
    ensures Cross(a, Ahead(a, b), Along(a, b, t)) == -t * (dx * dx + dy * dy)
  {
    assert Cross(a, Ahead(a, b), Along(a, b, t)) == (-dy) * (t * dy - dx) - dx * (t * dx + dy);
  }

  // A closed segment is where four half-planes meet.
  lemma SegmentByHalfPlanes(a: Point, b: Point, x: Point)
    requires a != b
    ensures OnSegment(x, a, b) <==>
      Cross(a, b, x) <= 0.0 && Cross(b, a, x) <= 0.0 && Cross(a, Ahead(a, b), x) <= 0.0 &&
        Cross(b, Ahead(b, a), x) <= 0.0
  {
    CrossCyclic(a, b, x);
    if Cross(a, b, x) == 0.0 {
      var t := LineFraction(a, b, x);
      AlongFromOther(a, b, t);
      EndHalfPlanes(a, b, x, t, b.x - a.x, b.y - a.y);
      hide *;
    }
  }

  lemma EndHalfPlanes(a: Point, b: Point, x: Point, t: real, dx: real, dy: real)
    requires a != b && x == Along(a, b, t) == Along(b, a, 1.0 - t) && dx == b.x - a.x && dy == b.y - a.y
    ensures OnSegment(x, a, b) <==> Cross(a, Ahead(a, b), x) <= 0.0 && Cross(b, Ahead(b, a), x) <= 0.0
  {
    var u, v := dx * dx, dy * dy;
    LengthPositive(dx, dy, u, v);
    CrossAhead(a, b, t, dx, dy);
    CrossAhead(b, a, 1.0 - t, -dx, -dy);
    SegmentSides(a, b, x, t, u + v);
    hide *;
  }

  lemma AlongFromOther(a: Point, b: Point, t: real)
    ensures Along(a, b, t) == Along(b, a, 1.0 - t)
  {
  }

  lemma SegmentSides(a: Point, b: Point, x: Point, t: real, d: real)
    requires a != b && x == Along(a, b, t) && d > 0.0
    ensures OnSegment(x, a, b) <==> -t * d <= 0.0 && -(1.0 - t) * d <= 0.0
  {
    if 0.0 <= t <= 1.0 {
      AlongOnSegment(a, b, t);
      MulNonNeg(t, d);
      MulNonNeg(1.0 - t, d);
    } else {
      assert t < 0.0 ==> -t * d > 0.0 by { if t < 0.0 { MulPos(-t, d); } }
      assert t > 1.0 ==> -(1.0 - t) * d > 0.0 by { if t > 1.0 { MulPos(t - 1.0, d); } }
      if OnSegment(x, a, b) {
        var u := SegmentFraction(x, a, b);
        AlongUnique(a, b, t, u);
        assert false;
      }
    }
  }

  lemma AlongUnique(a: Point, b: Point, t: real, u: real)
    requires a != b && Along(a, b, t) == Along(a, b, u)
    ensures t == u
  {
    if a.x != b.x { CancelFactor(a.x, t, u, b.x - a.x); } else { CancelFactor(a.y, t, u, b.y - a.y); }
  }

  lemma CancelFactor(lo: real, t: real, u: real, d: real)
    requires d != 0.0 && lo + t * d == lo + u * d
    ensures t == u
  {
    assert (t - u) * d == 0.0 && (u - t) * d == 0.0;
    if t > u { NonZeroProduct(t - u, d); } else if t < u { NonZeroProduct(u - t, d); }
  }

  // The scanned points stand for all input points: same half-planes.
  ghost predicate StandsFor(input: seq<Point>, c: seq<Point>) {
    (forall p :: p in c ==> p in input) && forall a, b :: AllRight(c, a, b) ==> AllRight(input, a, b)
  }

  lemma SegmentsAgree(input: seq<Point>, c: seq<Point>, a: Point, b: Point)
    requires StandsFor(input, c) && a != b && forall q :: q in c ==> OnSegment(q, a, b)
    ensures forall q :: q in input ==> OnSegment(q, a, b)
  {
    var e, f := Ahead(a, b), Ahead(b, a);
    forall q | q in c
      ensures Cross(a, b, q) <= 0.0 && Cross(b, a, q) <= 0.0 && Cross(a, e, q) <= 0.0 && Cross(b, f, q) <= 0.0
    {
      SegmentByHalfPlanes(a, b, q);
    }
    hide Cross;
    hide OnSegment;
    assert AllRight(c, a, b) && AllRight(c, b, a) && AllRight(c, a, e) && AllRight(c, b, f);
    assert AllRight(input, a, b) && AllRight(input, b, a) && AllRight(input, a, e) && AllRight(input, b, f);
    forall q | q in input ensures OnSegment(q, a, b) {
      SegmentByHalfPlanes(a, b, q);
    }
  }

  /** The hull of the scanned points is the hull of all points. */
  lemma HullsAgree(input: seq<Point>, c: seq<Point>, h: Hull)
    requires StandsFor(input, c) && CornersIn(c, h)
    ensures HullOf(input, h) <==> HullOf(c, h)
  {
    hide OnSegment;
    hide StrictlyConvex;
    match h
    case Segment(a, b) =>
      if HullOf(c, h) { SegmentsAgree(input, c, a, b); }
    case Polygon(ring) =>
      forall k | 0 <= k < |ring| - 1 ensures StepAllRight(input, ring, k) <==> StepAllRight(c, ring, k) {
        assert AllRight(c, ring[k], ring[k + 1]) ==> AllRight(input, ring[k], ring[k + 1]);
        assert AllRight(input, ring[k], ring[k + 1]) ==> AllRight(c, ring[k], ring[k + 1]);
      }
  }

  // ---- The whole computation

  // When the computed hull is right.
  ghost predicate Safe(input: seq<Point>) {
    |input| <= TUNING_REDUCE_SIZE || HasInnerRing(input) || SafeRepeats(input)
  }

  /** Up to fifty coordinates are always safe, however often they repeat; with more it is as the octagon says. */
  lemma FiftyAreSafe(input: seq<Point>)
    ensures |input| <= 50 ==> Safe(input)
    ensures |input| > 50 ==> (Safe(input) <==> HasInnerRing(input) || SafeRepeats(input))
  {
  }

  // Different points, or at most three of them, or the untouched input.
  ghost predicate ScanReady(input: seq<Point>, r: seq<Point>) {
    && |r| >= 3 && StandsFor(input, r)
    && (exists i, j :: 0 <= i < j < |r| && r[i] != r[j])
    && (if |input| <= TUNING_REDUCE_SIZE || HasInnerRing(input) then NoDuplicates(r) || |r| == 3 else r == input)
  }

  /** The points to scan: the different points of a small input, or the reduced ones of a large one. */
  method ScanPoints(input: seq<Point>) returns (inputPts: seq<Point>)
    requires exists p, q, r :: ThreeOf(input, p, q, r)
    ensures ScanReady(input, inputPts)
  {
    if |input| > TUNING_REDUCE_SIZE {
      inputPts := Reduce(input);
      ReducedReady(input, inputPts);
    } else {
      var isDone;
      inputPts, isDone := ExtractUnique(input, NoLimit);
      UniqueReady(input, inputPts);
    }
  }

  lemma ReducedReady(input: seq<Point>, r: seq<Point>)
    requires |input| > TUNING_REDUCE_SIZE && exists p, q, s :: ThreeOf(input, p, q, s)
    requires if HasInnerRing(input) then ReducedTo(input, r) else r == input
    ensures ScanReady(input, r)
  {
    if HasInnerRing(input) {
      forall a, b | AllRight(r, a, b) ensures AllRight(input, a, b) {
        ReducedKeepsSides(input, r, a, b);
      }
      ReducedStaysWide(input, r);
    } else {
      var p, q, s :| ThreeOf(input, p, q, s);
      TwoDiffer(input, p, q);
    }
    hide AllRight;
  }

  lemma UniqueReady(input: seq<Point>, r: seq<Point>)
    requires |input| <= TUNING_REDUCE_SIZE && exists p, q, s :: ThreeOf(input, p, q, s)
    requires NoDuplicates(r) && forall p :: p in r <==> p in input
    ensures ScanReady(input, r)
  {
    var p, q, s :| ThreeOf(input, p, q, s);
    TwoDiffer(r, p, q);
    var i :| 0 <= i < |r| && r[i] == p;
    var j :| 0 <= j < |r| && r[j] == q;
    var k :| 0 <= k < |r| && r[k] == s;
    forall a, b | AllRight(r, a, b) ensures AllRight(input, a, b) { }
  }

  lemma ScansSafely(input: seq<Point>, r: seq<Point>, c: seq<Point>)
    requires ScanReady(input, r) && multiset(c) == multiset(r) && RadiallySorted(c)
    ensures ScanInput(c) && c[0] != c[|c| - 1] && StandsFor(input, c)
    ensures RepeatsTurnRight(c) <==> Safe(input)
  {
    SameElements(c, r);
    assert ScanInput(c);
    var i, j :| 0 <= i < j < |r| && r[i] != r[j];
    assert r[i] in c && r[j] in c;
    EndsDiffer(c, r[i], r[j]);
    SameSides(input, r, c);
    if |input| <= TUNING_REDUCE_SIZE || HasInnerRing(input) {
      if NoDuplicates(r) { StaysUnique(r, c); }
      if |c| == 3 { TripleTurnsRight(c); }
    } else {
      SafeIsTurnRight(input, c);
    }
    hide *;
  }

  lemma SameSides(input: seq<Point>, r: seq<Point>, c: seq<Point>)
    requires StandsFor(input, r) && forall p :: p in c <==> p in r
    ensures StandsFor(input, c)
  {
    forall a, b | AllRight(c, a, b) ensures AllRight(input, a, b) {
      assert AllRight(r, a, b);
    }
  }

  lemma EndsDiffer(c: seq<Point>, p: Point, q: Point)
    requires ScanInput(c) && p in c && q in c && p != q
    ensures c[0] != c[|c| - 1]
  {
    var x := if p != c[0] then p else q;
    var i :| 0 <= i < |c| && c[i] == x;
    if i < |c| - 1 { LaterDiffers(c, 0, i, |c| - 1); }
  }

  // A permutation of different points has no repeats.
  lemma StaysUnique(r: seq<Point>, c: seq<Point>)
    requires NoDuplicates(r) && multiset(c) == multiset(r)
    ensures RepeatsTurnRight(c)
  {
    forall k | 0 <= k && Repeated(c, k) ensures false {
      CountOfTwo(c, k, k + 1);
      var i, j := PlacesOfTwo(r, c[k]);
    }
  }

  lemma TripleTurnsRight(c: seq<Point>)
    requires |c| == 3
    ensures RepeatsTurnRight(c)
  {
    if Repeated(c, 1) { CrossSame(c[1], c[0]); }
  }

  /** The hull of the input: it is right exactly for safe input. */
  method GetConvexHull(input: seq<Point>) returns (h: Hull)
    ensures HullOf(input, h) <==> Safe(input)
    ensures |input| <= 50 ==> HullOf(input, h)
  {
    FiftyAreSafe(input);
    var found, few := CreateFewPointsResult(input);
    if found { return few; }
    var inputPts := ScanPoints(input);
    var pts := new Point[|inputPts|](i requires 0 <= i < |inputPts| => inputPts[i]);
    assert pts[..] == inputPts;
    PreSort(pts);
    ghost var c := pts[..];
    ScansSafely(input, inputPts, c);
    var hullPts := GrahamScan(pts[..]);
    h := LineOrPolygon(hullPts, c);
    HullsAgree(input, c, h);
  }

  // ---- An input that is not safe

  // Three corners, and a point inside their triangle that occurs 48 times.
  function RepeatedInside(): seq<Point> {
    [Point(0.0, 30.0), Point(15.0, 0.0), Point(3.0, 21.0)] + seq(48, _ => Point(6.0, 17.0))
  }

  lemma OnlyLeast(pts: seq<Point>, k: nat, m: nat)
    requires m < |pts| && forall i :: 0 <= i < |pts| && i != m ==> Key(k, pts[m]) < Key(k, pts[i])
    ensures FirstLeast(pts, k) == m
  {
    hide Key;
  }

  /** The octagon of this input is given up although its points are on no line. */
  lemma NoInnerRing()
    ensures !HasInnerRing(RepeatedInside())
    ensures Cross(RepeatedInside()[0], RepeatedInside()[1], RepeatedInside()[2]) != 0.0
  {
    var pts := RepeatedInside();
    forall k | 0 <= k < 8 ensures FirstLeast(pts, k) == if k < 4 then 0 else 1 {
      OnlyLeast(pts, k, if k < 4 then 0 else 1);
    }
    UniqueOfTwo(Octagon(pts));
  }

  lemma InsideParts(pts: seq<Point>, o: Point, u: Point, q: Point, w: Point)
    requires pts == [w, o, u] + seq(48, _ => q)
    ensures |pts| == 51 && w in pts && o in pts && u in pts
    ensures pts[3] == q == pts[4]
    ensures forall p :: p in pts ==> p == w || p == o || p == u || p == q
  {
    assert pts[0] == w && pts[1] == o && pts[2] == u;
  }

  /** The computed hull of this input is wrong: the reduction gives up and the repeated point stays on the chain. */
  lemma RepeatedInsideIsUnsafe()
    ensures |RepeatedInside()| == 51 && !Safe(RepeatedInside())
  {
    var pts := RepeatedInside();
    var o, u, q, w := Point(15.0, 0.0), Point(3.0, 21.0), Point(6.0, 17.0), Point(0.0, 30.0);
    InsideParts(pts, o, u, q, w);
    assert Above(o, w) && Above(o, o) && Above(o, u) && Above(o, q);
    NoInnerRing();
    hide *;
    CountOfTwo(pts, 3, 4);
    InsideTurnsLeft(o, u, q, w);
    AllOfFourAbove(pts, o, u, q, w);
    LeftAtRepeatIs(pts, o, u, q, w);
    UnsafeBy(pts, o, u, q, w);
  }

  lemma AllOfFourAbove(pts: seq<Point>, o: Point, u: Point, q: Point, w: Point)
    requires Above(o, w) && Above(o, o) && Above(o, u) && Above(o, q)
    requires forall p :: p in pts ==> p == w || p == o || p == u || p == q
    ensures AllAbove(o, pts)
  {
  }

  lemma InsideTurnsLeft(o: Point, u: Point, q: Point, w: Point)
    requires o == Point(15.0, 0.0) && u == Point(3.0, 21.0) && q == Point(6.0, 17.0) && w == Point(0.0, 30.0)
    ensures PolarCompare(o, u, q) <= 0 && PolarCompare(o, q, w) <= 0 && Cross(u, q, w) > 0.0
  {
  }

  lemma LeftAtRepeatIs(pts: seq<Point>, o: Point, u: Point, q: Point, w: Point)
    requires o in pts && AllAbove(o, pts) && u in pts && w in pts && multiset(pts)[q] >= 2
    requires PolarCompare(o, u, q) <= 0 && PolarCompare(o, q, w) <= 0 && Cross(u, q, w) > 0.0
    ensures LeftAtRepeat(pts, o, u, q, w)
  {
  }

  lemma UnsafeBy(pts: seq<Point>, o: Point, u: Point, q: Point, w: Point)
    requires |pts| > TUNING_REDUCE_SIZE && !HasInnerRing(pts) && LeftAtRepeat(pts, o, u, q, w)
    ensures !Safe(pts)
  {
  }
}
