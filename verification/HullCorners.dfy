/**
 The shape of the cleaned ring: a segment holding every point, or a strictly convex polygon.
 */
module HullCorners {
  import opened Planar
  import opened Pasch
  import opened PolarOrder
  import opened GrahamScans
  import opened HullRings

  // The ring turns right at vertex k, counting from the closed end.
  predicate TurnsRightAt(ring: seq<Point>, k: nat)
    requires k + 1 < |ring|
  {
    Cross(if k == 0 then ring[|ring| - 2] else ring[k - 1], ring[k], ring[k + 1]) < 0.0
  }

  predicate StrictlyConvex(ring: seq<Point>) {
    |ring| >= 4 && ring[0] == ring[|ring| - 1] && forall k :: 0 <= k < |ring| - 1 ==> TurnsRightAt(ring, k)
  }

  // v visits the points of c at the indices w, from the first point on, and closes.
  ghost predicate VisitsInOrder(c: seq<Point>, w: seq<nat>, v: seq<Point>) {
    && |c| > 0 && |v| >= 2 && |w| + 1 == |v| && v[0] == c[0] && v[|w|] == c[0]
    && (forall t :: 0 <= t < |w| ==> w[t] < |c| && v[t] == c[w[t]])
    && forall t, u :: 0 <= t < u < |w| ==> w[t] < w[u]
  }

  lemma CleanedVisits(c: seq<Point>, original: seq<Point>, s: seq<nat>, kept: seq<nat>, v: seq<Point>)
    returns (w: seq<nat>)
    requires ClosesChain(c, original, s) && |v| >= 2
    requires Cleaned(c, original, |original| - 1, kept, v)
    ensures VisitsInOrder(c, w, v)
  {
    hide Tidy;
    hide AlongRight;
    hide OnSegment;
    w := seq(|kept|, t requires 0 <= t < |kept| => s[kept[t]]);
  }

  // A point met again later: everything between is that point.
  lemma LaterDiffers(c: seq<Point>, i: nat, j: nat, k: nat)
    requires ScanInput(c) && i <= j < k < |c| && c[i] != c[j]
    ensures c[i] != c[k]
  {
    if c[i] == c[k] { BetweenEquals(c, i, j, k); }
  }

  // Two points of one ray from the first point: the earlier one is between.
  lemma OnRayBetween(c: seq<Point>, i: nat, j: nat)
    requires ScanInput(c) && i < j < |c| && c[0] != c[i] && c[i] != c[j]
    requires Cross(c[0], c[i], c[j]) == 0.0
    ensures IsBetween(c[0], c[i], c[j])
  {
    var o := c[0];
    SortedPair(c, i, j);
    LaterDiffers(c, 0, i, j);
    OnwardTurns(o, c[i], c[j]);
    var t :| 0.0 <= t < 1.0 && c[i] == Along(o, c[j], t);
    AlongOnSegment(o, c[j], t);
    BetweenIsOnSegment(o, c[i], c[j]);
  }

  /** The first two kept vertices turn. */
  lemma FirstCorner(c: seq<Point>, w: seq<nat>, v: seq<Point>)
    requires ScanInput(c) && VisitsInOrder(c, w, v) && Tidy(v) && |v| >= 4
    ensures w[1] < |c| && w[2] < |c| && Cross(c[0], c[w[1]], c[w[2]]) < 0.0
  {
    assert TidyAt(v, 0) && TidyAt(v, 1);
    assert w[1] < w[2];
    SortedPair(c, w[1], w[2]);
    hide Cross;
    hide IsBetween;
    if Cross(c[0], c[w[1]], c[w[2]]) == 0.0 {
      OnRayBetween(c, w[1], w[2]);
      assert false;
    }
  }

  // Turning back along a line, with everything right of both steps, puts everything on the line.
  lemma Reversal(a: Point, b: Point, d: Point, x: Point)
    requires a != b && b != d && Cross(a, b, d) == 0.0 && !IsBetween(a, b, d)
    requires Cross(b, d, x) <= 0.0
    ensures Cross(a, b, x) >= 0.0
  {
    BetweenIsOnSegment(a, b, d);
    var u := LineFraction(a, b, d);
    assert Along(a, b, 1.0) == b && Along(a, b, 0.0) == a;
    if u >= 1.0 {
      BetweenAlong(a, b, 0.0, 1.0, u);
      assert a == d;
      DiffersAlong(a, b, u);
      assert false;
    } else {
      OnwardCross(a, b, u, x);
      hide *;
      SignOfFactor(1.0 - u, Cross(a, b, x));
    }
  }

  lemma OnwardCross(a: Point, b: Point, u: real, x: Point)
    ensures (1.0 - u) * Cross(a, b, x) == -Cross(b, Along(a, b, u), x)
  {
  }

  lemma ThreeOnLine(a: Point, b: Point, p: Point, q: Point, r: Point)
    requires a != b && Cross(a, b, p) == 0.0 && Cross(a, b, q) == 0.0 && Cross(a, b, r) == 0.0
    ensures Cross(p, q, r) == 0.0
  {
    var t := LineFraction(a, b, p);
    var u := LineFraction(a, b, q);
    var s := LineFraction(a, b, r);
    AlongCollinear(a, b, t, u, s);
  }

  /** At an inner vertex the ring turns strictly right. */
  lemma InnerCorner(c: seq<Point>, w: seq<nat>, v: seq<Point>, k: nat)
    requires ScanInput(c) && VisitsInOrder(c, w, v) && Tidy(v) && |v| >= 4 && AlongRight(c, v)
    requires 0 < k < |w|
    ensures Cross(v[k - 1], v[k], v[k + 1]) < 0.0
  {
    var a, b, d := v[k - 1], v[k], v[k + 1];
    FirstCorner(c, w, v);
    var e := if k + 1 < |w| then w[k + 1] else 0;
    assert d == c[e];
    assert StepRight(c, v, k - 1) && StepRight(c, v, k);
    assert TidyAt(v, k - 1) && TidyAt(v, k);
    assert Cross(a, b, c[e]) <= 0.0;
    if Cross(a, b, d) == 0.0 {
      OnReversedLine(c, a, b, d, 0);
      OnReversedLine(c, a, b, d, w[1]);
      OnReversedLine(c, a, b, d, w[2]);
      hide *;
      ThreeOnLine(a, b, c[0], c[w[1]], c[w[2]]);
      assert false;
    }
  }

  lemma OnReversedLine(c: seq<Point>, a: Point, b: Point, d: Point, j: nat)
    requires a != b && b != d && Cross(a, b, d) == 0.0 && !IsBetween(a, b, d)
    requires RightOf(c, |c|, a, b) && RightOf(c, |c|, b, d) && j < |c|
    ensures Cross(a, b, c[j]) == 0.0
  {
    hide Cross;
    hide IsBetween;
    Reversal(a, b, d, c[j]);
  }

  /** At the first vertex the ring turns strictly right. */
  lemma OuterCorner(c: seq<Point>, w: seq<nat>, v: seq<Point>)
    requires ScanInput(c) && VisitsInOrder(c, w, v) && Tidy(v) && |v| >= 4
    ensures Cross(v[|w| - 1], v[0], v[1]) < 0.0
  {
    var o, i, j, l := c[0], w[1], w[2], w[|w| - 1];
    FirstCorner(c, w, v);
    assert TidyAt(v, 0) && TidyAt(v, 1);
    assert i < l && (j < l || j == l);
    SortedPair(c, i, l);
    if j < l { LaterDiffers(c, i, j, l); }
    CrossCyclic(c[l], o, c[i]);
    if Cross(o, c[i], c[l]) == 0.0 && j < l {
      SortedPair(c, j, l);
      OnwardTurns(o, c[i], c[l]);
      var t := NearerMeans(o, c[i], c[l], c[j]);
      CrossCyclic(o, c[l], c[j]);
      MulNonNeg(t, Cross(o, c[l], c[j]));
      assert false;
    }
  }

  lemma PartOfPart(o: Point, f: Point, l: Point, x: Point, t: real, u: real)
    requires 0.0 <= t <= 1.0 && 0.0 <= u <= 1.0 && l == Along(f, o, t) && x == Along(o, l, u)
    ensures OnSegment(x, o, f)
  {
    PartOfRange(o.x, f.x, t, u);
    PartOfRange(o.y, f.y, t, u);
    AlongOnSegment(o, f, u * (1.0 - t));
  }

  lemma PartOfRange(o: real, f: real, t: real, u: real)
    requires 0.0 <= t <= 1.0 && 0.0 <= u <= 1.0
    ensures 0.0 <= u * (1.0 - t) <= 1.0
    ensures o + u * (f + t * (o - f) - o) == o + u * (1.0 - t) * (f - o)
  {
    MulNonNeg(u, 1.0 - t);
    MulNonNeg(1.0 - u, 1.0 - t);
    assert f + t * (o - f) - o == (1.0 - t) * (f - o);
  }

  /** Two kept vertices: they span all points. */
  lemma AllOnSegment(c: seq<Point>, original: seq<Point>, kept: seq<nat>, v: seq<Point>, j: nat)
    requires ScanInput(c) && RingOf(c, original) && Cleaned(c, original, |original| - 1, kept, v)
    requires |v| == 3 && AlongRight(c, v) && v[0] == v[2] && j < |c|
    ensures OnSegment(c[j], v[0], v[1])
  {
    var s :| ClosesChain(c, original, s);
    var o, f, n, x := c[0], v[1], |c| - 1, c[j];
    assert v[0] == o && original[|original| - 2] == c[n];
    assert TidyAt(v, 0);
    assert StepRight(c, v, 0) && StepRight(c, v, 1);
    if j < n { SortedPair(c, j, n); }
    CrossSame(o, f);
    CrossCyclic(o, f, x);
    CrossCyclic(o, f, c[n]);
    hide *;
    assert Cross(o, f, x) == 0.0 && Cross(o, f, c[n]) == 0.0 by { OnBothSides(c, o, f, j); OnBothSides(c, o, f, n); }
    ThreeOnLine(o, f, o, x, c[n]);
    var t := SegmentFraction(c[n], f, o);
    if x == c[n] {
      SegmentReversed(x, f, o);
    } else {
      OnwardTurns(o, x, c[n]);
      NearerOnPart(o, f, c[n], x, t);
    }
  }

  lemma OnBothSides(c: seq<Point>, a: Point, b: Point, j: nat)
    requires RightOf(c, |c|, a, b) && RightOf(c, |c|, b, a) && j < |c|
    ensures Cross(a, b, c[j]) == 0.0
  {
    CrossCyclic(a, b, c[j]);
    hide Cross;
  }

  lemma SegmentReversed(x: Point, a: Point, b: Point)
    requires OnSegment(x, a, b)
    ensures OnSegment(x, b, a)
  {
    CrossCyclic(a, b, x);
  }

  lemma NearerOnPart(o: Point, f: Point, l: Point, x: Point, t: real)
    requires 0.0 <= t <= 1.0 && l == Along(f, o, t) && Nearer(o, x, l)
    ensures OnSegment(x, o, f)
  {
    var u :| 0.0 <= u < 1.0 && x == Along(o, l, u);
    PartOfPart(o, f, l, x, t, u);
  }

  // The cleaned ring of a scan over two or more distinct points.
  lemma CleanedSize(c: seq<Point>, original: seq<Point>, kept: seq<nat>, v: seq<Point>)
    requires ScanInput(c) && c[0] != c[|c| - 1]
    requires RingOf(c, original) && Cleaned(c, original, |original| - 1, kept, v)
    ensures |v| >= 3 && v[0] == c[0] == v[|v| - 1]
    ensures AlongRight(c, v) <==> RingRight(c, original)
    ensures exists w :: VisitsInOrder(c, w, v)
  {
    var s :| ClosesChain(c, original, s);
    assert original[..|original|] == original;
    assert original[|s| - 1] == c[|c| - 1];
    assert TidyAt(v, |v| - 2);
    var w := CleanedVisits(c, original, s, kept, v);
    SameRight(c, original);
  }

  lemma SameRight(c: seq<Point>, ring: seq<Point>)
    ensures AlongRight(c, ring) <==> RingRight(c, ring)
  {
    forall t | 0 <= t < |ring| - 1 ensures StepRight(c, ring, t) <==> RingEdgeRight(c, ring, t) {
    }
  }

  /** A cleaned ring with all points on its right turns strictly at every vertex, unless it is a segment. */
  lemma CleanedIsConvex(c: seq<Point>, original: seq<Point>, kept: seq<nat>, v: seq<Point>)
    requires ScanInput(c) && c[0] != c[|c| - 1]
    requires RingOf(c, original) && Cleaned(c, original, |original| - 1, kept, v)
    requires AlongRight(c, v) && |v| > 3
    ensures StrictlyConvex(v)
  {
    CleanedSize(c, original, kept, v);
    var w :| VisitsInOrder(c, w, v);
    assert Tidy(v);
    OuterCorner(c, w, v);
    forall k | 0 < k < |w| ensures TurnsRightAt(v, k) {
      InnerCorner(c, w, v, k);
    }
  }
}
