/**
 Cleaning the scanned ring: repeated and straight vertices go, the half-planes stay.
 What is left is a segment that holds all points, or a strictly convex polygon.
 */
module HullRings {
  import opened Planar
  import opened Pasch
  import opened PolarOrder
  import opened GrahamScans

  // c2 lies on the segment from c1 to c3, if those differ.
  predicate IsBetween(c1: Point, c2: Point, c3: Point) {
    Orientation(c1, c2, c3) == 0 &&
    ((c1.x != c3.x && (c1.x <= c2.x <= c3.x || c3.x <= c2.x <= c1.x)) ||
     (c1.y != c3.y && (c1.y <= c2.y <= c3.y || c3.y <= c2.y <= c1.y)))
  }

  // Between by abscissa is between by ordinate, on a slanted line.
  lemma WithinOther(a: Point, b: Point, x: Point)
    requires Cross(a, b, x) == 0.0 && a.x != b.x && Within(a.x, x.x, b.x)
    ensures Within(a.y, x.y, b.y)
  {
    var t := Fraction(a.x, x.x, b.x);
    FractionOnLine(a, b, x, t);
    AlongOnSegment(a, b, t);
  }

  lemma Mirrored(a: Point, b: Point, x: Point)
    ensures Cross(Point(a.y, a.x), Point(b.y, b.x), Point(x.y, x.x)) == -Cross(a, b, x)
  {
  }

  /** The test finds exactly the points of the segment, and no point when the ends are equal. */
  lemma BetweenIsOnSegment(a: Point, b: Point, c: Point)
    ensures IsBetween(a, b, c) <==> a != c && OnSegment(b, a, c)
  {
    CrossCyclic(a, b, c);
    Mirrored(a, c, b);
    if Cross(a, c, b) == 0.0 {
      if a.x != c.x && Within(a.x, b.x, c.x) { WithinOther(a, c, b); }
      if a.y != c.y && Within(a.y, b.y, c.y) {
        WithinOther(Point(a.y, a.x), Point(c.y, c.x), Point(b.y, b.x));
      }
    }
    hide Cross;
  }

  // A point between splits the cross products with the segment.
  lemma BetweenSplits(a: Point, b: Point, c: Point, x: Point)
    requires IsBetween(a, b, c)
    ensures Cross(a, c, x) <= 0.0 <==> Cross(a, b, x) <= 0.0 && Cross(b, c, x) <= 0.0
  {
    BetweenIsOnSegment(a, b, c);
    var t := SegmentFraction(b, a, c);
    SplitCross(a, c, x, t);
    var k := Cross(a, c, x);
    hide *;
    if k <= 0.0 {
      MulNonPos(k, t);
      MulNonPos(k, 1.0 - t);
    } else if t > 0.0 {
      MulPos(t, k);
    }
  }

  lemma SplitCross(a: Point, c: Point, x: Point, t: real)
    ensures Cross(a, Along(a, c, t), x) == t * Cross(a, c, x)
    ensures Cross(Along(a, c, t), c, x) == (1.0 - t) * Cross(a, c, x)
  {
  }

  // ---- Chains of points

  ghost predicate StepRight(c: seq<Point>, v: seq<Point>, k: nat) {
    k + 1 < |v| && RightOf(c, |c|, v[k], v[k + 1])
  }

  ghost predicate AlongRight(c: seq<Point>, v: seq<Point>) {
    forall k :: 0 <= k < |v| - 1 ==> StepRight(c, v, k)
  }

  predicate TidyAt(v: seq<Point>, k: nat) {
    && k + 1 < |v| && v[k] != v[k + 1]
    && (k > 0 ==> !IsBetween(v[k - 1], v[k], v[k + 1]))
  }

  // No vertex repeats the one before, or lies between its neighbours.
  predicate Tidy(v: seq<Point>) {
    forall k :: 0 <= k < |v| - 1 ==> TidyAt(v, k)
  }

  lemma AlongRightPush(c: seq<Point>, v: seq<Point>, p: Point)
    requires v != []
    ensures AlongRight(c, v + [p]) <==> AlongRight(c, v) && RightOf(c, |c|, v[|v| - 1], p)
  {
    var w, n := v + [p], |v|;
    forall k | 0 <= k < n - 1 ensures StepRight(c, w, k) <==> StepRight(c, v, k) {
      assert w[k] == v[k] && w[k + 1] == v[k + 1];
    }
    assert w[n - 1] == v[n - 1] && w[n] == p;
    assert StepRight(c, w, n - 1) <==> RightOf(c, |c|, v[n - 1], p);
    hide RightOf;
  }

  lemma TidyPush(v: seq<Point>, p: Point)
    requires v != []
    ensures Tidy(v + [p]) <==> Tidy(v) && v[|v| - 1] != p && (|v| > 1 ==> !IsBetween(v[|v| - 2], v[|v| - 1], p))
  {
    var w, n := v + [p], |v|;
    hide IsBetween;
    forall k | 0 <= k < n - 1 ensures TidyAt(w, k) <==> TidyAt(v, k) {
      assert w[k] == v[k] && w[k + 1] == v[k + 1];
    }
    assert TidyAt(w, n - 1) <==> v[n - 1] != p && (n > 1 ==> !IsBetween(v[n - 2], v[n - 1], p));
  }

  lemma AlongTwice(o: Point, d: Point, u: real, t: real)
    ensures Along(Along(o, d, u), d, t) == Along(o, d, u + t * (1.0 - u))
  {
  }

  lemma BetweenNested(o: Point, p: Point, b: Point, d: Point, t: real, u: real)
    requires o != d && p != b && 0.0 <= t <= 1.0 && 0.0 <= u <= 1.0
    requires p == Along(o, d, u) && b == Along(p, d, t)
    ensures o != b && OnSegment(p, o, b)
  {
    AlongTwice(o, d, u, t);
    var w := u + t * (1.0 - u);
    MulNonNeg(t, 1.0 - u);
    assert w > u;
    assert Along(o, d, 0.0) == o;
    BetweenAlong(o, d, 0.0, u, w);
    if o == b {
      DiffersAlong(o, d, w);
    }
  }

  lemma DiffersAlong(o: Point, d: Point, w: real)
    requires o != d && w > 0.0
    ensures Along(o, d, w) != o
  {
    if d.x != o.x {
      NonZeroProduct(w, d.x - o.x);
    } else {
      NonZeroProduct(w, d.y - o.y);
    }
  }

  lemma NonZeroProduct(w: real, x: real)
    requires w > 0.0 && x != 0.0
    ensures w * x != 0.0
  {
    if x > 0.0 { MulPos(w, x); } else { MulPos(w, -x); }
  }

  // If b is between p and d, and p is not between o and b, then p is not between o and d.
  lemma NotBetweenFurther(o: Point, p: Point, b: Point, d: Point)
    requires p != b && IsBetween(p, b, d) && !IsBetween(o, p, b)
    ensures !IsBetween(o, p, d)
  {
    BetweenIsOnSegment(p, b, d);
    BetweenIsOnSegment(o, p, b);
    BetweenIsOnSegment(o, p, d);
    if IsBetween(o, p, d) {
      var t := SegmentFraction(b, p, d);
      var u := SegmentFraction(p, o, d);
      BetweenNested(o, p, b, d, t, u);
      assert false;
    }
  }

  // ---- Cleaning

  // The first i + 1 vertices of the original are cleaned into v, which will go on from its last vertex.
  ghost predicate Cleaned(c: seq<Point>, original: seq<Point>, i: nat, kept: seq<nat>, v: seq<Point>) {
    && i < |original| && |kept| + 1 == |v| && v[|v| - 1] == original[i]
    && KeptFrom(original, i, kept, v)
    && Tidy(v) && v[0] == original[0]
    && (AlongRight(c, v) <==> AlongRight(c, original[..i + 1]))
    && (|v| > 1 ==> OnSegment(original[i - 1], v[|v| - 2], v[|v| - 1]))
    && (|v| == 1 ==> forall k :: 0 <= k <= i ==> original[k] == original[0])
  }

  // The vertices before the last one are those at the given indices of the original, in order.
  ghost predicate KeptFrom(original: seq<Point>, i: nat, kept: seq<nat>, v: seq<Point>) {
    && |kept| < |v| && i < |original|
    && (forall t :: 0 <= t < |kept| ==> kept[t] < i && v[t] == original[kept[t]])
    && forall t, u :: 0 <= t < u < |kept| ==> kept[t] < kept[u]
  }

  lemma OriginalPush(c: seq<Point>, original: seq<Point>, i: nat)
    requires i + 1 < |original|
    ensures AlongRight(c, original[..i + 2])
      <==> AlongRight(c, original[..i + 1]) && RightOf(c, |c|, original[i], original[i + 1])
  {
    assert original[..i + 2] == original[..i + 1] + [original[i + 1]];
    AlongRightPush(c, original[..i + 1], original[i + 1]);
  }

  lemma SameEndRight(c: seq<Point>, p: Point)
    ensures RightOf(c, |c|, p, p)
  {
    forall j | 0 <= j < |c| ensures Cross(p, p, c[j]) <= 0.0 { CrossSame(p, c[j]); }
  }

  lemma BetweenRight(c: seq<Point>, a: Point, b: Point, d: Point)
    requires IsBetween(a, b, d)
    ensures RightOf(c, |c|, a, d) <==> RightOf(c, |c|, a, b) && RightOf(c, |c|, b, d)
  {
    hide IsBetween;
    hide Cross;
    forall j | 0 <= j < |c|
      ensures Cross(a, d, c[j]) <= 0.0 <==> Cross(a, b, c[j]) <= 0.0 && Cross(b, d, c[j]) <= 0.0
    {
      BetweenSplits(a, b, d, c[j]);
    }
  }

  // The next vertex is equal: nothing changes.
  lemma CleanEqual(c: seq<Point>, original: seq<Point>, i: nat, kept: seq<nat>, v: seq<Point>)
    requires i + 1 < |original| && Cleaned(c, original, i, kept, v) && original[i] == original[i + 1]
    ensures Cleaned(c, original, i + 1, kept, v)
  {
    OriginalPush(c, original, i);
    SameEndRight(c, original[i]);
    hide AlongRight;
    hide Tidy;
    hide RightOf;
    if |v| > 1 { EndsOnSegment(v[|v| - 2], v[|v| - 1]); }
    hide OnSegment;
  }

  lemma EndsOnSegment(a: Point, b: Point)
    ensures OnSegment(a, a, b) && OnSegment(b, a, b)
  {
  }

  // The vertex is on the way to the next one: it is passed over.
  lemma CleanStraight(c: seq<Point>, original: seq<Point>, i: nat, kept: seq<nat>, v: seq<Point>)
    requires i + 1 < |original| && Cleaned(c, original, i, kept, v)
    requires |v| > 1 && IsBetween(v[|v| - 2], original[i], original[i + 1])
    ensures Cleaned(c, original, i + 1, kept, v[|v| - 1 := original[i + 1]])
  {
    var n := |v| - 1;
    var a, b, d := v[n - 1], original[i], original[i + 1];
    var u := v[..n];
    assert v == u + [b] && v[n := d] == u + [d];
    OriginalPush(c, original, i);
    AlongRightPush(c, u, b);
    AlongRightPush(c, u, d);
    BetweenRight(c, a, b, d);
    TidyPush(u, b);
    TidyPush(u, d);
    BetweenIsOnSegment(a, b, d);
    if n > 1 { NotBetweenFurther(v[n - 2], a, b, d); }
    hide AlongRight;
    hide Tidy;
    hide RightOf;
    hide IsBetween;
    hide OnSegment;
  }

  // The vertex is kept.
  lemma CleanKeep(c: seq<Point>, original: seq<Point>, i: nat, kept: seq<nat>, v: seq<Point>)
    requires i + 1 < |original| && Cleaned(c, original, i, kept, v) && original[i] != original[i + 1]
    requires |v| > 1 ==> !IsBetween(v[|v| - 2], original[i], original[i + 1])
    ensures Cleaned(c, original, i + 1, kept + [i], v + [original[i + 1]])
  {
    OriginalPush(c, original, i);
    AlongRightPush(c, v, original[i + 1]);
    TidyPush(v, original[i + 1]);
    EndsOnSegment(original[i], original[i + 1]);
    hide AlongRight;
    hide Tidy;
    hide RightOf;
    hide IsBetween;
    hide OnSegment;
  }

  lemma CleanStart(c: seq<Point>, original: seq<Point>)
    requires original != []
    ensures Cleaned(c, original, 0, [], [original[0]])
  {
    assert original[..1] == [original[0]];
  }

  /** Drop repeated vertices and vertices between their neighbours. */
  method CleanRing(original: seq<Point>, ghost c: seq<Point>) returns (cleaned: seq<Point>)
    requires original != [] && original[0] == original[|original| - 1]
    ensures var n := |original| - 1; exists kept :: Cleaned(c, original, n, kept, cleaned)
  {
    cleaned := [];
    ghost var kept: seq<nat> := [];
    CleanStart(c, original);
    for i := 0 to |original| - 1
      invariant Cleaned(c, original, i, kept, cleaned + [original[i]])
    {
      hide *;
      var curr, next := original[i], original[i + 1];
      ghost var v := cleaned + [curr];
      if curr == next {
        CleanEqual(c, original, i, kept, v);
      } else if cleaned != [] && IsBetween(cleaned[|cleaned| - 1], curr, next) {
        CleanStraight(c, original, i, kept, v);
        assert v[|v| - 1 := next] == cleaned + [next];
      } else {
        CleanKeep(c, original, i, kept, v);
        cleaned, kept := cleaned + [curr], kept + [i];
      }
    }
    cleaned := cleaned + [original[|original| - 1]];
  }
}
