/**
 The planar argument behind corner removal: a segment that enters a triangle
 through one side must leave it through another side or end inside it.
 */
module Pasch {
  import opened Planar

  // The point a fraction t of the way from p to q.
  function Along(p: Point, q: Point, t: real): Point {
    Point(p.x + t * (q.x - p.x), p.y + t * (q.y - p.y))
  }

  lemma CrossAlong(a: Point, b: Point, p: Point, q: Point, t: real)
    ensures Cross(a, b, Along(p, q, t)) == (1.0 - t) * Cross(a, b, p) + t * Cross(a, b, q)
  {
  }

  // Cancelling a positive factor.
  lemma SignOfFactor(total: real, d: real)
    requires total > 0.0 && total * d >= 0.0
    ensures d >= 0.0
  {
    if d < 0.0 { MulPos(total, -d); }
  }

  lemma WithinFromWeight(total: real, w: real, lo: real, v: real, hi: real)
    requires total > 0.0 && 0.0 <= w <= total
    requires total * (v - lo) == w * (hi - lo)
    ensures Within(lo, v, hi)
  {
    if hi >= lo {
      MulNonNeg(w, hi - lo);
      MulNonNeg(total - w, hi - lo);
      SignOfFactor(total, v - lo);
      SignOfFactor(total, hi - v);
    } else {
      MulNonNeg(w, lo - hi);
      MulNonNeg(total - w, lo - hi);
      SignOfFactor(total, lo - v);
      SignOfFactor(total, v - hi);
    }
  }

  lemma AlongOnSegment(p: Point, q: Point, t: real)
    requires 0.0 <= t <= 1.0
    ensures OnSegment(Along(p, q, t), p, q)
  {
    var x := Along(p, q, t);
    CrossAlong(p, q, p, q, t);
    WithinFromWeight(1.0, t, p.x, x.x, q.x);
    WithinFromWeight(1.0, t, p.y, x.y, q.y);
  }

  // A fraction of a range, given a value inside it.
  lemma Fraction(lo: real, v: real, hi: real) returns (t: real)
    requires lo != hi && Within(lo, v, hi)
    ensures 0.0 <= t <= 1.0 && v == lo + t * (hi - lo)
  {
    t := (v - lo) / (hi - lo);
    assert t * (hi - lo) == v - lo;
    if hi > lo {
      SignOfFactor(hi - lo, t);
      SignOfFactor(hi - lo, 1.0 - t);
    } else {
      SignOfFactor(lo - hi, t);
      SignOfFactor(lo - hi, 1.0 - t);
    }
  }

  lemma FractionOnLine(a: Point, b: Point, x: Point, t: real)
    requires a != b && Cross(a, b, x) == 0.0
    requires a.x != b.x ==> x.x == a.x + t * (b.x - a.x)
    requires a.x == b.x ==> x.x == a.x && x.y == a.y + t * (b.y - a.y)
    ensures x == Along(a, b, t)
  {
    if a.x != b.x {
      assert (b.x - a.x) * (x.y - a.y) == (b.y - a.y) * (x.x - a.x);
      assert (b.y - a.y) * (x.x - a.x) == (b.x - a.x) * (t * (b.y - a.y));
      assert (b.x - a.x) * (x.y - a.y - t * (b.y - a.y)) == 0.0;
      assert x.y - a.y - t * (b.y - a.y) == 0.0;
    }
  }

  lemma SegmentFraction(x: Point, a: Point, b: Point) returns (t: real)
    requires a != b && OnSegment(x, a, b)
    ensures 0.0 <= t <= 1.0 && x == Along(a, b, t)
  {
    if a.x != b.x {
      t := Fraction(a.x, x.x, b.x);
    } else {
      t := Fraction(a.y, x.y, b.y);
    }
    FractionOnLine(a, b, x, t);
  }

  // Barycentric coordinates of y in the triangle a, b, c.
  lemma Barycentric(a: Point, b: Point, c: Point, y: Point)
    ensures Cross(a, b, c) * (y.x - a.x) == Cross(c, a, y) * (b.x - a.x) + Cross(a, b, y) * (c.x - a.x)
    ensures Cross(a, b, c) * (y.y - a.y) == Cross(c, a, y) * (b.y - a.y) + Cross(a, b, y) * (c.y - a.y)
  {
  }

  // On the line of side ab and not outside the other two sides means on side ab.
  lemma OnSide(a: Point, b: Point, c: Point, y: Point)
    requires Cross(a, b, c) > 0.0
    requires Cross(a, b, y) == 0.0 && Cross(b, c, y) >= 0.0 && Cross(c, a, y) >= 0.0
    ensures OnSegment(y, a, b)
  {
    CrossFourPoints(a, b, c, y);
    Barycentric(a, b, c, y);
    WithinFromWeight(Cross(a, b, c), Cross(c, a, y), a.x, y.x, b.x);
    WithinFromWeight(Cross(a, b, c), Cross(c, a, y), a.y, y.y, b.y);
  }

  // Where a value falling from u > 0 to v < 0 reaches zero.
  lemma ZeroAt(u: real, v: real) returns (t: real)
    requires u > 0.0 && v < 0.0
    ensures 0.0 < t < 1.0 && (1.0 - t) * u + t * v == 0.0
  {
    t := u / (u - v);
    assert t * (u - v) == u;
    if t <= 0.0 { MulNonNeg(-t, u - v); }
    if t >= 1.0 { MulNonNeg(t - 1.0, u - v); }
  }

  // (1-t)u + tv is monotone in t.
  lemma FallsFurther(u: real, v: real, s: real, t: real)
    requires v <= u && s <= t
    ensures (1.0 - t) * u + t * v <= (1.0 - s) * u + s * v
  {
    MulNonNeg(t - s, u - v);
  }

  // Two values start positive and one ends negative: the first moment one of them is zero.
  lemma FirstZero(gx: real, gd: real, hx: real, hd: real) returns (t: real, first: bool)
    requires gx > 0.0 && hx > 0.0 && (gd < 0.0 || hd < 0.0)
    ensures 0.0 < t < 1.0
    ensures var g, h := (1.0 - t) * gx + t * gd, (1.0 - t) * hx + t * hd;
            if first then g == 0.0 && h >= 0.0 else h == 0.0 && g >= 0.0
  {
    var tg, th := 1.0, 1.0;
    if gd < 0.0 { tg := ZeroAt(gx, gd); }
    if hd < 0.0 { th := ZeroAt(hx, hd); }
    t := if tg <= th then tg else th;
    first := tg <= th;
    if gd < 0.0 {
      FallsFurther(gx, gd, t, tg);
    } else {
      MulPos(1.0 - t, gx); MulNonNeg(t, gd);
    }
    if hd < 0.0 {
      FallsFurther(hx, hd, t, th);
    } else {
      MulPos(1.0 - t, hx); MulNonNeg(t, hd);
    }
  }

  // x is inside side ac, d is beyond side ab or beyond side bc, on b's side of ac:
  // the way from x to d meets ab or bc strictly between x and d.
  lemma WalkOut(a: Point, b: Point, c: Point, x: Point, d: Point) returns (t: real)
    requires Cross(a, b, c) > 0.0
    requires Cross(c, a, x) == 0.0 && Cross(a, b, x) > 0.0 && Cross(b, c, x) > 0.0
    requires Cross(c, a, d) > 0.0
    requires Cross(a, b, d) < 0.0 || Cross(b, c, d) < 0.0
    ensures 0.0 < t < 1.0
    ensures OnSegment(Along(x, d, t), a, b) || OnSegment(Along(x, d, t), b, c)
  {
    var first: bool;
    t, first := FirstZero(Cross(a, b, x), Cross(a, b, d), Cross(b, c, x), Cross(b, c, d));
    var y := Along(x, d, t);
    CrossAlong(a, b, x, d, t);
    CrossAlong(b, c, x, d, t);
    CrossAlong(c, a, x, d, t);
    assert Cross(c, a, y) > 0.0 by { MulPos(t, Cross(c, a, d)); }
    if first {
      OnSide(a, b, c, y);
    } else {
      OnSideBC(a, b, c, y);
    }
  }

  lemma OnSideBC(a: Point, b: Point, c: Point, y: Point)
    requires Cross(a, b, c) > 0.0
    requires Cross(b, c, y) == 0.0 && Cross(a, b, y) >= 0.0 && Cross(c, a, y) >= 0.0
    ensures OnSegment(y, b, c)
  {
    CrossCyclic(a, b, c);
    OnSide(b, c, a, y);
  }

  // ---- Segments that meet only at common end points

  ghost predicate MeetOnlyAtEnds(a: Point, b: Point, d: Point, e: Point) {
    forall x :: OnSegment(x, a, b) && OnSegment(x, d, e) ==> IsEndOf(x, a, b) && IsEndOf(x, d, e)
  }

  // The envelope of the corner a, b, c, built in the source's order.
  function CornerEnvelope(a: Point, b: Point, c: Point): Envelope {
    Expand(Expand(EnvelopeOf(a), c), b)
  }

  // v stands in the way of cutting the corner a, b, c.
  predicate Blocks(v: Point, a: Point, b: Point, c: Point) {
    && v != a && v != b && v != c
    && Covers(CornerEnvelope(a, b, c), v)
    && TriangleIntersects(a, b, c, v)
  }

  lemma WeightedBelow(total: real, u: real, v: real, w: real, p: real, q: real, r: real, y: real, m: real)
    requires total > 0.0 && u >= 0.0 && v >= 0.0 && w >= 0.0 && u + v + w == total
    requires total * y == u * p + v * q + w * r
    requires p <= m && q <= m && r <= m
    ensures y <= m
  {
    MulNonNeg(u, m - p);
    MulNonNeg(v, m - q);
    MulNonNeg(w, m - r);
    SignOfFactor(total, m - y);
  }

  // A point of a proper triangle is in the triangle's envelope.
  lemma TriangleInEnvelope(a: Point, b: Point, c: Point, v: Point)
    requires Cross(a, b, c) > 0.0
    requires Cross(a, b, v) >= 0.0 && Cross(b, c, v) >= 0.0 && Cross(c, a, v) >= 0.0
    ensures Covers(CornerEnvelope(a, b, c), v)
  {
    var total, f, g, h := Cross(a, b, c), Cross(c, a, v), Cross(a, b, v), Cross(b, c, v);
    CrossFourPoints(a, b, c, v);
    Barycentric(a, b, c, v);
    var env := CornerEnvelope(a, b, c);
    WeightedBelow(total, f, g, h, b.x, c.x, a.x, v.x, env.maxX);
    WeightedBelow(total, f, g, h, b.y, c.y, a.y, v.y, env.maxY);
    WeightedBelow(total, f, g, h, -b.x, -c.x, -a.x, -v.x, -env.minX);
    WeightedBelow(total, f, g, h, -b.y, -c.y, -a.y, -v.y, -env.minY);
  }

  // A vertex that does not block a proper corner is a corner vertex or strictly beyond a side.
  lemma NotBlocking(a: Point, b: Point, c: Point, v: Point)
    requires Cross(a, b, c) > 0.0
    requires !Blocks(v, a, b, c)
    ensures v == a || v == b || v == c || Cross(a, b, v) < 0.0 || Cross(b, c, v) < 0.0 || Cross(c, a, v) < 0.0
  {
    if Cross(a, b, v) >= 0.0 && Cross(b, c, v) >= 0.0 && Cross(c, a, v) >= 0.0 {
      TriangleInEnvelope(a, b, c, v);
    }
  }

  // Two sides that meet only at their shared vertex leave distinct outer vertices.
  lemma OuterVerticesDistinct(a: Point, b: Point, c: Point)
    requires a != b && MeetOnlyAtEnds(a, b, b, c)
    ensures a != c
  {
    if a == c {
      var m := Along(a, b, 0.5);
      AlongOnSegment(a, b, 0.5);
      SegmentSwap(m, a, b);
      AlongDistinct(a, b, 0.5, 0.0);
      AlongDistinct(a, b, 0.5, 1.0);
      assert false;
    }
  }

  lemma AlongDistinct(p: Point, q: Point, s: real, t: real)
    requires p != q && s != t
    ensures Along(p, q, s) != Along(p, q, t)
  {
    if p.x != q.x {
      assert (s - t) * (q.x - p.x) != 0.0;
    } else {
      assert (s - t) * (q.y - p.y) != 0.0;
    }
  }

  lemma SwapFactors(u: real, v: real, x: real, y: real)
    ensures (u * x) * (v * y) == (u * y) * (v * x)
  {
  }

  lemma AlongCollinear(a: Point, c: Point, p: real, q: real, s: real)
    ensures Cross(Along(a, c, p), Along(a, c, q), Along(a, c, s)) == 0.0
  {
    var dx, dy := c.x - a.x, c.y - a.y;
    var p', q', s' := Along(a, c, p), Along(a, c, q), Along(a, c, s);
    assert q'.x - p'.x == (q - p) * dx && q'.y - p'.y == (q - p) * dy;
    assert s'.x - q'.x == (s - q) * dx && s'.y - q'.y == (s - q) * dy;
    SwapFactors(q - p, s - q, dx, dy);
  }

  // Points in order along one line: the middle one is on the segment of the outer two.
  lemma BetweenAlong(a: Point, c: Point, p: real, s: real, q: real)
    requires p <= s <= q
    ensures OnSegment(Along(a, c, s), Along(a, c, p), Along(a, c, q))
    ensures OnSegment(Along(a, c, s), Along(a, c, q), Along(a, c, p))
  {
    AlongCollinear(a, c, p, q, s);
    AlongCollinear(a, c, q, p, s);
    BetweenRange(a.x, c.x, p, s, q);
    BetweenRange(a.y, c.y, p, s, q);
  }

  lemma BetweenRange(lo: real, hi: real, p: real, s: real, q: real)
    requires p <= s <= q
    ensures Within(lo + p * (hi - lo), lo + s * (hi - lo), lo + q * (hi - lo))
    ensures Within(lo + q * (hi - lo), lo + s * (hi - lo), lo + p * (hi - lo))
  {
    if hi >= lo {
      MulNonNeg(s - p, hi - lo); MulNonNeg(q - s, hi - lo);
    } else {
      MulNonNeg(s - p, lo - hi); MulNonNeg(q - s, lo - hi);
    }
  }

  lemma LineFraction(a: Point, c: Point, x: Point) returns (t: real)
    requires a != c && Cross(a, c, x) == 0.0
    ensures x == Along(a, c, t)
  {
    if a.x != c.x {
      t := (x.x - a.x) / (c.x - a.x);
    } else {
      t := (x.y - a.y) / (c.y - a.y);
    }
    FractionOnLine(a, c, x, t);
  }

  // ---- The base of an unobstructed corner

  // What the simplifier has checked about a corner a, b, c and another segment d, e.
  ghost predicate Unobstructed(a: Point, b: Point, c: Point, d: Point, e: Point) {
    && a != b && b != c && a != c && d != e
    && d != b && e != b
    && MeetOnlyAtEnds(a, b, d, e) && MeetOnlyAtEnds(b, c, d, e)
    && !Blocks(d, a, b, c) && !Blocks(e, a, b, c)
    && !(d == a && e == c) && !(d == c && e == a)
  }

  // The base of a flat corner is covered by its sides.
  lemma FlatCovered(a: Point, b: Point, c: Point, x: Point)
    requires a != c && Cross(a, b, c) == 0.0 && OnSegment(x, a, c)
    ensures OnSegment(x, a, b) || OnSegment(x, b, c)
  {
    CrossCyclic(a, b, c);
    var u := LineFraction(a, c, b);
    var s := SegmentFraction(x, a, c);
    AlongEnds(a, c);
    if s <= u {
      BetweenAlong(a, c, 0.0, s, u);
    } else {
      BetweenAlong(a, c, u, s, 1.0);
    }
  }

  // A point strictly inside the base of a proper corner is strictly inside the other two sides.
  lemma InsideBase(a: Point, b: Point, c: Point, s: real, x: Point)
    requires Cross(a, b, c) > 0.0 && 0.0 < s < 1.0 && x == Along(a, c, s)
    ensures Cross(c, a, x) == 0.0 && Cross(a, b, x) > 0.0 && Cross(b, c, x) > 0.0
  {
    InsideBaseValues(a, b, c, s);
    MulPos(s, Cross(a, b, c));
    MulPos(1.0 - s, Cross(a, b, c));
  }

  lemma InsideBaseValues(a: Point, b: Point, c: Point, s: real)
    ensures Cross(c, a, Along(a, c, s)) == 0.0
    ensures Cross(a, b, Along(a, c, s)) == s * Cross(a, b, c)
    ensures Cross(b, c, Along(a, c, s)) == (1.0 - s) * Cross(a, b, c)
  {
    CrossAlong(a, b, a, c, s);
    CrossAlong(b, c, a, c, s);
    CrossAlong(c, a, a, c, s);
    CrossCyclic(a, b, c);
    VertexOnTwoSides(a, b, c);
  }

  // Such a point would block the corner.
  lemma InsideBaseBlocks(a: Point, b: Point, c: Point, s: real, x: Point)
    requires Cross(a, b, c) > 0.0 && 0.0 < s < 1.0 && x == Along(a, c, s)
    ensures Blocks(x, a, b, c)
  {
    InsideBase(a, b, c, s, x);
    InsideSidesBlocks(a, b, c, x);
  }

  lemma InsideSidesBlocks(a: Point, b: Point, c: Point, x: Point)
    requires Cross(a, b, c) > 0.0
    requires Cross(c, a, x) == 0.0 && Cross(a, b, x) > 0.0 && Cross(b, c, x) > 0.0
    ensures Blocks(x, a, b, c)
  {
    VertexOnTwoSides(a, b, c);
    TriangleInEnvelope(a, b, c, x);
  }

  lemma VertexOnTwoSides(a: Point, b: Point, c: Point)
    ensures Cross(a, b, a) == 0.0 && Cross(a, b, b) == 0.0
    ensures Cross(b, c, b) == 0.0 && Cross(b, c, c) == 0.0
    ensures Cross(c, a, a) == 0.0 && Cross(c, a, c) == 0.0
  {
  }

  lemma AlongEnds(p: Point, q: Point)
    ensures Along(p, q, 0.0) == p && Along(p, q, 1.0) == q
  {
  }

  // A point strictly inside segment de that lies on a side of the corner.
  lemma SideNotMet(a: Point, b: Point, c: Point, d: Point, e: Point, w: real)
    requires Unobstructed(a, b, c, d, e) && 0.0 < w < 1.0
    ensures !OnSegment(Along(d, e, w), a, b) && !OnSegment(Along(d, e, w), b, c)
  {
    var y := Along(d, e, w);
    AlongOnSegment(d, e, w);
    AlongEnds(d, e);
    AlongDistinct(d, e, w, 0.0);
    AlongDistinct(d, e, w, 1.0);
    assert !IsEndOf(y, d, e);
  }

  // The other segment leaves the base towards b: it would meet a side.
  lemma BaseTowardsApex(a: Point, b: Point, c: Point, d: Point, e: Point, s: real, r: real)
    requires Cross(a, b, c) > 0.0 && Unobstructed(a, b, c, d, e)
    requires 0.0 < s < 1.0 && 0.0 < r < 1.0 && Along(d, e, r) == Along(a, c, s)
    ensures Cross(c, a, d) <= 0.0
  {
    if Cross(c, a, d) > 0.0 {
      var x := Along(a, c, s);
      InsideBase(a, b, c, s, x);
      NotBlocking(a, b, c, d);
      VertexOnTwoSides(a, b, c);
      var t := WalkOut(a, b, c, x, d);
      var w := r * (1.0 - t);
      AlongTowards(d, e, r, t, w);
      MulPos(r, 1.0 - t);
      MulPos(r, t);
      SideNotMet(a, b, c, d, e, w);
      assert false;
    }
  }

  lemma AlongTowards(d: Point, e: Point, r: real, t: real, w: real)
    requires w == r * (1.0 - t)
    ensures Along(Along(d, e, r), d, t) == Along(d, e, w)
  {
    var v := Along(d, e, r);
    RangeTowards(d.x, e.x, r, t, w, v.x);
    RangeTowards(d.y, e.y, r, t, w, v.y);
  }

  lemma RangeTowards(lo: real, hi: real, r: real, t: real, w: real, v: real)
    requires w == r * (1.0 - t) && v == lo + r * (hi - lo)
    ensures v + t * (lo - v) == lo + w * (hi - lo)
  {
    var u := r * (hi - lo);
    assert t * (lo - v) == -(t * u);
    assert w * (hi - lo) == (1.0 - t) * u;
  }

  // The other segment runs along the line of the base.
  lemma BaseAlongLine(a: Point, b: Point, c: Point, d: Point, e: Point, p: real, q: real, s: real)
    requires Cross(a, b, c) > 0.0 && Unobstructed(a, b, c, d, e)
    requires p < q && d == Along(a, c, p) && e == Along(a, c, q)
    requires 0.0 < s < 1.0
    ensures !(p < s < q)
  {
    if p < s < q {
      AlongEnds(a, c);
      assert p <= 0.0 by { if p > 0.0 { InsideBaseBlocks(a, b, c, p, d); } }
      assert q >= 1.0 by { if q < 1.0 { InsideBaseBlocks(a, b, c, q, e); } }
      if p < 0.0 {
        BetweenAlong(a, c, p, 0.0, q);
        assert OnSegment(a, a, b);
        AlongDistinct(a, c, 0.0, p);
        AlongDistinct(a, c, 0.0, q);
        assert false;
      } else if q > 1.0 {
        BetweenAlong(a, c, p, 1.0, q);
        assert OnSegment(c, b, c);
        AlongDistinct(a, c, 1.0, p);
        AlongDistinct(a, c, 1.0, q);
        assert false;
      } else {
        assert false;
      }
    }
  }

  lemma AlongNested(a: Point, c: Point, p: real, q: real, r: real, m: real)
    requires m == p + r * (q - p)
    ensures Along(Along(a, c, p), Along(a, c, q), r) == Along(a, c, m)
  {
    var u, v := Along(a, c, p), Along(a, c, q);
    RangeNested(a.x, c.x, p, q, r, m, u.x, v.x);
    RangeNested(a.y, c.y, p, q, r, m, u.y, v.y);
  }

  lemma RangeNested(lo: real, hi: real, p: real, q: real, r: real, m: real, u: real, v: real)
    requires m == p + r * (q - p)
    requires u == lo + p * (hi - lo) && v == lo + q * (hi - lo)
    ensures u + r * (v - u) == lo + m * (hi - lo)
  {
    var w := hi - lo;
    assert v - u == (q - p) * w;
    assert r * (v - u) == (r * (q - p)) * w;
  }

  lemma MixAbove(p: real, q: real, r: real)
    requires 0.0 < r && p < q
    ensures p < p + r * (q - p)
  {
    assert r * (q - p) > 0.0;
  }

  lemma MixBelow(p: real, q: real, r: real)
    requires r < 1.0 && p < q
    ensures p + r * (q - p) < q
  {
    var s := 1.0 - r;
    assert s * (q - p) > 0.0;
    assert r * (q - p) == (q - p) - s * (q - p);
  }

  lemma FlatMix(p: real, q: real, r: real, m: real)
    requires 0.0 < r < 1.0 && m == p + r * (q - p)
    ensures p < q ==> p < m < q
    ensures q < p ==> q < m < p
  {
    if p < q {
      MixAbove(p, q, r);
      MixBelow(p, q, r);
    } else if q < p {
      assert m == q + (1.0 - r) * (p - q);
      MixAbove(q, p, 1.0 - r);
      MixBelow(q, p, 1.0 - r);
    }
  }

  lemma BaseFlatInner(a: Point, b: Point, c: Point, d: Point, e: Point, s: real, r: real)
    requires Cross(a, b, c) > 0.0 && Unobstructed(a, b, c, d, e)
    requires 0.0 < s < 1.0 && 0.0 < r < 1.0
    requires Cross(a, c, d) == 0.0 && Cross(a, c, e) == 0.0
    ensures Along(d, e, r) != Along(a, c, s)
  {
    var p := LineFraction(a, c, d);
    var q := LineFraction(a, c, e);
    var m := p + r * (q - p);
    AlongNested(a, c, p, q, r, m);
    FlatMix(p, q, r, m);
    if p < q {
      BaseAlongLine(a, b, c, d, e, p, q, s);
    } else {
      UnobstructedSwap(a, b, c, d, e);
      BaseAlongLine(a, b, c, e, d, q, p, s);
    }
    AlongDistinct(a, c, s, m);
  }

  lemma SegmentSwap(x: Point, a: Point, b: Point)
    ensures OnSegment(x, a, b) == OnSegment(x, b, a)
  {
  }

  lemma MeetSwap(a: Point, b: Point, d: Point, e: Point)
    requires MeetOnlyAtEnds(a, b, d, e)
    ensures MeetOnlyAtEnds(a, b, e, d) && MeetOnlyAtEnds(b, a, d, e) && MeetOnlyAtEnds(d, e, a, b)
  {
    forall x ensures OnSegment(x, a, b) == OnSegment(x, b, a) { SegmentSwap(x, a, b); }
    forall x ensures OnSegment(x, d, e) == OnSegment(x, e, d) { SegmentSwap(x, d, e); }
  }

  lemma UnobstructedSwap(a: Point, b: Point, c: Point, d: Point, e: Point)
    requires Unobstructed(a, b, c, d, e)
    ensures Unobstructed(a, b, c, e, d)
  {
    MeetSwap(a, b, d, e);
    MeetSwap(b, c, d, e);
  }

  lemma SignsOfMix(r: real, fd: real, fe: real)
    requires 0.0 < r < 1.0 && (1.0 - r) * fd + r * fe == 0.0
    requires fd <= 0.0 && fe <= 0.0
    ensures fd == 0.0 && fe == 0.0
  {
    if fd < 0.0 {
      MulPos(1.0 - r, -fd);
      MulNonNeg(r, -fe);
    }
    if fe < 0.0 {
      MulPos(r, -fe);
      MulNonNeg(1.0 - r, -fd);
    }
  }

  // Strictly inside both segments, neither end on b's side: both ends on the base's line.
  lemma BothOnBaseLine(a: Point, c: Point, d: Point, e: Point, s: real, r: real)
    requires Cross(c, a, d) <= 0.0 && Cross(c, a, e) <= 0.0
    requires 0.0 < r < 1.0 && Along(d, e, r) == Along(a, c, s)
    ensures Cross(a, c, d) == 0.0 && Cross(a, c, e) == 0.0
  {
    InsideBaseValues(a, a, c, s);
    CrossAlong(c, a, d, e, r);
    SignsOfMix(r, Cross(c, a, d), Cross(c, a, e));
    CrossCyclic(a, c, d);
    CrossCyclic(a, c, e);
  }

  // Strictly inside both segments: impossible.
  lemma ProperBaseInner(a: Point, b: Point, c: Point, d: Point, e: Point, s: real, r: real)
    requires Cross(a, b, c) > 0.0 && Unobstructed(a, b, c, d, e)
    requires 0.0 < s < 1.0 && 0.0 < r < 1.0
    ensures Along(d, e, r) != Along(a, c, s)
  {
    if Along(d, e, r) == Along(a, c, s) {
      AlongReversed(d, e, r);
      UnobstructedSwap(a, b, c, d, e);
      BaseTowardsApex(a, b, c, d, e, s, r);
      BaseTowardsApex(a, b, c, e, d, s, 1.0 - r);
      BothOnBaseLine(a, c, d, e, s, r);
      BaseFlatInner(a, b, c, d, e, s, r);
      assert false;
    }
  }

  lemma AlongReversed(p: Point, q: Point, t: real)
    ensures Along(p, q, t) == Along(q, p, 1.0 - t)
  {
  }

  // No other segment passes through the inside of the base of a proper corner.
  lemma ProperBase(a: Point, b: Point, c: Point, d: Point, e: Point, x: Point)
    requires Cross(a, b, c) > 0.0 && Unobstructed(a, b, c, d, e)
    requires OnSegment(x, a, c) && OnSegment(x, d, e)
    ensures x == a || x == c
  {
    var s := SegmentFraction(x, a, c);
    var r := SegmentFraction(x, d, e);
    AlongEnds(a, c);
    AlongEnds(d, e);
    if 0.0 < s < 1.0 {
      InsideBaseBlocks(a, b, c, s, x);
      ProperBaseInner(a, b, c, d, e, s, r);
      assert false;
    }
  }

  lemma BlocksReversed(v: Point, a: Point, b: Point, c: Point)
    ensures Blocks(v, a, b, c) == Blocks(v, c, b, a)
  {
    assert CornerEnvelope(a, b, c) == CornerEnvelope(c, b, a);
    CrossCyclic(a, b, c);
    CrossCyclic(a, b, v);
    CrossCyclic(b, c, v);
    CrossCyclic(c, a, v);
    CrossFourPoints(a, b, c, v);
  }

  lemma UnobstructedReversed(a: Point, b: Point, c: Point, d: Point, e: Point)
    requires Unobstructed(a, b, c, d, e)
    ensures Unobstructed(c, b, a, d, e)
  {
    MeetSwap(a, b, d, e);
    MeetSwap(b, c, d, e);
    BlocksReversed(d, a, b, c);
    BlocksReversed(e, a, b, c);
  }

  /**
   Cutting an unobstructed corner a, b, c: the new segment a, c meets the other
   segment only at a common end point.
   */
  lemma BaseMeetsOnlyAtEnds(a: Point, b: Point, c: Point, d: Point, e: Point)
    requires MeetOnlyAtEnds(a, b, b, c)
    requires Unobstructed(a, b, c, d, e)
    ensures MeetOnlyAtEnds(a, c, d, e)
  {
    forall x | OnSegment(x, a, c) && OnSegment(x, d, e)
      ensures IsEndOf(x, a, c) && IsEndOf(x, d, e)
    {
      CrossCyclic(a, b, c);
      assert OnSegment(a, a, b) && OnSegment(c, b, c);
      if Cross(a, b, c) == 0.0 {
        FlatCovered(a, b, c, x);
      } else if Cross(a, b, c) > 0.0 {
        ProperBase(a, b, c, d, e, x);
      } else {
        UnobstructedReversed(a, b, c, d, e);
        SegmentSwap(x, a, c);
        ProperBase(c, b, a, d, e, x);
      }
    }
  }

  // ---- Any segment that meets the base

  ghost predicate Meet(a: Point, b: Point, d: Point, e: Point) {
    exists x :: OnSegment(x, a, b) && OnSegment(x, d, e)
  }

  lemma MeetAt(a: Point, b: Point, d: Point, e: Point, x: Point)
    requires OnSegment(x, a, b) && OnSegment(x, d, e)
    ensures Meet(a, b, d, e) && Meet(b, a, d, e) && Meet(a, b, e, d) && Meet(d, e, a, b)
  {
    SegmentSwap(x, a, b);
    SegmentSwap(x, d, e);
  }

  lemma MeetEither(a: Point, b: Point, d: Point, e: Point)
    ensures Meet(a, b, d, e) == Meet(b, a, d, e) == Meet(a, b, e, d) == Meet(d, e, a, b)
  {
    if x :| OnSegment(x, a, b) && OnSegment(x, d, e) { MeetAt(a, b, d, e, x); }
    if x :| OnSegment(x, b, a) && OnSegment(x, d, e) { MeetAt(b, a, d, e, x); }
    if x :| OnSegment(x, a, b) && OnSegment(x, e, d) { MeetAt(a, b, e, d, x); }
    if x :| OnSegment(x, d, e) && OnSegment(x, a, b) { MeetAt(d, e, a, b, x); }
  }

  // From inside the base towards an end on b's side.
  lemma TowardsApexMeets(a: Point, b: Point, c: Point, d: Point, e: Point, s: real, r: real)
    requires Cross(a, b, c) > 0.0 && !Blocks(d, a, b, c)
    requires 0.0 < s < 1.0 && 0.0 < r < 1.0 && Along(d, e, r) == Along(a, c, s) && Cross(c, a, d) > 0.0
    ensures Meet(a, b, d, e) || Meet(b, c, d, e)
  {
    var x := Along(a, c, s);
    InsideBase(a, b, c, s, x);
    NotBlocking(a, b, c, d);
    VertexOnTwoSides(a, b, c);
    if d == b {
      MeetAt(a, b, d, e, d);
    } else {
      var t := WalkOut(a, b, c, x, d);
      var w := r * (1.0 - t);
      AlongTowards(d, e, r, t, w);
      MulPos(r, 1.0 - t);
      MulPos(r, t);
      AlongOnSegment(d, e, w);
      assert OnSegment(Along(d, e, w), d, e);
    }
  }

  // Along the line of the base: the segment reaches past one of its ends.
  lemma AlongBaseMeets(a: Point, b: Point, c: Point, d: Point, e: Point, p: real, q: real, s: real)
    requires Cross(a, b, c) > 0.0 && !Blocks(d, a, b, c)
    requires d == Along(a, c, p) && e == Along(a, c, q) && p < s < q && 0.0 < s < 1.0
    ensures Meet(a, b, d, e)
  {
    AlongEnds(a, c);
    if p > 0.0 {
      InsideBaseBlocks(a, b, c, p, d);
      assert false;
    } else {
      BetweenAlong(a, c, p, 0.0, q);
      MeetAt(a, b, d, e, a);
    }
  }

  lemma OnBaseLineMeets(a: Point, b: Point, c: Point, d: Point, e: Point, s: real, r: real)
    requires Cross(a, b, c) > 0.0 && !Blocks(d, a, b, c) && !Blocks(e, a, b, c) && d != e
    requires 0.0 < s < 1.0 && 0.0 < r < 1.0 && Along(d, e, r) == Along(a, c, s)
    requires Cross(a, c, d) == 0.0 && Cross(a, c, e) == 0.0
    ensures Meet(a, b, d, e)
  {
    var p := LineFraction(a, c, d);
    var q := LineFraction(a, c, e);
    var m := p + r * (q - p);
    AlongNested(a, c, p, q, r, m);
    FlatMix(p, q, r, m);
    if m != s { AlongDistinct(a, c, s, m); }
    if p < q {
      AlongBaseMeets(a, b, c, d, e, p, q, s);
    } else {
      AlongBaseMeets(a, b, c, e, d, q, p, s);
      MeetEither(a, b, d, e);
    }
  }

  lemma ProperBaseMeets(a: Point, b: Point, c: Point, d: Point, e: Point, x: Point)
    requires Cross(a, b, c) > 0.0 && !Blocks(d, a, b, c) && !Blocks(e, a, b, c) && d != e
    requires OnSegment(x, a, c) && OnSegment(x, d, e)
    ensures Meet(a, b, d, e) || Meet(b, c, d, e)
  {
    var s := SegmentFraction(x, a, c);
    var r := SegmentFraction(x, d, e);
    AlongEnds(a, c);
    AlongEnds(d, e);
    if s == 0.0 {
      MeetAt(a, b, d, e, a);
    } else if s == 1.0 {
      MeetAt(b, c, d, e, c);
    } else {
      InsideBaseBlocks(a, b, c, s, x);
      AlongReversed(d, e, r);
      if Cross(c, a, d) > 0.0 {
        TowardsApexMeets(a, b, c, d, e, s, r);
      } else if Cross(c, a, e) > 0.0 {
        TowardsApexMeets(a, b, c, e, d, s, 1.0 - r);
        MeetEither(a, b, d, e);
        MeetEither(b, c, d, e);
      } else {
        BothOnBaseLine(a, c, d, e, s, r);
        OnBaseLineMeets(a, b, c, d, e, s, r);
      }
    }
  }

  /**
   Whatever the corner and the other segment are: when no end of the segment blocks the corner, the
   segment meets the base only if it meets a side.
   */
  lemma BaseMeetsOnlyWhatSidesMeet(a: Point, b: Point, c: Point, d: Point, e: Point)
    requires !Blocks(d, a, b, c) && !Blocks(e, a, b, c) && Meet(a, c, d, e)
    ensures Meet(a, b, d, e) || Meet(b, c, d, e)
  {
    var x :| OnSegment(x, a, c) && OnSegment(x, d, e);
    CrossCyclic(a, b, c);
    if x == a {
      MeetAt(a, b, d, e, a);
    } else if x == c {
      MeetAt(b, c, d, e, c);
    } else if Cross(a, b, c) == 0.0 {
      FlatCovered(a, b, c, x);
    } else if d == e {
      PointInBase(a, b, c, d, x);
    } else if Cross(a, b, c) > 0.0 {
      ProperBaseMeets(a, b, c, d, e, x);
    } else {
      BlocksReversed(d, a, b, c);
      BlocksReversed(e, a, b, c);
      SegmentSwap(x, a, c);
      ProperBaseMeets(c, b, a, d, e, x);
      MeetEither(a, b, d, e);
      MeetEither(b, c, d, e);
    }
  }

  // A segment of no length inside the base of a proper corner blocks it.
  lemma PointInBase(a: Point, b: Point, c: Point, d: Point, x: Point)
    requires Cross(a, b, c) != 0.0 && !Blocks(d, a, b, c)
    requires OnSegment(x, a, c) && OnSegment(x, d, d)
    ensures x == a || x == c
  {
    CrossCyclic(a, b, c);
    var s := SegmentFraction(x, a, c);
    AlongEnds(a, c);
    if 0.0 < s < 1.0 {
      if Cross(a, b, c) > 0.0 {
        InsideBaseBlocks(a, b, c, s, x);
      } else {
        AlongReversed(a, c, s);
        InsideBaseBlocks(c, b, a, 1.0 - s, x);
        BlocksReversed(d, a, b, c);
      }
    }
  }
}
