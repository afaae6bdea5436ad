/**
 Exact planar predicates: points, orientation, and closed segments.

 Coordinates are exact reals.  `Orientation` is the sign of the cross product,
 which is what the orientation filter and its double-double fallback compute.
 */
module Planar {

  datatype Point = Point(x: real, y: real)

  // Twice the signed area of the triangle p, q, r: positive when r is left of p->q.
  function Cross(p: Point, q: Point, r: Point): real {
    (q.x - p.x) * (r.y - q.y) - (q.y - p.y) * (r.x - q.x)
  }

  function Orientation(p: Point, q: Point, r: Point): int {
    var d := Cross(p, q, r);
    if d > 0.0 then 1 else if d < 0.0 then -1 else 0
  }

  function Abs(r: real): real {
    if r < 0.0 then -r else r
  }

  // Lexicographic order of coordinates.
  function CompareTo(p: Point, q: Point): int {
    if p.x < q.x then -1
    else if p.x > q.x then 1
    else if p.y < q.y then -1
    else if p.y > q.y then 1
    else 0
  }

  /** One point comes before another to its left, or straight below it. */
  lemma CompareToIsOrder(p: Point, q: Point)
    ensures CompareTo(p, q) < 0 <==> p.x < q.x || (p.x == q.x && p.y < q.y)
    ensures CompareTo(p, q) > 0 <==> q.x < p.x || (q.x == p.x && q.y < p.y)
    ensures CompareTo(p, q) == 0 <==> p == q
  {
  }

  predicate Within(lo: real, v: real, hi: real) {
    lo <= v <= hi || hi <= v <= lo
  }

  // x lies on the closed segment from a to b.
  predicate OnSegment(x: Point, a: Point, b: Point) {
    && Cross(a, b, x) == 0.0
    && Within(a.x, x.x, b.x)
    && Within(a.y, x.y, b.y)
  }

  predicate IsEndOf(x: Point, a: Point, b: Point) {
    x == a || x == b
  }

  // The cross products of four points satisfy one linear relation.
  lemma CrossFourPoints(a: Point, b: Point, c: Point, d: Point)
    ensures Cross(a, b, c) == Cross(a, b, d) + Cross(b, c, d) + Cross(c, a, d)
  {
  }

  lemma CrossCyclic(a: Point, b: Point, c: Point)
    ensures Cross(a, b, c) == Cross(b, c, a) == Cross(c, a, b)
    ensures Cross(b, a, c) == -Cross(a, b, c)
    ensures Cross(a, c, b) == -Cross(a, b, c)
    ensures Cross(c, b, a) == -Cross(a, b, c)
  {
  }

  lemma MulNonNeg(a: real, b: real)
    requires a >= 0.0 && b >= 0.0
    ensures a * b >= 0.0
  {
  }

  lemma MulPos(a: real, b: real)
    requires a > 0.0 && b > 0.0
    ensures a * b > 0.0
  {
  }

  datatype Envelope = Envelope(minX: real, maxX: real, minY: real, maxY: real)

  function EnvelopeOf(p: Point): Envelope {
    Envelope(p.x, p.x, p.y, p.y)
  }

  function Expand(env: Envelope, p: Point): Envelope {
    Envelope(
      if p.x < env.minX then p.x else env.minX,
      if p.x > env.maxX then p.x else env.maxX,
      if p.y < env.minY then p.y else env.minY,
      if p.y > env.maxY then p.y else env.maxY)
  }

  predicate Covers(env: Envelope, p: Point) {
    env.minX <= p.x <= env.maxX && env.minY <= p.y <= env.maxY
  }

  predicate EnvelopesIntersect(a: Envelope, b: Envelope) {
    !(b.minX > a.maxX || b.maxX < a.minX || b.minY > a.maxY || b.maxY < a.minY)
  }

  // The triangle test: p is on no exterior side of the three edges.
  predicate TriangleIntersects(a: Point, b: Point, c: Point, p: Point) {
    var exterior := if Orientation(a, b, c) == 1 then -1 else 1;
    && exterior != Orientation(a, b, p)
    && exterior != Orientation(b, c, p)
    && exterior != Orientation(c, a, p)
  }
}
