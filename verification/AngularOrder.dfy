/**
 Directions around a point: quadrants, the angle comparison built on them, and the
 proof that it is the counter-clockwise order of directions starting at the positive
 x-axis.
 */
module AngularOrder {
  import opened Planar

  const NE := 0
  const NW := 1
  const SW := 2
  const SE := 3

  // The quadrant of a nonzero displacement.
  function Quadrant(dx: real, dy: real): int
    requires dx != 0.0 || dy != 0.0
  {
    if dx >= 0.0 then
      if dy >= 0.0 then NE else SE
    else
      if dy >= 0.0 then NW else SW
  }

  function QuadrantOf(origin: Point, p: Point): int
    requires p != origin
  {
    Quadrant(p.x - origin.x, p.y - origin.y)
  }

  // 1 if the direction to p has the greater angle, -1 if the direction to q has, 0 if they are the same direction.
  function CompareAngle(origin: Point, p: Point, q: Point): int
    requires p != origin && q != origin
  {
    var quadrantP, quadrantQ := QuadrantOf(origin, p), QuadrantOf(origin, q);
    if quadrantP > quadrantQ then 1
    else if quadrantP < quadrantQ then -1
    else Orientation(origin, q, p)
  }

  // ---- The order of directions, by half turns

  function Minus(p: Point, o: Point): Point {
    Point(p.x - o.x, p.y - o.y)
  }

  const ZERO := Point(0.0, 0.0)

  function Det(u: Point, v: Point): real {
    u.x * v.y - u.y * v.x
  }

  // Directions with angle in [0, 180) degrees.
  predicate Upper(u: Point) {
    u.y > 0.0 || (u.y == 0.0 && u.x > 0.0)
  }

  // u comes strictly before v, counter-clockwise from the positive x-axis.
  predicate Before(u: Point, v: Point) {
    if Upper(u) == Upper(v) then Det(u, v) > 0.0 else Upper(u)
  }

  lemma CrossIsDet(o: Point, p: Point, q: Point)
    ensures Cross(o, p, q) == Det(Minus(p, o), Minus(q, o))
  {
  }

  lemma QuadrantSplits(u: Point, v: Point)
    requires u != ZERO && v != ZERO
    ensures var a, b := Quadrant(u.x, u.y), Quadrant(v.x, v.y);
      && (a < b ==> Before(u, v))
      && (a == b ==> (Before(u, v) <==> Det(u, v) > 0.0) && (Before(v, u) <==> Det(u, v) < 0.0))
  {
    SignsOfProducts(u, v);
  }

  lemma SignsOfProducts(u: Point, v: Point)
    ensures (u.x >= 0.0 && v.y >= 0.0) || (u.x <= 0.0 && v.y <= 0.0) ==> u.x * v.y >= 0.0
    ensures (u.x >= 0.0 && v.y <= 0.0) || (u.x <= 0.0 && v.y >= 0.0) ==> u.x * v.y <= 0.0
    ensures (u.y >= 0.0 && v.x >= 0.0) || (u.y <= 0.0 && v.x <= 0.0) ==> u.y * v.x >= 0.0
    ensures (u.y >= 0.0 && v.x <= 0.0) || (u.y <= 0.0 && v.x >= 0.0) ==> u.y * v.x <= 0.0
    ensures u.x * v.y == 0.0 <==> u.x == 0.0 || v.y == 0.0
    ensures u.y * v.x == 0.0 <==> u.y == 0.0 || v.x == 0.0
  {
    SignOfProduct(u.x, v.y);
    SignOfProduct(u.y, v.x);
  }

  lemma SignOfProduct(a: real, b: real)
    ensures (a >= 0.0 && b >= 0.0) || (a <= 0.0 && b <= 0.0) ==> a * b >= 0.0
    ensures (a >= 0.0 && b <= 0.0) || (a <= 0.0 && b >= 0.0) ==> a * b <= 0.0
    ensures a * b == 0.0 <==> a == 0.0 || b == 0.0
  {
  }

  // The comparison of angles is the order by half turns.
  lemma CompareAngleIsOrder(origin: Point, p: Point, q: Point)
    requires p != origin && q != origin
    ensures CompareAngle(origin, p, q) < 0 <==> Before(Minus(p, origin), Minus(q, origin))
    ensures CompareAngle(origin, p, q) > 0 <==> Before(Minus(q, origin), Minus(p, origin))
  {
    var u, v := Minus(p, origin), Minus(q, origin);
    QuadrantSplits(u, v);
    QuadrantSplits(v, u);
    CrossIsDet(origin, q, p);
  }

  // ---- A total order on directions

  lemma Plucker(u: Point, v: Point, w: Point)
    ensures v.y * Det(u, w) == u.y * Det(v, w) + w.y * Det(u, v)
  {
  }

  // Within the upper half plane, not turning right twice is not turning right.
  lemma UpperWeak(u: Point, v: Point, w: Point)
    requires Upper(u) && Upper(v) && Upper(w)
    requires Det(u, v) >= 0.0 && Det(v, w) >= 0.0
    ensures Det(u, w) >= 0.0
  {
    Plucker(u, v, w);
    SignOfProduct(u.y, Det(v, w));
    SignOfProduct(w.y, Det(u, v));
    SignOfProduct(v.y, Det(u, w));
    if v.y == 0.0 {
      SignOfProduct(u.y, v.x);
      SignOfProduct(u.x, w.y);
    }
  }

  lemma UpperStrict(u: Point, v: Point, w: Point)
    requires Upper(u) && Upper(v) && Upper(w)
    requires Det(u, v) >= 0.0 && Det(v, w) >= 0.0
    requires Det(u, v) > 0.0 || Det(v, w) > 0.0
    ensures Det(u, w) > 0.0
  {
    UpperWeak(u, v, w);
    if Det(u, w) == 0.0 {
      Plucker(u, v, w);
      SignOfProduct(u.y, Det(v, w));
      SignOfProduct(w.y, Det(u, v));
      SignOfProduct(v.x, u.y);
      SignOfProduct(v.y, w.x);
      SignOfProduct(u.x, w.y);
    }
  }

  function Opposite(u: Point): Point {
    Point(-u.x, -u.y)
  }

  lemma OppositeHalf(u: Point)
    requires u != ZERO
    ensures Upper(Opposite(u)) == !Upper(u)
  {
  }

  lemma DetOpposite(u: Point, v: Point)
    ensures Det(Opposite(u), Opposite(v)) == Det(u, v)
    ensures Det(u, Opposite(v)) == -Det(u, v) && Det(Opposite(u), v) == -Det(u, v)
    ensures Det(v, u) == -Det(u, v)
  {
  }

  lemma SameHalfStrict(u: Point, v: Point, w: Point)
    requires u != ZERO && v != ZERO && w != ZERO && Upper(u) == Upper(v) == Upper(w)
    requires Det(u, v) >= 0.0 && Det(v, w) >= 0.0
    ensures Det(u, w) >= 0.0
    ensures Det(u, v) > 0.0 || Det(v, w) > 0.0 ==> Det(u, w) > 0.0
  {
    if Upper(u) {
      UpperWeak(u, v, w);
      if Det(u, v) > 0.0 || Det(v, w) > 0.0 { UpperStrict(u, v, w); }
    } else {
      OppositeHalf(u); OppositeHalf(v); OppositeHalf(w);
      DetOpposite(u, v); DetOpposite(v, w); DetOpposite(u, w);
      UpperWeak(Opposite(u), Opposite(v), Opposite(w));
      if Det(u, v) > 0.0 || Det(v, w) > 0.0 { UpperStrict(Opposite(u), Opposite(v), Opposite(w)); }
    }
  }

  // The order of directions is a strict weak order.
  lemma BeforeIsOrder(u: Point, v: Point, w: Point)
    requires u != ZERO && v != ZERO && w != ZERO
    ensures !(Before(u, v) && Before(v, u))
    ensures Before(u, v) && Before(v, w) ==> Before(u, w)
    ensures Before(u, w) ==> Before(u, v) || Before(v, w)
  {
    DetOpposite(u, v); DetOpposite(v, w); DetOpposite(u, w);
    if Upper(u) == Upper(v) == Upper(w) {
      if Det(u, v) >= 0.0 && Det(v, w) >= 0.0 { SameHalfStrict(u, v, w); }
      if Det(w, v) >= 0.0 && Det(v, u) >= 0.0 { SameHalfStrict(w, v, u); }
    }
  }

  predicate SameDirection(u: Point, v: Point) {
    Det(u, v) == 0.0 && u.x * v.x + u.y * v.y > 0.0
  }

  // Directions that the order does not separate are the same direction.
  lemma UnseparatedIsSame(u: Point, v: Point)
    requires u != ZERO && v != ZERO
    ensures !Before(u, v) && !Before(v, u) <==> SameDirection(u, v)
  {
    SignOfProduct(u.x, v.x);
    SignOfProduct(u.y, v.y);
    SignsOfProducts(u, v);
  }

  /**
   The comparison of angles orders the directions around a point: it is antisymmetric and
   transitive, and it only identifies points in the same direction.
   */
  lemma CompareAngleOrders(origin: Point, p: Point, q: Point, r: Point)
    requires p != origin && q != origin && r != origin
    ensures CompareAngle(origin, p, q) == -CompareAngle(origin, q, p)
    ensures CompareAngle(origin, p, q) <= 0 && CompareAngle(origin, q, r) <= 0 ==> CompareAngle(origin, p, r) <= 0
    ensures CompareAngle(origin, p, q) < 0 && CompareAngle(origin, q, r) < 0 ==> CompareAngle(origin, p, r) < 0
    ensures CompareAngle(origin, p, q) == 0 <==> SameDirection(Minus(p, origin), Minus(q, origin))
  {
    var u, v, w := Minus(p, origin), Minus(q, origin), Minus(r, origin);
    CompareAngleIsOrder(origin, p, q);
    CompareAngleIsOrder(origin, q, p);
    CompareAngleIsOrder(origin, q, r);
    CompareAngleIsOrder(origin, p, r);
    BeforeIsOrder(u, v, w);
    BeforeIsOrder(w, v, u);
    UnseparatedIsSame(u, v);
  }

  // ---- The circle of directions, without a starting axis

  // Turning counter-clockwise from u, v is met strictly before w.
  // (Only the sides of lines are used: no axis, no quadrant.)
  predicate InTurn(u: Point, v: Point, w: Point) {
    if Det(u, w) > 0.0 then Det(u, v) > 0.0 && Det(v, w) > 0.0
    else if Det(u, w) < 0.0 then Det(u, v) > 0.0 || Det(v, w) > 0.0
    else Det(u, v) > 0.0
  }

  predicate Distinct3(u: Point, v: Point, w: Point) {
    !SameDirection(u, v) && !SameDirection(v, w) && !SameDirection(u, w)
  }

  lemma InTurnSameHalf(u: Point, v: Point, w: Point)
    requires u != ZERO && v != ZERO && w != ZERO && Distinct3(u, v, w)
    requires Upper(u) == Upper(v) == Upper(w)
    ensures InTurn(u, v, w) <==>
      (Before(u, v) && Before(v, w)) || (Before(v, w) && Before(w, u)) || (Before(w, u) && Before(u, v))
  {
    UnseparatedIsSame(u, v); UnseparatedIsSame(v, w); UnseparatedIsSame(u, w);
    DetOpposite(u, v); DetOpposite(v, w); DetOpposite(u, w);
    BeforeIsOrder(u, v, w); BeforeIsOrder(v, w, u); BeforeIsOrder(w, u, v);
    BeforeIsOrder(w, v, u); BeforeIsOrder(v, u, w); BeforeIsOrder(u, w, v);
  }

  // Two of the directions in one half, the third in the other.
  lemma InTurnMixed(u: Point, v: Point, w: Point)
    requires u != ZERO && v != ZERO && w != ZERO && Distinct3(u, v, w)
    requires Upper(u) == Upper(v) != Upper(w)
    ensures InTurn(u, v, w) <==> Det(u, v) > 0.0
    ensures InTurn(v, w, u) <==> Det(u, v) > 0.0
    ensures InTurn(w, u, v) <==> Det(u, v) > 0.0
  {
    var o := Opposite(w);
    OppositeHalf(w);
    UnseparatedIsSame(u, v);
    DetOpposite(u, v); DetOpposite(v, w); DetOpposite(u, w);
    if Det(u, v) >= 0.0 && Det(v, o) >= 0.0 { SameHalfStrict(u, v, o); }
    if Det(v, u) >= 0.0 && Det(u, o) >= 0.0 { SameHalfStrict(v, u, o); }
    if Det(o, u) >= 0.0 && Det(u, v) >= 0.0 { SameHalfStrict(o, u, v); }
    if Det(o, v) >= 0.0 && Det(v, u) >= 0.0 { SameHalfStrict(o, v, u); }
    if Det(u, o) >= 0.0 && Det(o, v) >= 0.0 { SameHalfStrict(u, o, v); }
    if Det(v, o) >= 0.0 && Det(o, u) >= 0.0 { SameHalfStrict(v, o, u); }
  }

  /** The order that starts at the x-axis runs once around the circle. */
  lemma OrderIsCyclic(u: Point, v: Point, w: Point)
    requires u != ZERO && v != ZERO && w != ZERO && Distinct3(u, v, w)
    ensures InTurn(u, v, w) <==>
      (Before(u, v) && Before(v, w)) || (Before(v, w) && Before(w, u)) || (Before(w, u) && Before(u, v))
  {
    if Upper(u) == Upper(v) == Upper(w) {
      InTurnSameHalf(u, v, w);
    } else {
      UnseparatedIsSame(u, v); UnseparatedIsSame(v, w); UnseparatedIsSame(u, w);
      DetOpposite(u, v); DetOpposite(v, w); DetOpposite(u, w);
      if Upper(u) == Upper(v) {
        InTurnMixed(u, v, w);
      } else if Upper(v) == Upper(w) {
        InTurnMixed(v, w, u);
      } else {
        InTurnMixed(w, u, v);
      }
    }
  }
}
