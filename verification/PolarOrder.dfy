/**
 The radial order of points around the lowest one: clockwise by decreasing angle, and
 outward along a ray.
 */
module PolarOrder {
  import opened Planar
  import opened AngularOrder
  import opened Pasch

  // Compare p and q as seen from o; the arguments of the orientation test are taken in coordinate order.
  function PolarCompare(o: Point, p: Point, q: Point): int {
    var swap := CompareTo(p, q) < 0;
    var orient := if swap then Orientation(o, q, p) else Orientation(o, p, q);
    if orient > 0 then if swap then -1 else 1
    else if orient < 0 then if swap then 1 else -1
    // collinear: compare the distance from the origin by ordinates
    else if p.y > q.y then 1
    else if p.y < q.y then -1
    else if p.x > q.x then 1
    else if p.x < q.x then -1
    else 0
  }

  // p is not below the origin, nor left of it at the same height.
  predicate Above(o: Point, p: Point) {
    p == o || Upper(Minus(p, o))
  }

  // n is on the ray from o through f, and nearer.
  ghost predicate Nearer(o: Point, n: Point, f: Point) {
    exists t: real :: 0.0 <= t < 1.0 && n == Along(o, f, t)
  }

  // q comes clockwise of p, or outward on the same ray.
  ghost predicate Onward(o: Point, p: Point, q: Point) {
    Cross(o, p, q) < 0.0 || Nearer(o, p, q)
  }

  lemma OrientationSwap(o: Point, p: Point, q: Point)
    ensures Orientation(o, p, q) == -Orientation(o, q, p)
  {
    CrossCyclic(o, p, q);
  }

  // Points of one upper ray are ordered by height, then by abscissa.
  lemma OnOneRay(o: Point, p: Point, q: Point)
    requires Above(o, p) && Above(o, q) && Cross(o, p, q) == 0.0 && p != q
    requires p.y < q.y || (p.y == q.y && p.x < q.x)
    ensures Nearer(o, p, q)
  {
    if p == o {
      assert p == Along(o, q, 0.0);
    } else {
      var u, v := Minus(p, o), Minus(q, o);
      CrossCyclic(o, q, p);
      if v.y > 0.0 {
        var t := u.y / v.y;
        Ratio(u.y, v.y, t);
        FractionOnUpper(o, q, p, t);
      } else {
        var t := u.x / v.x;
        Ratio(u.x, v.x, t);
        assert p == Along(o, q, t);
      }
    }
  }

  lemma Ratio(u: real, v: real, t: real)
    requires v > 0.0 && 0.0 <= u < v && t == u / v
    ensures 0.0 <= t < 1.0 && u == t * v
  {
    assert t * v == u;
    SignOfFactor(v, t);
    if t >= 1.0 { MulNonNeg(t - 1.0, v); }
  }

  lemma FractionOnUpper(o: Point, q: Point, p: Point, t: real)
    requires q.y != o.y && Cross(o, q, p) == 0.0 && p.y - o.y == t * (q.y - o.y)
    ensures p == Along(o, q, t)
  {
    assert (q.x - o.x) * (p.y - o.y) == (q.y - o.y) * (p.x - o.x);
    assert (q.x - o.x) * (t * (q.y - o.y)) == (q.y - o.y) * (t * (q.x - o.x));
    assert (q.y - o.y) * (p.x - o.x - t * (q.x - o.x)) == 0.0;
    assert p.x - o.x - t * (q.x - o.x) == 0.0;
  }

  /** The comparison says which point comes first. */
  lemma PolarCompareMeans(o: Point, p: Point, q: Point)
    requires Above(o, p) && Above(o, q)
    ensures PolarCompare(o, p, q) == -PolarCompare(o, q, p)
    ensures PolarCompare(o, p, q) == 0 <==> p == q
    ensures PolarCompare(o, p, q) < 0 ==> Onward(o, p, q)
  {
    OrientationSwap(o, p, q);
    if p != q && Cross(o, p, q) == 0.0 && (p.y < q.y || (p.y == q.y && p.x < q.x)) {
      OnOneRay(o, p, q);
    }
  }

  lemma PolarCompareIs(o: Point, p: Point, q: Point)
    requires Above(o, p) && Above(o, q)
    ensures PolarCompare(o, p, q) <= 0 <==>
      Cross(o, p, q) < 0.0 || (Cross(o, p, q) == 0.0 && (p.y < q.y || (p.y == q.y && p.x <= q.x)))
  {
    OrientationSwap(o, p, q);
  }

  /** The comparison is transitive on the points above the origin. */
  lemma PolarCompareTransitive(o: Point, p: Point, q: Point, r: Point)
    requires Above(o, p) && Above(o, q) && Above(o, r)
    requires PolarCompare(o, p, q) <= 0 && PolarCompare(o, q, r) <= 0
    ensures PolarCompare(o, p, r) <= 0
  {
    PolarCompareIs(o, p, q);
    PolarCompareIs(o, q, r);
    PolarCompareIs(o, p, r);
    if p == o || q == o || r == o {
      CrossAtOrigin(o, q);
      CrossAtOrigin(o, r);
      CrossAtOrigin(o, p);
    } else {
      var u, v, w := Minus(p, o), Minus(q, o), Minus(r, o);
      CrossIsDet(o, p, q);
      CrossIsDet(o, q, r);
      CrossIsDet(o, p, r);
      DetFlip(u, v);
      DetFlip(v, w);
      DetFlip(u, w);
      UpperWeak(w, v, u);
      if Det(u, v) == 0.0 && Det(v, w) == 0.0 {
        UpperWeak(u, v, w);
      } else {
        UpperStrict(w, v, u);
      }
      hide Det;
      hide Upper;
    }
  }

  lemma DetFlip(u: Point, v: Point)
    ensures Det(u, v) == -Det(v, u)
  {
  }

  lemma CrossAtOrigin(o: Point, p: Point)
    ensures Cross(o, o, p) == 0.0 && Cross(o, p, o) == 0.0
  {
  }

  // ---- Sorting

  ghost predicate AllAbove(o: Point, s: seq<Point>) {
    forall p :: p in s ==> Above(o, p)
  }

  ghost predicate InOrder(o: Point, s: seq<Point>) {
    forall i, j :: 0 <= i < j < |s| ==> PolarCompare(o, s[i], s[j]) <= 0
  }

  lemma InsertInOrder(o: Point, s: seq<Point>, k: nat, p: Point)
    requires AllAbove(o, s) && Above(o, p) && InOrder(o, s) && k <= |s|
    requires k > 0 ==> PolarCompare(o, s[k - 1], p) <= 0
    requires k < |s| ==> PolarCompare(o, p, s[k]) <= 0
    ensures InOrder(o, s[..k] + [p] + s[k..])
  {
    var t := s[..k] + [p] + s[k..];
    hide PolarCompare;
    hide Above;
    forall i, j | 0 <= i < j < |t| ensures PolarCompare(o, t[i], t[j]) <= 0 {
      if i < k && j == k {
        assert t[i] == s[i] && s[i] in s && s[k - 1] in s;
        if i < k - 1 { PolarCompareTransitive(o, s[i], s[k - 1], p); }
      } else if i == k {
        assert t[j] == s[j - 1] && s[j - 1] in s && s[k] in s;
        if j > k + 1 { PolarCompareTransitive(o, p, s[k], s[j - 1]); }
      } else {
        assert t[i] == s[if i < k then i else i - 1] && t[j] == s[if j < k then j else j - 1];
      }
    }
  }

  // An insertion sort in the radial order.
  method SortRadially(pts: seq<Point>, o: Point) returns (sorted: seq<Point>)
    requires AllAbove(o, pts)
    ensures multiset(sorted) == multiset(pts) && InOrder(o, sorted)
  {
    sorted := [];
    for n := 0 to |pts|
      invariant multiset(sorted) == multiset(pts[..n]) && AllAbove(o, sorted) && InOrder(o, sorted)
    {
      var p := pts[n];
      assert pts[..n + 1] == pts[..n] + [p];
      assert Above(o, p) by { assert p in pts; }
      sorted := InsertSorted(sorted, p, o);
    }
    assert pts[..|pts|] == pts;
  }

  method InsertSorted(s: seq<Point>, p: Point, o: Point) returns (t: seq<Point>)
    requires AllAbove(o, s) && Above(o, p) && InOrder(o, s)
    ensures multiset(t) == multiset(s) + multiset{p} && AllAbove(o, t) && InOrder(o, t)
  {
    var k := |s|;
    while k > 0 && PolarCompare(o, p, s[k - 1]) == -1
      invariant 0 <= k <= |s| && (k < |s| ==> PolarCompare(o, p, s[k]) <= 0)
    {
      k := k - 1;
    }
    if k > 0 {
      assert s[k - 1] in s;
      PolarCompareMeans(o, p, s[k - 1]);
    }
    InsertInOrder(o, s, k, p);
    t := s[..k] + [p] + s[k..];
    InsertedElements(s, k, p);
  }

  lemma InsertedElements(s: seq<Point>, k: nat, p: Point)
    requires k <= |s|
    ensures var t := s[..k] + [p] + s[k..];
      multiset(t) == multiset(s) + multiset{p} && forall q :: q in t ==> q == p || q in s
  {
    assert s == s[..k] + s[k..];
  }

  // ---- The focal point

  // The first point is the lowest, leftmost one and the others follow in radial order.
  ghost predicate RadiallySorted(c: seq<Point>) {
    |c| > 0 && AllAbove(c[0], c) && InOrder(c[0], c)
  }

  // p is below q, or at the same height and left of it.
  predicate Lower(p: Point, q: Point) {
    p.y < q.y || (p.y == q.y && p.x < q.x)
  }

  lemma NotLowerIsAbove(o: Point, p: Point)
    ensures !Lower(p, o) <==> Above(o, p)
  {
  }

  // Sorting around the lowest point puts it first.
  lemma LowestFirst(o: Point, s: seq<Point>)
    requires AllAbove(o, s) && InOrder(o, s) && o in s
    ensures |s| > 0 && s[0] == o
  {
    var k :| 0 <= k < |s| && s[k] == o;
    if k > 0 {
      assert s[0] in s;
      PolarCompareIs(o, s[0], o);
      CrossAtOrigin(o, s[0]);
    }
  }

  /** Put the lowest point first and sort the others radially around it. */
  method PreSort(pts: array<Point>)
    requires pts.Length > 0
    modifies pts
    ensures multiset(pts[..]) == multiset(old(pts[..])) && RadiallySorted(pts[..])
  {
    for i := 1 to pts.Length
      invariant multiset(pts[..]) == multiset(old(pts[..]))
      invariant forall j :: 0 <= j < i ==> !Lower(pts[j], pts[0])
    {
      if Lower(pts[i], pts[0]) {
        pts[0], pts[i] := pts[i], pts[0];
      }
    }
    var o := pts[0];
    forall p | p in pts[..] ensures Above(o, p) {
      var j :| 0 <= j < pts.Length && pts[j] == p;
      NotLowerIsAbove(o, p);
    }
    var sorted := SortRadially(pts[..], o);
    SameElements(sorted, pts[..]);
    LowestFirst(o, sorted);
    for i := 0 to pts.Length
      invariant forall j :: 0 <= j < i ==> pts[j] == sorted[j]
    {
      pts[i] := sorted[i];
    }
    assert pts[..] == sorted;
  }

  lemma SameElements(s: seq<Point>, t: seq<Point>)
    requires multiset(s) == multiset(t)
    ensures |s| == |t| && forall p :: p in s <==> p in t
  {
    assert |s| == |multiset(s)| == |multiset(t)| == |t|;
    forall p ensures p in s <==> p in t {
      assert p in s <==> p in multiset(s);
    }
  }
}
