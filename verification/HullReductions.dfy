/**
 Reducing a large input before the scan: points inside the octagon of extreme points go.
 */
module HullReductions {
  import opened Planar
  import opened PolarOrder
  import opened RayCrossings

  // The eight directions: an octagon point minimises the value of its direction.
  function Key(k: nat, p: Point): real {
    if k == 0 then p.x
    else if k == 1 then p.x - p.y
    else if k == 2 then -p.y
    else if k == 3 then -(p.x + p.y)
    else if k == 4 then -p.x
    else if k == 5 then -(p.x - p.y)
    else if k == 6 then p.y
    else p.x + p.y
  }

  // The index of the first of the points that are extreme in direction k.
  function FirstLeast(pts: seq<Point>, k: nat): (m: nat)
    requires pts != []
    ensures m < |pts|
    ensures forall i :: 0 <= i < |pts| ==> Key(k, pts[m]) <= Key(k, pts[i])
    ensures forall i :: 0 <= i < m ==> Key(k, pts[m]) < Key(k, pts[i])
  {
    var n := |pts| - 1;
    if n == 0 then 0
    else
      var m := FirstLeast(pts[..n], k);
      if Key(k, pts[n]) < Key(k, pts[m]) then n else m
  }

  function Octagon(pts: seq<Point>): (oct: seq<nat>)
    requires pts != []
    ensures |oct| == 8 && forall k :: 0 <= k < 8 ==> oct[k] == FirstLeast(pts, k)
  {
    seq(8, k requires 0 <= k < 8 => FirstLeast(pts, k))
  }

  // The octagon of the first i points.
  ghost predicate OctagonOf(inputPts: seq<Point>, i: nat, pts: seq<nat>) {
    0 < i <= |inputPts| && |pts| == 8 && forall k :: 0 <= k < 8 ==> pts[k] == FirstLeast(inputPts[..i], k)
  }

  /** Find the points that are extreme in eight directions, by index. */
  method ComputeInnerOctolateralPts(inputPts: seq<Point>) returns (pts: seq<nat>)
    requires inputPts != []
    ensures pts == Octagon(inputPts)
  {
    pts := seq(8, _ => 0);
    for i := 1 to |inputPts|
      invariant OctagonOf(inputPts, i, pts)
    {
      ghost var first, more := inputPts[..i], inputPts[..i + 1];
      assert more[..i] == first;
      hide Key;
      // the eight directions, one after the other
      for k := 0 to 8
        invariant |pts| == 8 && forall j :: k <= j < 8 ==> pts[j] == FirstLeast(first, j)
        invariant forall j :: 0 <= j < k ==> pts[j] == FirstLeast(more, j)
      {
        if Key(k, inputPts[i]) < Key(k, inputPts[pts[k]]) {
          pts := pts[k := i];
        }
      }
    }
    assert inputPts[..|inputPts|] == inputPts;
  }

  // Consecutive equal entries are merged.
  function Unique(s: seq<nat>): (u: seq<nat>)
    ensures s != [] ==> u != [] && u[|u| - 1] == s[|s| - 1]
    ensures forall t :: t in s <==> t in u
    ensures forall t :: 0 < t < |u| ==> u[t - 1] != u[t]
  {
    if |s| <= 1 then s
    else
      var u := Unique(s[..|s| - 1]);
      if s[|s| - 2] == s[|s| - 1] then u else u + [s[|s| - 1]]
  }

  function PointsAt(pts: seq<Point>, indices: seq<nat>): (ps: seq<Point>)
    requires forall t :: 0 <= t < |indices| ==> indices[t] < |pts|
    ensures |ps| == |indices| && forall t :: 0 <= t < |indices| ==> ps[t] == pts[indices[t]]
  {
    seq(|indices|, t requires 0 <= t < |indices| => pts[indices[t]])
  }

  // The octagon's ring, closed, without repeated indices.
  function InnerRing(pts: seq<Point>): (ring: seq<Point>)
    requires pts != []
    ensures ClosedRing(ring) && forall v :: v in ring ==> v in pts
  {
    var u := Unique(Octagon(pts));
    UniqueInRange(pts);
    PointsAt(pts, u) + [pts[u[0]]]
  }

  lemma UniqueInRange(pts: seq<Point>)
    requires pts != []
    ensures forall t :: 0 <= t < |Unique(Octagon(pts))| ==> Unique(Octagon(pts))[t] < |pts|
  {
    var u := Unique(Octagon(pts));
    forall t | 0 <= t < |u| ensures u[t] < |pts| {
      assert u[t] in Octagon(pts);
    }
  }

  // The octagon has three corners or more, counting changes from one direction to the next.
  predicate HasInnerRing(pts: seq<Point>)
    requires pts != []
  {
    |Unique(Octagon(pts))| >= 3
  }

  // ---- When the octagon is given up

  lemma {:induction false} OneRun(s: seq<nat>, k: nat)
    requires |Unique(s)| <= 1 && k < |s|
    ensures s[k] == s[|s| - 1]
  {
    if |s| > 1 && k < |s| - 1 { OneRun(s[..|s| - 1], k); }
  }

  // Two entries at most: one run of each.
  lemma {:induction false} TwoRuns(s: seq<nat>) returns (n: nat)
    requires s != [] && |Unique(s)| <= 2
    ensures 1 <= n <= |s|
    ensures forall k :: 0 <= k < |s| ==> s[k] == if k < n then s[0] else s[|s| - 1]
  {
    var before := s[..|s| - 1];
    if |s| == 1 {
      n := 1;
    } else if s[|s| - 2] == s[|s| - 1] {
      n := TwoRuns(before);
      assert forall k :: 0 <= k < |before| ==> s[k] == before[k];
    } else {
      n := |s| - 1;
      forall k | 0 <= k < n ensures s[k] == s[0] {
        OneRun(before, k);
        OneRun(before, 0);
      }
    }
  }

  // The octagon has two corners at most, first a and then b.
  ghost predicate GivenUpAt(pts: seq<Point>, a: Point, b: Point) {
    && pts != [] && !HasInnerRing(pts)
    && a == pts[Octagon(pts)[0]] && b == pts[Octagon(pts)[7]]
  }

  ghost predicate AllOnLine(pts: seq<Point>, a: Point, b: Point) {
    forall p :: p in pts ==> Cross(a, b, p) == 0.0
  }

  // The two are level, upright, or on a diagonal.
  predicate Aligned(a: Point, b: Point) {
    a.x == b.x || a.y == b.y || a.x - a.y == b.x - b.y || a.x + a.y == b.x + b.y
  }

  // Point a is least in the first n directions and b in the others.
  predicate ShareDirections(a: Point, b: Point, n: nat, p: Point) {
    forall k {:trigger Key(k, p)} :: 0 <= k < 8 ==> Key(k, if k < n then a else b) <= Key(k, p)
  }

  lemma GivenUpShares(pts: seq<Point>, a: Point, b: Point) returns (n: nat)
    requires GivenUpAt(pts, a, b)
    ensures 1 <= n <= 8 && a in pts && b in pts
    ensures forall p :: p in pts ==> ShareDirections(a, b, n, p)
  {
    var oct := Octagon(pts);
    n := TwoRuns(oct);
    forall p | p in pts ensures ShareDirections(a, b, n, p) {
      var i :| 0 <= i < |pts| && pts[i] == p;
      forall k | 0 <= k < 8 ensures Key(k, if k < n then a else b) <= Key(k, p) {
        assert pts[oct[k]] == if k < n then a else b;
        assert Key(k, pts[FirstLeast(pts, k)]) <= Key(k, pts[i]);
      }
    }
  }

  lemma SharedKeys(a: Point, b: Point, n: nat, p: Point)
    requires ShareDirections(a, b, n, p)
    ensures Key(0, if 0 < n then a else b) <= Key(0, p) && Key(4, if 4 < n then a else b) <= Key(4, p)
    ensures Key(1, if 1 < n then a else b) <= Key(1, p) && Key(5, if 5 < n then a else b) <= Key(5, p)
    ensures Key(2, if 2 < n then a else b) <= Key(2, p) && Key(6, if 6 < n then a else b) <= Key(6, p)
    ensures Key(3, if 3 < n then a else b) <= Key(3, p) && Key(7, if 7 < n then a else b) <= Key(7, p)
  {
    hide Key;
  }

  // All of them have the same value in one of the directions.
  lemma SameValue(k: nat, a: Point, b: Point, p: Point)
    requires k < 4 && Key(k, a) == Key(k, b) == Key(k, p)
    ensures Cross(a, b, p) == 0.0
  {
    if k == 3 {
      assert b.y - a.y == -(b.x - a.x) && p.y - b.y == -(p.x - b.x);
    } else if k == 1 {
      assert b.y - a.y == b.x - a.x && p.y - b.y == p.x - b.x;
    }
  }

  // The two corners, and how the other points lie between them.
  lemma SharesAlign(a: Point, b: Point, n: nat)
    requires 1 <= n <= 8 && ShareDirections(a, b, n, a) && ShareDirections(a, b, n, b)
    ensures Aligned(a, b) || (n == 4 && a.x < b.x && b.x + b.y < a.x + a.y)
  {
    SharedKeys(a, b, n, a);
    SharedKeys(a, b, n, b);
  }

  lemma AlignedOnLine(a: Point, b: Point, n: nat, p: Point)
    requires 1 <= n <= 8 && Aligned(a, b)
    requires ShareDirections(a, b, n, a) && ShareDirections(a, b, n, b) && ShareDirections(a, b, n, p)
    ensures exists k :: 0 <= k < 4 && Key(k, a) == Key(k, b) == Key(k, p)
  {
    SharedKeys(a, b, n, a);
    SharedKeys(a, b, n, b);
    SharedKeys(a, b, n, p);
    var k := if n < 4 then n else if n > 4 then n - 5 else if a.x == b.x then 0 else 3;
    assert Key(k, a) == Key(k, b) == Key(k, p);
  }

  // The third corner of a triangle whose octagon is given up.
  function Bend(a: Point, b: Point): Point {
    Point(a.x, b.x + b.y - a.x)
  }

  lemma BendIsGivenUp(a: Point, b: Point)
    requires a.x < b.x && b.x + b.y < a.x + a.y
    ensures GivenUpAt([a, b, Bend(a, b)], a, b)
    ensures Cross(a, b, Bend(a, b)) != 0.0
  {
    var c := Bend(a, b);
    var pts := [a, b, c];
    forall k | 0 <= k < 8 ensures FirstLeast(pts, k) == if k < 4 then 0 else 1 {
      LeastOfThree(a, b, c, k);
    }
    hide Key;
    UniqueOfTwo(Octagon(pts));
    BendTurns(a, b, c, b.x - a.x, b.y - a.y);
  }

  lemma BendTurns(a: Point, b: Point, c: Point, dx: real, dy: real)
    requires dx == b.x - a.x && dy == b.y - a.y && dx == c.y - b.y && -dx == c.x - b.x
    requires dx > 0.0 && dx + dy < 0.0
    ensures Cross(a, b, c) != 0.0
  {
    assert Cross(a, b, c) == dx * dx - dy * -dx == dx * (dx + dy);
    NegativeProduct(dx, dx + dy);
  }

  lemma NegativeProduct(u: real, v: real)
    requires u > 0.0 && v < 0.0
    ensures u * v < 0.0
  {
  }

  lemma LeastOfThree(a: Point, b: Point, c: Point, k: nat)
    requires a.x < b.x && b.x + b.y < a.x + a.y && c == Bend(a, b) && k < 8
    ensures FirstLeast([a, b, c], k) == if k < 4 then 0 else 1
  {
    var m := FirstLeast([a, b, c], k);
    assert [a, b, c][0] == a && [a, b, c][1] == b && [a, b, c][2] == c;
    assert if k < 4 then Key(k, a) <= Key(k, c) && Key(k, a) < Key(k, b)
           else Key(k, b) <= Key(k, c) && Key(k, b) < Key(k, a);
    hide Key;
  }

  // Four entries of one kind, then four of another: two are left.
  lemma UniqueOfTwo(s: seq<nat>)
    requires |s| == 8 && forall k :: 0 <= k < 8 ==> s[k] == if k < 4 then 0 else 1
    ensures |Unique(s)| == 2
  {
    UniqueSteps(s, 8);
    assert s[..8] == s;
  }

  lemma {:induction false} UniqueSteps(s: seq<nat>, n: nat)
    requires |s| == 8 && 1 <= n <= 8 && forall k :: 0 <= k < 8 ==> s[k] == if k < 4 then 0 else 1
    ensures |Unique(s[..n])| == if n <= 4 then 1 else 2
  {
    if n > 1 {
      UniqueSteps(s, n - 1);
      assert s[..n][..n - 1] == s[..n - 1];
    }
  }

  /**
   What a given up octagon says of the points: they must be on a line exactly when its two corners are
   level, upright or on a diagonal. Otherwise other points with the same corners are not.
   */
  lemma GivenUpMeansLine(pts: seq<Point>, a: Point, b: Point)
    requires GivenUpAt(pts, a, b)
    ensures Aligned(a, b) <==> forall others :: GivenUpAt(others, a, b) ==> AllOnLine(others, a, b)
  {
    if Aligned(a, b) {
      forall others | GivenUpAt(others, a, b) ensures AllOnLine(others, a, b) {
        AlignedMeansLine(others, a, b);
      }
    } else {
      var n := GivenUpShares(pts, a, b);
      SharesAlign(a, b, n);
      BendIsGivenUp(a, b);
      assert Bend(a, b) in [a, b, Bend(a, b)];
      assert !AllOnLine([a, b, Bend(a, b)], a, b);
    }
  }

  lemma AlignedMeansLine(pts: seq<Point>, a: Point, b: Point)
    requires GivenUpAt(pts, a, b) && Aligned(a, b)
    ensures AllOnLine(pts, a, b)
  {
    var n := GivenUpShares(pts, a, b);
    forall p | p in pts ensures Cross(a, b, p) == 0.0 {
      AlignedOnLine(a, b, n, p);
      var k :| 0 <= k < 4 && Key(k, a) == Key(k, b) == Key(k, p);
      SameValue(k, a, b, p);
    }
  }

  // ---- The ring turns one way

  // The next of the eight directions.
  function NextKey(k: nat): (n: nat)
    requires k < 8
    ensures n < 8
  {
    if k == 7 then 0 else k + 1
  }

  // The side of a third point from the values in two neighbouring directions.
  lemma CrossByKeys(k: nat, a: Point, b: Point, c: Point)
    requires k < 8
    ensures var n := NextKey(k);
      Cross(a, b, c) == (Key(n, b) - Key(n, a)) * (Key(k, c) - Key(k, b)) -
                        (Key(k, b) - Key(k, a)) * (Key(n, c) - Key(n, b))
  {
  }

  lemma CrossFromStart(a: Point, b: Point, c: Point)
    ensures Cross(a, b, c) == -Cross(b, a, c)
  {
  }

  // What is least in direction k, in the next one, and in direction j.
  ghost predicate LeastThere(k: nat, j: nat, a: Point, b: Point, c: Point)
    requires k < 8 && j < 8
  {
    && Key(k, a) <= Key(k, b) && Key(k, a) <= Key(k, c)
    && Key(NextKey(k), b) <= Key(NextKey(k), a) && Key(NextKey(k), b) <= Key(NextKey(k), c)
    && Key(j, c) <= Key(j, a) && Key(j, c) <= Key(j, b)
  }

  // In any other direction, c does not reach out between the two.
  lemma NotBetween(k: nat, j: nat, a: Point, b: Point, c: Point)
    requires k < 8 && j < 8 && j != k && j != NextKey(k) && LeastThere(k, j, a, b, c)
    ensures Key(k, c) >= Key(k, b) || Key(NextKey(k), c) >= Key(NextKey(k), a)
  {
  }

  lemma LeastParts(k: nat, j: nat, a: Point, b: Point, c: Point)
    requires k < 8 && j < 8 && LeastThere(k, j, a, b, c)
    ensures Key(k, a) <= Key(k, b) && Key(k, a) <= Key(k, c)
    ensures Key(NextKey(k), b) <= Key(NextKey(k), a) && Key(NextKey(k), b) <= Key(NextKey(k), c)
  {
    hide Key;
  }

  lemma TurnsRight(k: nat, j: nat, a: Point, b: Point, c: Point)
    requires k < 8 && j < 8 && j != k && j != NextKey(k) && LeastThere(k, j, a, b, c)
    ensures Cross(a, b, c) <= 0.0
  {
    hide *;
    var n := NextKey(k);
    LeastParts(k, j, a, b, c);
    NotBetween(k, j, a, b, c);
    CrossByKeys(k, a, b, c);
    CrossByKeys(k, b, a, c);
    CrossFromStart(a, b, c);
    SideOfThird(Key(k, a), Key(k, b), Key(k, c), Key(n, a), Key(n, b), Key(n, c), Cross(a, b, c));
  }

  lemma SideOfThird(ua: real, ub: real, uc: real, va: real, vb: real, vc: real, cross: real)
    requires ua <= ub && ua <= uc && vb <= va && vb <= vc && (uc >= ub || vc >= va)
    requires cross == (vb - va) * (uc - ub) - (ub - ua) * (vc - vb)
    requires -cross == (va - vb) * (uc - ua) - (ua - ub) * (vc - va)
    ensures cross <= 0.0
  {
    if uc >= ub {
      NotNegative(va - vb, uc - ub);
      NotNegative(ub - ua, vc - vb);
      assert (vb - va) * (uc - ub) == -((va - vb) * (uc - ub));
    } else {
      NotNegative(va - vb, uc - ua);
      NotNegative(ub - ua, vc - va);
      assert (ua - ub) * (vc - va) == -((ub - ua) * (vc - va));
    }
  }

  lemma NotNegative(u: real, v: real)
    requires u >= 0.0 && v >= 0.0
    ensures u * v >= 0.0
  {
  }

  // The corners of directions k, the next one, and j.
  lemma CornersTurn(pts: seq<Point>, k: nat, j: nat)
    requires pts != [] && k < 8 && j < 8
    ensures var o := Octagon(pts); Cross(pts[o[k]], pts[o[NextKey(k)]], pts[o[j]]) <= 0.0
  {
    var o := Octagon(pts);
    if j == k || j == NextKey(k) {
      hide Key;
    } else {
      hide Key;
      hide Cross;
      TurnsRight(k, j, pts[o[k]], pts[o[NextKey(k)]], pts[o[j]]);
    }
  }

  lemma {:induction false} UniqueSource(s: seq<nat>, t: nat) returns (k: nat)
    requires 0 < t < |Unique(s)|
    ensures 0 < k < |s| && s[k - 1] == Unique(s)[t - 1] && s[k] == Unique(s)[t]
  {
    var n := |s| - 1;
    if t < |Unique(s[..n])| {
      k := UniqueSource(s[..n], t);
    } else {
      k := n;
    }
  }

  lemma {:induction false} UniqueStart(s: seq<nat>)
    requires s != []
    ensures Unique(s) != [] && Unique(s)[0] == s[0]
  {
    if |s| > 1 { UniqueStart(s[..|s| - 1]); }
  }

  lemma NextOf(k: nat)
    requires k < 8
    ensures NextKey(k) == if k == 7 then 0 else k + 1
  {
  }

  lemma RingCorners(pts: seq<Point>, u: seq<nat>, i: nat)
    requires pts != [] && u == Unique(Octagon(pts)) && i < |InnerRing(pts)|
    ensures |InnerRing(pts)| == |u| + 1 && u != []
    ensures var e := if i < |u| then u[i] else u[0]; e < |pts| && InnerRing(pts)[i] == pts[e] && e in Octagon(pts)
  {
    UniqueInRange(pts);
  }

  /** The inner ring turns right all around: each of its corners is on or right of each of its segments. */
  lemma InnerRingTurnsRight(pts: seq<Point>, i: nat, v: Point)
    requires pts != [] && i < |InnerRing(pts)| - 1 && v in InnerRing(pts)
    ensures Cross(InnerRing(pts)[i], InnerRing(pts)[i + 1], v) <= 0.0
  {
    hide *;
    var o, ring := Octagon(pts), InnerRing(pts);
    var u := Unique(o);
    UniqueStart(o);
    var m :| 0 <= m < |ring| && ring[m] == v;
    RingCorners(pts, u, m);
    RingCorners(pts, u, i);
    RingCorners(pts, u, i + 1);
    var e := if m < |u| then u[m] else u[0];
    var j :| 0 <= j < 8 && o[j] == e;
    if i + 1 < |u| {
      var k := UniqueSource(o, i + 1);
      CornersTurn(pts, k - 1, j);
      NextOf(k - 1);
    } else {
      CornersTurn(pts, 7, j);
      NextOf(7);
    }
  }

  method ComputeInnerOctolateralRing(inputPts: seq<Point>) returns (ok: bool, dest: seq<Point>)
    requires inputPts != []
    ensures ok == HasInnerRing(inputPts) && (ok ==> dest == InnerRing(inputPts))
  {
    var octagon := ComputeInnerOctolateralPts(inputPts);
    var unique := Unique(octagon);
    if |unique| < 3 { return false, []; }
    UniqueInRange(inputPts);
    dest := PointsAt(inputPts, unique);
    dest := dest + [dest[0]];
    ok := true;
  }

  predicate NoDuplicates(s: seq<Point>) {
    forall i, j :: 0 <= i < j < |s| ==> s[i] != s[j]
  }

  // What reducing keeps: the ring's own points and those outside it, each once.
  ghost predicate ReducedTo(pts: seq<Point>, reduced: seq<Point>)
    requires pts != []
  {
    && (forall p :: p in reduced <==> p in InnerRing(pts) || (p in pts && Located(p, InnerRing(pts)) == Exterior))
    && |reduced| >= 3 && (NoDuplicates(reduced) || |reduced| == 3)
  }

  // The elements of a set, each once.
  method Listed(s: set<Point>) returns (l: seq<Point>)
    ensures NoDuplicates(l) && forall p :: p in l <==> p in s
  {
    l := [];
    var rest := s;
    while rest != {}
      invariant NoDuplicates(l) && rest <= s && forall p :: p in l <==> p in s && p !in rest
    {
      var p :| p in rest;
      assert p !in l;
      l := l + [p];
      rest := rest - {p};
    }
  }

  // Repeat the first point until there are three.
  method PadArray3(pts: seq<Point>) returns (padded: seq<Point>)
    requires pts != []
    ensures |padded| == if |pts| < 3 then 3 else |pts|
    ensures |pts| >= 3 ==> padded == pts
    ensures forall p :: p in padded <==> p in pts
  {
    padded := pts;
    for i := |pts| to if |pts| < 3 then 3 else |pts|
      invariant |padded| == i && pts <= padded && forall p :: p in padded <==> p in pts
    {
      assert pts[0] in pts;
      padded := padded + [pts[0]];
    }
  }

  /** Drop the points inside the octagon of extreme points. */
  method Reduce(pts: seq<Point>) returns (inputPts: seq<Point>)
    requires pts != []
    ensures HasInnerRing(pts) ==> ReducedTo(pts, inputPts)
    ensures !HasInnerRing(pts) ==> inputPts == pts
  {
    var ok, polyPts := ComputeInnerOctolateralRing(pts);
    if !ok { return pts; }
    var reducedSet := set p | p in polyPts;
    for i := 0 to |pts|
      invariant forall p :: p in reducedSet <==> p in polyPts || (p in pts[..i] && Located(p, polyPts) == Exterior)
    {
      hide *;
      assert pts[..i + 1] == pts[..i] + [pts[i]];
      var location := LocatePointInRing(pts[i], polyPts);
      if location == Exterior {
        reducedSet := reducedSet + {pts[i]};
      }
    }
    assert pts[..|pts|] == pts;
    hide *;
    inputPts := Listed(reducedSet);
    assert polyPts[0] in inputPts;
    ghost var listed := inputPts;
    if |inputPts| < 3 {
      inputPts := PadArray3(inputPts);
    }
    IsReducedTo(pts, listed, inputPts);
  }

  lemma IsReducedTo(pts: seq<Point>, listed: seq<Point>, reduced: seq<Point>)
    requires pts != [] && NoDuplicates(listed) && |reduced| == (if |listed| < 3 then 3 else |listed|)
    requires |listed| >= 3 ==> reduced == listed
    requires forall p :: p in listed <==> p in InnerRing(pts) || (p in pts && Located(p, InnerRing(pts)) == Exterior)
    requires forall p :: p in reduced <==> p in listed
    ensures ReducedTo(pts, reduced)
  {
    hide InnerRing;
    hide Located;
  }

  // ---- What reducing keeps

  // All points of s are on or right of the line from a to b.
  ghost predicate AllRight(s: seq<Point>, a: Point, b: Point) {
    forall p :: p in s ==> Cross(a, b, p) <= 0.0
  }

  /** A point that a line separates strictly from the octagon is kept. */
  lemma ExtremeIsKept(pts: seq<Point>, reduced: seq<Point>, n: Point, p: Point)
    requires pts != [] && ReducedTo(pts, reduced) && p in pts
    requires forall v :: v in InnerRing(pts) ==> Side(n, p, v) > 0.0
    ensures p in reduced
  {
    SeparatedIsExterior(n, p, InnerRing(pts));
  }

  lemma SideIsCross(a: Point, b: Point, p: Point, v: Point)
    ensures Side(Point(b.y - a.y, -(b.x - a.x)), p, v) == Cross(a, b, p) - Cross(a, b, v)
  {
  }

  /** Every half-plane that holds the kept points holds all points. */
  lemma ReducedKeepsSides(pts: seq<Point>, reduced: seq<Point>, a: Point, b: Point)
    requires pts != [] && ReducedTo(pts, reduced) && AllRight(reduced, a, b)
    ensures AllRight(pts, a, b)
  {
    var n := Point(b.y - a.y, -(b.x - a.x));
    forall p | p in pts ensures Cross(a, b, p) <= 0.0 {
      if Cross(a, b, p) > 0.0 {
        forall v | v in InnerRing(pts) ensures Side(n, p, v) > 0.0 {
          assert v in reduced;
          SideIsCross(a, b, p, v);
          hide *;
        }
        ExtremeIsKept(pts, reduced, n, p);
        assert false;
      }
    }
  }

  /** Of two or more different points, two different ones are kept. */
  lemma ReducedStaysWide(pts: seq<Point>, reduced: seq<Point>)
    requires pts != [] && HasInnerRing(pts) && ReducedTo(pts, reduced)
    ensures exists i, j :: 0 <= i < j < |reduced| && reduced[i] != reduced[j]
  {
    var u := Unique(Octagon(pts));
    UniqueInRange(pts);
    assert u[0] != u[1] && u[0] in u && u[1] in u;
    var p, q := pts[u[0]], pts[u[1]];
    OctagonPointsDiffer(pts, u[0], u[1]);
    assert InnerRing(pts)[0] == p && InnerRing(pts)[1] == q;
    assert p in reduced && q in reduced;
    TwoDiffer(reduced, p, q);
  }

  lemma TwoDiffer(s: seq<Point>, p: Point, q: Point)
    requires p in s && q in s && p != q
    ensures exists i, j :: 0 <= i < j < |s| && s[i] != s[j]
  {
    var i :| 0 <= i < |s| && s[i] == p;
    var j :| 0 <= j < |s| && s[j] == q;
    assert if i < j then s[i] != s[j] else s[j] != s[i];
  }

  lemma OctagonPointsDiffer(pts: seq<Point>, i: nat, j: nat)
    requires pts != [] && i in Octagon(pts) && j in Octagon(pts) && i != j
    ensures pts[i] != pts[j]
  {
    var k :| 0 <= k < 8 && FirstLeast(pts, k) == i;
    var m :| 0 <= m < 8 && FirstLeast(pts, m) == j;
  }
}
