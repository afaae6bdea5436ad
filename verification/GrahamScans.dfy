/**
 The Graham scan over radially sorted points: its stack always holds a chain with every
 point met so far on its right, so it never empties and the closed chain is the hull.
 */
module GrahamScans {
  import opened Planar
  import opened Pasch
  import opened PolarOrder

  // ---- One new point

  // The cross products around a base point satisfy the Pluecker relation.
  lemma CrossPluecker(b: Point, u: Point, v: Point, w: Point, z: Point)
    ensures Cross(b, v, z) * Cross(b, u, w) == Cross(b, u, v) * Cross(b, w, z) + Cross(b, u, z) * Cross(b, v, w)
  {
  }

  lemma SignFromProduct(p: real, f: real)
    requires (f < 0.0 && p * f >= 0.0) || (f > 0.0 && p * f <= 0.0)
    ensures p <= 0.0
  {
    if p > 0.0 {
      if f > 0.0 { MulPos(p, f); } else { MulPos(p, -f); }
    }
  }

  lemma MulNonPos(a: real, b: real)
    requires (a <= 0.0 && b >= 0.0) || (a >= 0.0 && b <= 0.0)
    ensures a * b <= 0.0
  {
  }

  lemma MulBothNonPos(a: real, b: real)
    requires a <= 0.0 && b <= 0.0
    ensures a * b >= 0.0
  {
  }

  // Cross products with a point n on the ray from o through f.
  lemma NearerMeans(o: Point, n: Point, f: Point, x: Point) returns (t: real)
    requires Nearer(o, n, f)
    ensures 0.0 <= t < 1.0
    ensures Cross(o, n, x) == t * Cross(o, f, x) && Cross(n, f, x) == (1.0 - t) * Cross(o, f, x)
  {
    t :| 0.0 <= t < 1.0 && n == Along(o, f, t);
  }

  lemma OnwardTurns(o: Point, p: Point, q: Point)
    requires Onward(o, p, q)
    ensures Cross(o, p, q) <= 0.0
    ensures Cross(o, p, q) == 0.0 ==> Nearer(o, p, q)
  {
    if Nearer(o, p, q) {
      var t := NearerMeans(o, p, q, q);
      assert Cross(o, q, q) == 0.0;
    }
  }

  // When the chain e, q stays on one ray, no point met before q lies off that ray.
  lemma OnRayOf(o: Point, e: Point, q: Point, x: Point)
    requires Nearer(o, e, q) && Cross(e, q, x) <= 0.0
    ensures Cross(o, q, x) <= 0.0
  {
    var t := NearerMeans(o, e, q, x);
    if Cross(o, q, x) > 0.0 { MulPos(1.0 - t, Cross(o, q, x)); }
  }

  /** The new point r is right of a chain edge a -> b if it is right of the next edge b -> d. */
  lemma RightOfLower(o: Point, a: Point, b: Point, d: Point, r: Point)
    requires Onward(o, a, b) && Onward(o, b, d)
    requires Cross(o, b, r) <= 0.0 && Cross(a, b, d) <= 0.0 && Cross(b, d, r) <= 0.0
    ensures Cross(a, b, r) <= 0.0
  {
    OnwardTurns(o, a, b);
    OnwardTurns(o, b, d);
    CrossCyclic(a, b, d);
    CrossCyclic(a, b, r);
    CrossCyclic(o, a, b);
    CrossCyclic(o, b, d);
    CrossCyclic(o, b, r);
    hide Cross;
    if Cross(o, b, d) < 0.0 {
      CrossPluecker(b, d, r, o, a);
      MulBothNonPos(Cross(b, d, r), Cross(b, o, a));
      MulBothNonPos(Cross(b, d, a), Cross(b, r, o));
      SignFromProduct(Cross(b, r, a), Cross(b, d, o));
    } else {
      StaysOnRay(o, a, b, d);
      var t := NearerMeans(o, a, b, r);
      MulNonPos(1.0 - t, Cross(o, b, r));
    }
  }

  lemma StaysOnRay(o: Point, a: Point, b: Point, d: Point)
    requires Onward(o, a, b) && Nearer(o, b, d) && Cross(a, b, d) <= 0.0
    ensures Nearer(o, a, b)
  {
    OnwardTurns(o, a, b);
    CrossCyclic(a, b, d);
    CrossCyclic(o, a, b);
    OnRayOf(o, b, d, a);
    var t := NearerMeans(o, b, d, a);
    MulNonPos(t, Cross(o, d, a));
  }

  /** Points before q are right of the new edge q -> r, given the chain edge e -> q. */
  lemma RightOfNewBefore(o: Point, e: Point, q: Point, r: Point, x: Point)
    requires Cross(o, e, q) < 0.0 && Cross(o, x, q) <= 0.0 && Cross(o, q, r) <= 0.0
    requires Cross(e, q, r) <= 0.0 && Cross(e, q, x) <= 0.0
    ensures Cross(q, r, x) <= 0.0
  {
    CrossPluecker(q, e, r, o, x);
    CrossCyclic(e, q, r);
    CrossCyclic(e, q, x);
    CrossCyclic(o, e, q);
    CrossCyclic(o, x, q);
    CrossCyclic(o, q, r);
    hide Cross;
    MulNonPos(Cross(q, e, r), Cross(q, o, x));
    MulNonPos(Cross(q, e, x), Cross(q, r, o));
    SignFromProduct(Cross(q, r, x), Cross(q, e, o));
  }

  /** Points from q on are right of the new edge q -> r, given the popped edge q -> p. */
  lemma RightOfNewAfter(o: Point, q: Point, p: Point, r: Point, x: Point)
    requires Onward(o, q, p) && Cross(o, p, r) <= 0.0 && Cross(o, q, r) <= 0.0 && Cross(o, q, x) <= 0.0
    requires Cross(q, p, r) > 0.0 && Cross(q, p, x) <= 0.0
    ensures Cross(q, r, x) <= 0.0
  {
    OnwardTurns(o, q, p);
    if Cross(o, q, p) == 0.0 {
      var t := NearerMeans(o, q, p, r);
      MulNonPos(1.0 - t, Cross(o, p, r));
      assert false;
    } else {
      CrossPluecker(q, p, r, o, x);
      CrossCyclic(o, q, p);
      CrossCyclic(o, q, r);
      CrossCyclic(o, q, x);
      hide Cross;
      MulNonNeg(Cross(q, p, r), Cross(q, o, x));
      MulBothNonPos(Cross(q, p, x), Cross(q, r, o));
      SignFromProduct(Cross(q, r, x), Cross(q, p, o));
    }
  }

  // All points so far lie on one ray: they are right of the edge from its farthest point.
  lemma RightOfRay(o: Point, q: Point, r: Point, x: Point)
    requires x == q || Nearer(o, x, q)
    requires Cross(o, q, r) <= 0.0
    ensures Cross(q, r, x) <= 0.0
  {
    CrossCyclic(q, r, x);
    if x != q {
      var t := NearerMeans(o, x, q, r);
      MulNonPos(1.0 - t, Cross(o, q, r));
      CrossCyclic(x, q, r);
    }
  }

  // ---- The chain

  // The scan's input: three or more points in radial order.
  ghost predicate ScanInput(c: seq<Point>) {
    |c| >= 3 && RadiallySorted(c)
  }

  predicate Repeated(c: seq<Point>, k: nat) {
    k + 1 < |c| && c[k] == c[k + 1]
  }

  // No point that occurs twice is a left turn between an earlier and a later point.
  ghost predicate RepeatsTurnRight(c: seq<Point>) {
    forall i, k, j :: 0 <= i < k < j < |c| && Repeated(c, k) ==> NoLeftTurn(c, i, k, j)
  }

  ghost predicate NoLeftTurn(c: seq<Point>, i: nat, k: nat, j: nat) {
    i < |c| && k < |c| && j < |c| && Cross(c[i], c[k], c[j]) <= 0.0
  }

  // The first n points lie on the line through p and q, or right of it.
  ghost predicate RightOf(c: seq<Point>, n: nat, p: Point, q: Point)
    requires n <= |c|
  {
    forall j :: 0 <= j < n ==> Cross(p, q, c[j]) <= 0.0
  }

  // The chain visits points of c in order, from the first to the one at index i.
  ghost predicate ChainTo(c: seq<Point>, i: nat, s: seq<nat>) {
    && i < |c| && |s| >= 2 && s[0] == 0 && s[|s| - 1] == i
    && forall t, u :: 0 <= t < u < |s| ==> s[t] < s[u]
  }

  ghost predicate EdgeRight(c: seq<Point>, n: nat, s: seq<nat>, t: nat) {
    && n <= |c| && t + 1 < |s| && s[t] < |c| && s[t + 1] < |c|
    && RightOf(c, n, c[s[t]], c[s[t + 1]])
  }

  // The first n points are on or right of every edge of the chain.
  ghost predicate ChainRight(c: seq<Point>, n: nat, s: seq<nat>) {
    forall t :: 0 <= t < |s| - 1 ==> EdgeRight(c, n, s, t)
  }

  // Radial order of two scanned points.
  lemma SortedPair(c: seq<Point>, i: nat, j: nat)
    requires ScanInput(c) && i < j < |c|
    ensures c[i] == c[j] || Onward(c[0], c[i], c[j])
    ensures Cross(c[0], c[i], c[j]) <= 0.0
  {
    var o := c[0];
    assert c[i] in c && c[j] in c;
    assert PolarCompare(o, c[i], c[j]) <= 0;
    PolarCompareMeans(o, c[i], c[j]);
    CrossToEnd(o, c[i]);
    hide PolarCompare;
    hide Above;
    if c[i] != c[j] { OnwardTurns(o, c[i], c[j]); }
  }

  // Equal points stand next to each other.
  lemma EqualsAdjacent(c: seq<Point>, i: nat, j: nat)
    requires ScanInput(c) && i < j < |c| && c[i] == c[j]
    ensures Repeated(c, i)
  {
    var o, x := c[0], c[i + 1];
    assert c[i] in c && x in c;
    assert PolarCompare(o, c[i], x) <= 0;
    if i + 1 < j { assert PolarCompare(o, x, c[j]) <= 0; }
    PolarCompareMeans(o, c[i], x);
    hide PolarCompare;
  }

  // One step down the chain, on indices a < b < d of sorted points.
  lemma LowerStep(c: seq<Point>, a: nat, b: nat, d: nat, i: nat)
    requires ScanInput(c) && RepeatsTurnRight(c) && a < b < d < i < |c|
    requires Cross(c[a], c[b], c[d]) <= 0.0 && Cross(c[b], c[d], c[i]) <= 0.0
    ensures Cross(c[a], c[b], c[i]) <= 0.0
  {
    if c[b] == c[d] {
      EqualsAdjacent(c, b, d);
      assert NoLeftTurn(c, a, b, i);
    } else if c[a] == c[b] {
      CrossSame(c[a], c[i]);
    } else {
      SortedPair(c, a, b);
      SortedPair(c, b, d);
      SortedPair(c, b, i);
      hide *;
      RightOfLower(c[0], c[a], c[b], c[d], c[i]);
    }
  }

  // Edges further down the chain have the new point on their right as well.
  lemma {:induction false} LowerEdges(c: seq<Point>, i: nat, s: seq<nat>, m: nat, t: nat)
    requires ScanInput(c) && RepeatsTurnRight(c) && 3 <= i < |c| && ChainTo(c, i - 1, s) && ChainRight(c, i, s)
    requires t < m < |s| && Cross(c[s[m - 1]], c[s[m]], c[i]) <= 0.0
    ensures Cross(c[s[t]], c[s[t + 1]], c[i]) <= 0.0
    decreases m - t
  {
    assert s[t] < s[t + 1] < |c|;
    if t + 1 < m {
      LowerEdges(c, i, s, m, t + 1);
      assert s[t + 1] < s[t + 2] <= i - 1;
      hide *;
      EdgeSees(c, i, s, t, s[t + 2]);
      LowerStep(c, s[t], s[t + 1], s[t + 2], i);
    }
  }

  lemma CrossSame(p: Point, x: Point)
    ensures Cross(p, p, x) == 0.0 && Cross(p, x, p) == 0.0 && Cross(x, p, p) == 0.0
  {
  }

  lemma EdgeSees(c: seq<Point>, i: nat, s: seq<nat>, t: nat, j: nat)
    requires i <= |c| && ChainRight(c, i, s) && t + 1 < |s| && j < i
    ensures s[t] < |c| && s[t + 1] < |c| && Cross(c[s[t]], c[s[t + 1]], c[j]) <= 0.0
  {
    assert EdgeRight(c, i, s, t);
  }

  // A new edge q -> r after popping: p was next on the chain, e comes before q.
  lemma NewEdgePopped(o: Point, e: Point, q: Point, p: Point, r: Point, x: Point)
    requires Onward(o, e, q) && Onward(o, q, p) && Cross(o, q, r) <= 0.0 && Cross(o, p, r) <= 0.0
    requires Cross(e, q, r) <= 0.0 && Cross(e, q, x) <= 0.0
    requires Cross(q, p, r) > 0.0 && Cross(q, p, x) <= 0.0
    requires Cross(o, x, q) <= 0.0 || Cross(o, q, x) <= 0.0
    ensures Cross(q, r, x) <= 0.0
  {
    OnwardTurns(o, e, q);
    hide *;
    if Cross(o, q, x) <= 0.0 {
      RightOfNewAfter(o, q, p, r, x);
    } else if Cross(o, e, q) < 0.0 {
      RightOfNewBefore(o, e, q, r, x);
    } else {
      OnRayOf(o, e, q, x);
      assert false;
    }
  }

  // A new edge q -> r when nothing is popped: q is the last point met.
  lemma NewEdgeTop(o: Point, e: Point, q: Point, r: Point, x: Point)
    requires Onward(o, e, q) && Cross(o, q, r) <= 0.0
    requires Cross(e, q, r) <= 0.0 && Cross(e, q, x) <= 0.0
    requires x == q || Onward(o, x, q)
    ensures Cross(q, r, x) <= 0.0
  {
    OnwardTurns(o, e, q);
    CrossCyclic(o, x, q);
    if x == q {
      RightOfRay(o, q, r, x);
    } else {
      OnwardTurns(o, x, q);
      if Cross(o, e, q) < 0.0 {
        RightOfNewBefore(o, e, q, r, x);
      } else {
        OnRayOf(o, e, q, x);
        RightOfRay(o, q, r, x);
      }
    }
  }

  // The edge from the last chain point kept to the new point has every earlier point on its right.
  lemma NewEdge(c: seq<Point>, i: nat, s: seq<nat>, m: nat, j: nat)
    requires ScanInput(c) && RepeatsTurnRight(c) && 3 <= i < |c| && ChainTo(c, i - 1, s) && ChainRight(c, i, s)
    requires 1 <= m < |s| && Cross(c[s[m - 1]], c[s[m]], c[i]) <= 0.0
    requires m + 1 < |s| ==> Cross(c[s[m]], c[s[m + 1]], c[i]) > 0.0
    requires j < i
    ensures Cross(c[s[m]], c[i], c[j]) <= 0.0
  {
    assert s[m - 1] < s[m] <= i - 1;
    if m + 1 < |s| {
      assert s[m] < s[m + 1] <= i - 1;
      hide *;
      EdgeSees(c, i, s, m - 1, j);
      EdgeSees(c, i, s, m, j);
      NewEdgeAfterPop(c, s[m - 1], s[m], s[m + 1], i, j);
    } else {
      hide *;
      EdgeSees(c, i, s, m - 1, j);
      NewEdgeNoPop(c, s[m - 1], s[m], i, j);
    }
  }

  lemma NewEdgeAfterPop(c: seq<Point>, e: nat, q: nat, p: nat, i: nat, j: nat)
    requires ScanInput(c) && RepeatsTurnRight(c) && e < q < p < i < |c| && j < i
    requires Cross(c[e], c[q], c[i]) <= 0.0 && Cross(c[e], c[q], c[j]) <= 0.0
    requires Cross(c[q], c[p], c[i]) > 0.0 && Cross(c[q], c[p], c[j]) <= 0.0
    ensures Cross(c[q], c[i], c[j]) <= 0.0
  {
    hide *;
    SortedPair(c, e, q);
    SortedPair(c, q, p);
    SortedPair(c, q, i);
    SortedPair(c, p, i);
    CrossSame(c[q], c[i]);
    if j < q { SortedPair(c, j, q); } else if j > q { SortedPair(c, q, j); }
    if c[j] != c[q] && c[e] == c[q] && j < q {
      BeforeRepeat(c, j, e, q, i);
    }
    CrossCyclic(c[q], c[i], c[j]);
    if c[j] != c[q] {
      if j > q {
        RightOfNewAfter(c[0], c[q], c[p], c[i], c[j]);
      } else if c[e] != c[q] {
        NewEdgePopped(c[0], c[e], c[q], c[p], c[i], c[j]);
      }
    }
  }

  lemma NewEdgeNoPop(c: seq<Point>, e: nat, q: nat, i: nat, j: nat)
    requires ScanInput(c) && RepeatsTurnRight(c) && e < q < i < |c| && j <= q
    requires Cross(c[e], c[q], c[i]) <= 0.0 && Cross(c[e], c[q], c[j]) <= 0.0
    ensures Cross(c[q], c[i], c[j]) <= 0.0
  {
    hide *;
    SortedPair(c, e, q);
    SortedPair(c, q, i);
    CrossSame(c[q], c[i]);
    if j < q { SortedPair(c, j, q); }
    if c[j] != c[q] && c[e] == c[q] {
      BeforeRepeat(c, j, e, q, i);
    }
    CrossCyclic(c[q], c[i], c[j]);
    if c[j] != c[q] && c[e] != c[q] {
      NewEdgeTop(c[0], c[e], c[q], c[i], c[j]);
    }
  }

  // No left turn at a repeated point, from an earlier point to a later one.
  lemma BeforeRepeat(c: seq<Point>, j: nat, k: nat, l: nat, i: nat)
    requires ScanInput(c) && RepeatsTurnRight(c) && k < l < i < |c| && c[k] == c[l]
    requires j < l && c[j] != c[k]
    ensures Cross(c[j], c[k], c[i]) <= 0.0
  {
    EqualsAdjacent(c, k, l);
    if j > k {
      assert c[k] in c && c[j] in c;
      assert PolarCompare(c[0], c[k], c[j]) <= 0 && PolarCompare(c[0], c[j], c[l]) <= 0;
      PolarCompareMeans(c[0], c[k], c[j]);
      hide PolarCompare;
      assert false;
    } else {
      assert NoLeftTurn(c, j, k, i);
    }
  }

  function Extended(s: seq<nat>, m: nat, i: nat): seq<nat>
    requires m < |s|
  {
    s[..m + 1] + [i]
  }

  // Points of index below i and the point at i are right of p -> q.
  lemma RightOfOneMore(c: seq<Point>, i: nat, p: Point, q: Point)
    requires i < |c| && RightOf(c, i, p, q) && Cross(p, q, c[i]) <= 0.0
    ensures RightOf(c, i + 1, p, q)
  {
  }

  /** Popping the left turns and pushing the new point keeps the chain right. */
  lemma ChainGrows(c: seq<Point>, i: nat, s: seq<nat>, m: nat)
    requires ScanInput(c) && RepeatsTurnRight(c) && 3 <= i < |c| && ChainTo(c, i - 1, s) && ChainRight(c, i, s)
    requires 1 <= m < |s| && Cross(c[s[m - 1]], c[s[m]], c[i]) <= 0.0
    requires m + 1 < |s| ==> Cross(c[s[m]], c[s[m + 1]], c[i]) > 0.0
    ensures ChainTo(c, i, Extended(s, m, i)) && ChainRight(c, i + 1, Extended(s, m, i))
  {
    var s', n := Extended(s, m, i), i + 1;
    assert ChainTo(c, i, s') by { assert s[m] <= i - 1; }
    forall t | 0 <= t < |s'| - 1 ensures EdgeRight(c, n, s', t) {
      assert s'[t] == s[t];
      if t < m {
        assert s'[t + 1] == s[t + 1];
        assert EdgeRight(c, i, s, t);
        LowerEdges(c, i, s, m, t);
        RightOfOneMore(c, i, c[s[t]], c[s[t + 1]]);
      } else {
        assert s'[t + 1] == i;
        hide Cross;
        NewEdgeRight(c, i, s, m);
        CrossToEnd(c[s[m]], c[i]);
        RightOfOneMore(c, i, c[s[m]], c[i]);
      }
      hide *;
    }
  }

  lemma NewEdgeRight(c: seq<Point>, i: nat, s: seq<nat>, m: nat)
    requires ScanInput(c) && RepeatsTurnRight(c) && 3 <= i < |c| && ChainTo(c, i - 1, s) && ChainRight(c, i, s)
    requires 1 <= m < |s| && Cross(c[s[m - 1]], c[s[m]], c[i]) <= 0.0
    requires m + 1 < |s| ==> Cross(c[s[m]], c[s[m + 1]], c[i]) > 0.0
    ensures s[m] < |c| && RightOf(c, i, c[s[m]], c[i])
  {
    assert s[m] <= i - 1;
    forall j | 0 <= j < i ensures Cross(c[s[m]], c[i], c[j]) <= 0.0 {
      NewEdge(c, i, s, m, j);
    }
  }

  lemma CrossToEnd(p: Point, q: Point)
    ensures Cross(p, q, q) == 0.0
  {
  }

  // The points of c, visited in order from the first one to the last, and the first one again.
  ghost predicate ClosesChain(c: seq<Point>, ring: seq<Point>, s: seq<nat>) {
    && |c| > 0 && ChainTo(c, |c| - 1, s) && |ring| == |s| + 1 && ring[|s|] == c[0]
    && forall t :: 0 <= t < |s| ==> s[t] < |c| && ring[t] == c[s[t]]
  }

  ghost predicate RingEdgeRight(c: seq<Point>, ring: seq<Point>, t: nat) {
    t + 1 < |ring| && RightOf(c, |c|, ring[t], ring[t + 1])
  }

  // Every point of c is on or right of every edge of the ring.
  ghost predicate RingRight(c: seq<Point>, ring: seq<Point>) {
    forall t :: 0 <= t < |ring| - 1 ==> RingEdgeRight(c, ring, t)
  }

  // ring visits points of c in radial order, once around.
  ghost predicate RingOf(c: seq<Point>, ring: seq<Point>) {
    exists s :: ClosesChain(c, ring, s)
  }

  // ---- Repeated points stay on the chain

  ghost predicate StaysPaired(s: seq<nat>, k: nat) {
    exists t :: 0 < t < |s| && s[t] == k + 1 && s[t - 1] == k
  }

  // Every repeated pair among the first n points is still on the chain.
  ghost predicate PairsKept(c: seq<Point>, n: nat, s: seq<nat>) {
    forall k: nat :: k + 1 < n && Repeated(c, k) ==> StaysPaired(s, k)
  }

  lemma PairsSurvivePop(c: seq<Point>, i: nat, s: seq<nat>, m: nat)
    requires 0 < i < |c| && ChainTo(c, i - 1, s) && 1 < m < |s| && PairsKept(c, i, s[..m + 1])
    requires Cross(c[s[m - 1]], c[s[m]], c[i]) > 0.0
    ensures PairsKept(c, i, s[..m])
  {
    CrossSame(c[s[m]], c[i]);
    hide Cross;
    var u, v := s[..m + 1], s[..m];
    forall k: nat | k + 1 < i && Repeated(c, k) ensures StaysPaired(v, k) {
      assert StaysPaired(u, k);
      var t :| 0 < t < |u| && u[t] == k + 1 && u[t - 1] == k;
      assert t != m;
      assert v[t] == k + 1 && v[t - 1] == k;
    }
  }

  lemma PairsSurvivePush(c: seq<Point>, i: nat, s: seq<nat>, m: nat)
    requires 0 < i < |c| && ChainTo(c, i - 1, s) && m < |s| && PairsKept(c, i, s[..m + 1])
    requires Repeated(c, i - 1) ==> m == |s| - 1
    ensures PairsKept(c, i + 1, Extended(s, m, i))
  {
    var u, v := s[..m + 1], Extended(s, m, i);
    forall k: nat | k + 1 < i + 1 && Repeated(c, k) ensures StaysPaired(v, k) {
      if k + 1 < i {
        assert StaysPaired(u, k);
        var t :| 0 < t < |u| && u[t] == k + 1 && u[t - 1] == k;
        assert v[t] == k + 1 && v[t - 1] == k;
      } else {
        assert v[m + 1] == k + 1 && v[m] == k;
      }
    }
  }

  // Between an earlier and a later point, a ring vertex on whose edges no point lies left is no left turn.
  lemma {:induction false} VertexTurnsRight(c: seq<Point>, ring: seq<Point>, s: seq<nat>, t: nat, i: nat, j: nat)
    requires ScanInput(c) && ClosesChain(c, ring, s) && RingRight(c, ring)
    requires t < |s| && i < s[t] < j < |c|
    ensures Cross(c[i], c[s[t]], c[j]) <= 0.0
  {
    var o, q := c[0], c[s[t]];
    if c[i] == q {
      CrossSame(q, c[j]);
    } else if t > 0 {
      assert s[t - 1] < s[t];
      SortedPair(c, i, s[t]);
      SortedPair(c, s[t], j);
      SortedPair(c, s[t - 1], s[t]);
      CrossCyclic(c[i], q, c[j]);
      if c[s[t - 1]] == q {
        if i < s[t - 1] {
          VertexTurnsRight(c, ring, s, t - 1, i, j);
        } else {
          BetweenEquals(c, s[t - 1], i, s[t]);
        }
      } else {
        assert RingEdgeRight(c, ring, t - 1);
        hide *;
        NewEdgeTop(o, c[s[t - 1]], q, c[j], c[i]);
      }
    }
  }

  lemma BetweenEquals(c: seq<Point>, k: nat, i: nat, l: nat)
    requires ScanInput(c) && k <= i < l < |c| && c[k] == c[l]
    ensures c[i] == c[k]
  {
    if k < i {
      assert c[k] in c && c[i] in c;
      assert PolarCompare(c[0], c[k], c[i]) <= 0 && PolarCompare(c[0], c[i], c[l]) <= 0;
      PolarCompareMeans(c[0], c[k], c[i]);
    }
  }

  /** A ring with all points on its right that kept every repeated pair has no left turn at a repeated point. */
  lemma RightMeansRepeatsRight(c: seq<Point>, ring: seq<Point>, s: seq<nat>)
    requires ScanInput(c) && ClosesChain(c, ring, s) && PairsKept(c, |c|, s) && RingRight(c, ring)
    ensures RepeatsTurnRight(c)
  {
    forall i, k, j | 0 <= i < k < j < |c| && Repeated(c, k) ensures NoLeftTurn(c, i, k, j) {
      assert StaysPaired(s, k);
      var t :| 0 < t < |s| && s[t] == k + 1 && s[t - 1] == k;
      VertexTurnsRight(c, ring, s, t - 1, i, j);
    }
  }

  // ---- The scan

  // The scan has treated the first n points: the stack ps holds the chain s.
  ghost predicate Scanned(c: seq<Point>, n: nat, s: seq<nat>, ps: seq<Point>) {
    && 3 <= n <= |c| && ChainTo(c, n - 1, s) && PairsKept(c, n, s)
    && (RepeatsTurnRight(c) ==> ChainRight(c, n, s))
    && |ps| == |s| && forall t :: 0 <= t < |s| ==> s[t] < |c| && ps[t] == c[s[t]]
  }

  // The scan at point i, after popping down to p, the chain point number m.
  ghost predicate PoppedTo(c: seq<Point>, i: nat, s: seq<nat>, m: nat, ps: seq<Point>, p: Point) {
    && 3 <= i < |c| && ChainTo(c, i - 1, s) && 1 <= m < |s|
    && |ps| == m && p == c[s[m]]
    && (forall t :: 0 <= t < m ==> ps[t] == c[s[t]])
    && (m + 1 < |s| ==> Cross(c[s[m]], c[s[m + 1]], c[i]) > 0.0)
    && PairsKept(c, i, s[..m + 1]) && (Repeated(c, i - 1) ==> m == |s| - 1)
  }

  lemma FirstTriple(c: seq<Point>)
    requires ScanInput(c)
    ensures Scanned(c, 3, [0, 1, 2], [c[0], c[1], c[2]])
  {
    var o, s := c[0], [0, 1, 2];
    SortedPair(c, 1, 2);
    CrossCyclic(o, c[1], c[2]);
    CrossSame(o, c[1]);
    CrossSame(c[1], c[2]);
    CrossSame(o, c[2]);
    hide Cross;
    hide PolarCompare;
    assert EdgeRight(c, 3, s, 0);
    assert EdgeRight(c, 3, s, 1);
    forall k: nat | k + 1 < 3 ensures StaysPaired(s, k) {
      assert s[k + 1] == k + 1 && s[k] == k;
    }
  }

  lemma FirstPop(c: seq<Point>, i: nat, s: seq<nat>, ps: seq<Point>)
    requires i < |c| && Scanned(c, i, s, ps)
    ensures |s| == |ps| && |s| - 1 > 0 && PoppedTo(c, i, s, |s| - 1, ps[..|ps| - 1], ps[|ps| - 1])
  {
    hide RepeatsTurnRight;
    assert s[..|s|] == s;
  }

  /** The first edge is never popped: the new point is not left of it. */
  lemma NextPop(c: seq<Point>, i: nat, s: seq<nat>, m: nat, ps: seq<Point>, p: Point)
    requires ScanInput(c) && PoppedTo(c, i, s, m, ps, p)
    requires ps != [] && Orientation(ps[|ps| - 1], p, c[i]) > 0
    ensures m > 1 && PoppedTo(c, i, s, m - 1, ps[..|ps| - 1], ps[|ps| - 1])
  {
    SortedPair(c, s[1], i);
    CrossSame(p, ps[|ps| - 1]);
    assert m != 1;
    PairsSurvivePop(c, i, s, m);
    hide PairsKept;
  }

  lemma Pushed(c: seq<Point>, i: nat, s: seq<nat>, m: nat, ps: seq<Point>, p: Point)
    requires ScanInput(c) && PoppedTo(c, i, s, m, ps, p)
    requires ps == [] || Orientation(ps[|ps| - 1], p, c[i]) <= 0
    requires RepeatsTurnRight(c) ==> ChainRight(c, i, s)
    ensures m < |s| && (RepeatsTurnRight(c) ==> ChainRight(c, i + 1, Extended(s, m, i)))
  {
    assert 1 <= m < |s|;
    if RepeatsTurnRight(c) {
      PushTurnsRight(c, i, s, m, ps, p);
      hide *;
      ChainGrows(c, i, s, m);
    }
  }

  lemma PushTurnsRight(c: seq<Point>, i: nat, s: seq<nat>, m: nat, ps: seq<Point>, p: Point)
    requires PoppedTo(c, i, s, m, ps, p)
    requires ps == [] || Orientation(ps[|ps| - 1], p, c[i]) <= 0
    ensures 3 <= i < |c| && ChainTo(c, i - 1, s) && 1 <= m < |s| && s[m - 1] < |c| && s[m] < |c|
    ensures Cross(c[s[m - 1]], c[s[m]], c[i]) <= 0.0
    ensures m + 1 < |s| ==> s[m + 1] < |c| && Cross(c[s[m]], c[s[m + 1]], c[i]) > 0.0
  {
  }

  lemma LastPop(c: seq<Point>, i: nat, s: seq<nat>, m: nat, ps: seq<Point>, p: Point, before: seq<Point>)
    requires ScanInput(c) && PoppedTo(c, i, s, m, ps, p) && Scanned(c, i, s, before)
    requires ps == [] || Orientation(ps[|ps| - 1], p, c[i]) <= 0
    ensures m < |s| && Scanned(c, i + 1, Extended(s, m, i), ps + [p, c[i]])
  {
    hide RepeatsTurnRight;
    hide ChainRight;
    hide PairsKept;
    hide ScanInput;
    hide Orientation;
    Pushed(c, i, s, m, ps, p);
    PairsSurvivePush(c, i, s, m);
    assert s[m] <= s[|s| - 1];
  }

  /** The scan's ring has every point on its right exactly when no repeated point is a left turn. */
  lemma ScanCloses(c: seq<Point>, s: seq<nat>, ps: seq<Point>)
    requires ScanInput(c) && Scanned(c, |c|, s, ps)
    ensures RingOf(c, ps + [c[0]])
    ensures RingRight(c, ps + [c[0]]) <==> RepeatsTurnRight(c)
  {
    var ring := ps + [c[0]];
    assert ClosesChain(c, ring, s);
    if RepeatsTurnRight(c) {
      forall t | 0 <= t < |ring| - 1 ensures RingEdgeRight(c, ring, t) {
        if t < |s| - 1 {
          assert EdgeRight(c, |c|, s, t);
        } else {
          LastEdge(c);
        }
        hide RepeatsTurnRight;
      }
    }
    hide ChainTo;
    if RingRight(c, ring) {
      RightMeansRepeatsRight(c, ring, s);
    }
  }

  lemma LastEdge(c: seq<Point>)
    requires ScanInput(c)
    ensures RightOf(c, |c|, c[|c| - 1], c[0])
  {
    var o, l := c[0], c[|c| - 1];
    forall j | 0 <= j < |c| ensures Cross(l, o, c[j]) <= 0.0 {
      if j < |c| - 1 { SortedPair(c, j, |c| - 1); }
      CrossCyclic(o, c[j], l);
      CrossSame(l, o);
      hide *;
    }
  }

  /** Scan the sorted points; the ring closes with the first point. */
  method GrahamScan(c: seq<Point>) returns (ps: seq<Point>)
    requires ScanInput(c)
    ensures RingOf(c, ps)
    ensures RingRight(c, ps) <==> RepeatsTurnRight(c)
  {
    ps := [c[0], c[1], c[2]];
    ghost var s: seq<nat> := [0, 1, 2];
    FirstTriple(c);
    hide *;
    for i := 3 to |c|
      invariant Scanned(c, i, s, ps)
    {
      ghost var before := ps;
      FirstPop(c, i, s, ps);
      var p := ps[|ps| - 1];
      ps := ps[..|ps| - 1];
      ghost var m := |s| - 1;
      while ps != [] && Orientation(ps[|ps| - 1], p, c[i]) > 0
        invariant m > 0 && PoppedTo(c, i, s, m, ps, p)
        decreases |ps|
      {
        NextPop(c, i, s, m, ps, p);
        p := ps[|ps| - 1];
        ps := ps[..|ps| - 1];
        m := m - 1;
      }
      LastPop(c, i, s, m, ps, p, before);
      ps := ps + [p, c[i]];
      s := Extended(s, m, i);
    }
    ScanCloses(c, s, ps);
    ps := ps + [c[0]];
  }
}
