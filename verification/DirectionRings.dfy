/**
 Rings of directions around a point: where a new direction is inserted, that a place
 is always found, and that insertion keeps the ring in counter-clockwise order.
 */
module DirectionRings {
  import opened Planar
  import opened AngularOrder

  // The element after s[i] around the ring s.
  function Succ<T>(s: seq<T>, i: nat): T
    requires i < |s|
  {
    if i + 1 < |s| then s[i + 1] else s[0]
  }

  // Compare the directions from origin to p and to q.
  function CompareDirection(origin: Point, p: Point, q: Point): int
    requires p != origin && q != origin
  {
    if p == q then 0 else CompareAngle(origin, p, q)
  }

  predicate Around(origin: Point, ds: seq<Point>) {
    forall k :: 0 <= k < |ds| ==> ds[k] != origin
  }

  // The test for inserting d between ds[i] and its successor.
  predicate SlotAt(origin: Point, ds: seq<Point>, i: nat, d: Point)
    requires Around(origin, ds) && d != origin && i < |ds|
  {
    var p, n := ds[i], Succ(ds, i);
    // either the order rises from p to n, and d falls into the step
    || (CompareDirection(origin, n, p) > 0 && CompareDirection(origin, d, p) >= 0 &&
        CompareDirection(origin, d, n) <= 0)
    // or p is the last in order, and d comes before the first or after the last
    || (CompareDirection(origin, n, p) <= 0 &&
        (CompareDirection(origin, d, n) <= 0 || CompareDirection(origin, d, p) >= 0))
  }

  predicate Less(origin: Point, p: Point, q: Point)
    requires p != origin && q != origin
  {
    CompareDirection(origin, p, q) < 0
  }

  lemma CompareFacts(origin: Point, p: Point, q: Point, r: Point)
    requires p != origin && q != origin && r != origin
    ensures CompareDirection(origin, p, q) == -CompareDirection(origin, q, p)
    ensures CompareDirection(origin, p, q) == CompareAngle(origin, p, q)
    ensures CompareDirection(origin, p, q) <= 0 && CompareDirection(origin, q, r) <= 0 ==>
      CompareDirection(origin, p, r) <= 0
    ensures Less(origin, p, q) && CompareDirection(origin, q, r) <= 0 ==> Less(origin, p, r)
    ensures CompareDirection(origin, p, q) <= 0 && Less(origin, q, r) ==> Less(origin, p, r)
  {
    CompareAngleOrders(origin, p, q, r);
    CompareAngleOrders(origin, r, p, q);
    CompareAngleOrders(origin, q, r, p);
    CompareAngleOrders(origin, p, p, p);
  }

  lemma CompareByTurn(origin: Point, p: Point, q: Point)
    requires p != origin && q != origin
    ensures var u, v := Minus(p, origin), Minus(q, origin);
      && u != ZERO && v != ZERO && (CompareDirection(origin, p, q) == 0 <==> SameDirection(u, v))
      && (CompareDirection(origin, p, q) < 0 <==> Before(u, v))
      && (CompareDirection(origin, p, q) > 0 <==> Before(v, u))
  {
    CompareFacts(origin, p, q, p);
    CompareAngleOrders(origin, p, q, p);
    CompareAngleIsOrder(origin, p, q);
    CompareAngleIsOrder(origin, q, p);
  }

  /**
   The slot behind a direction takes all those from it counter-clockwise up to its successor, both included, and
   every direction if these two are the same.
   */
  lemma SlotIsSector(origin: Point, ds: seq<Point>, i: nat, d: Point)
    requires Around(origin, ds) && d != origin && i < |ds|
    ensures var u, v, w := Minus(ds[i], origin), Minus(d, origin), Minus(Succ(ds, i), origin);
      SlotAt(origin, ds, i, d) <==>
        SameDirection(u, v) || SameDirection(v, w) || SameDirection(u, w) || InTurn(u, v, w)
  {
    var p, n := ds[i], Succ(ds, i);
    var u, v, w := Minus(p, origin), Minus(d, origin), Minus(n, origin);
    CompareByTurn(origin, p, d);
    CompareByTurn(origin, d, n);
    CompareByTurn(origin, p, n);
    CompareFacts(origin, n, p, n);
    CompareFacts(origin, d, p, n);
    CompareFacts(origin, p, d, n);
    if Distinct3(u, v, w) { OrderIsCyclic(u, v, w); }
    hide CompareDirection;
    hide Before;
    hide InTurn;
    hide SameDirection;
  }

  // ---- A slot is always found

  // d is above ds[i] and not above ds[j]: somewhere between it fits.
  lemma {:induction false} StepOver(origin: Point, ds: seq<Point>, d: Point, i: nat, j: nat) returns (k: nat)
    requires Around(origin, ds) && d != origin && i < j < |ds|
    requires Less(origin, ds[i], d) && !Less(origin, ds[j], d)
    ensures i <= k < j && SlotAt(origin, ds, k, d)
    decreases j - i
  {
    CompareFacts(origin, ds[i], d, ds[i + 1]);
    CompareFacts(origin, d, ds[i + 1], ds[i]);
    if !Less(origin, ds[i + 1], d) {
      k := i;
    } else {
      k := StepOver(origin, ds, d, i + 1, j);
    }
  }

  // A ring cannot rise all the way around.
  lemma {:induction false} SomeDescent(origin: Point, ds: seq<Point>, j: nat) returns (k: nat)
    requires Around(origin, ds) && j < |ds|
    ensures k <= j
    ensures k < j ==> !Less(origin, ds[k], ds[k + 1])
    ensures k == j ==> j == 0 || Less(origin, ds[0], ds[j])
  {
    if j == 0 {
      k := 0;
    } else {
      k := SomeDescent(origin, ds, j - 1);
      if k == j - 1 {
        CompareFacts(origin, ds[0], ds[j - 1], ds[j]);
        if Less(origin, ds[j - 1], ds[j]) { k := j; }
      }
    }
  }

  /** Whatever the directions, equal ones included, some slot takes the new direction. */
  lemma SlotExists(origin: Point, ds: seq<Point>, d: Point) returns (k: nat)
    requires Around(origin, ds) && d != origin && |ds| > 0
    ensures k < |ds| && SlotAt(origin, ds, k, d)
  {
    var n := |ds|;
    var w := SomeDescent(origin, ds, n - 1);
    var next := Succ(ds, w);
    CompareFacts(origin, ds[w], next, d);
    CompareFacts(origin, next, d, ds[w]);
    CompareFacts(origin, d, ds[w], next);
    CompareFacts(origin, ds[0], ds[n - 1], ds[0]);
    if SlotAt(origin, ds, w, d) {
      k := w;
    } else {
      // next < d < ds[w]: walk from next around to ds[w]
      if w + 1 == n {
        k := StepOver(origin, ds, d, 0, n - 1);
      } else if !Less(origin, ds[n - 1], d) {
        k := StepOver(origin, ds, d, w + 1, n - 1);
      } else if Less(origin, ds[0], d) {
        k := StepOver(origin, ds, d, 0, w);
      } else {
        CompareFacts(origin, ds[n - 1], d, ds[0]);
        CompareFacts(origin, d, ds[0], ds[n - 1]);
        k := n - 1;
      }
    }
  }

  // ---- Counter-clockwise rings

  // ds[m..] followed by ds[..m] is strictly rising.
  ghost predicate RisesFrom(origin: Point, ds: seq<Point>, m: nat)
    requires Around(origin, ds)
  {
    && m < |ds|
    && forall i, j :: 0 <= i < j < |ds| ==>
         if i < m <= j then Less(origin, ds[j], ds[i]) else Less(origin, ds[i], ds[j])
  }

  // Read from its lowest direction on, the ring is strictly rising.
  ghost predicate CounterClockwise(origin: Point, ds: seq<Point>)
    requires Around(origin, ds)
  {
    exists m :: RisesFrom(origin, ds, m)
  }

  ghost predicate DistinctDirections(origin: Point, ds: seq<Point>)
    requires Around(origin, ds)
  {
    forall i, j :: 0 <= i < j < |ds| ==> CompareDirection(origin, ds[i], ds[j]) != 0
  }

  function Inserted<T>(s: seq<T>, k: nat, x: T): (r: seq<T>)
    requires k < |s|
    ensures |r| == |s| + 1
    ensures forall i {:trigger r[i]} ::
      0 <= i < |r| ==> r[i] == if i <= k then s[i] else if i == k + 1 then x else s[i - 1]
  {
    s[..k + 1] + [x] + s[k + 1..]
  }

  // The new start of the rising order after inserting d behind position k.
  ghost function NewStart(origin: Point, ds: seq<Point>, m: nat, k: nat, d: Point): nat
    requires Around(origin, ds) && d != origin && m < |ds| && k < |ds|
  {
    if (if m == 0 then k == |ds| - 1 else k == m - 1) then
      if Less(origin, ds[k], d) then (if m == 0 then 0 else m + 1) else k + 1
    else if k < m then m + 1 else m
  }

  lemma PairOrdered(origin: Point, ds: seq<Point>, m: nat, i: nat, j: nat)
    requires Around(origin, ds) && RisesFrom(origin, ds, m) && i < |ds| && j < |ds|
    requires (i < j && !(i < m <= j)) || (j < m <= i)
    ensures Less(origin, ds[i], ds[j])
  {
  }

  // Where the slot test puts d, relative to any element of the ring.
  lemma SlotCompare(origin: Point, ds: seq<Point>, m: nat, k: nat, d: Point, i: nat)
    requires Around(origin, ds) && RisesFrom(origin, ds, m) && d != origin && k < |ds| && i < |ds|
    requires SlotAt(origin, ds, k, d)
    requires forall j :: 0 <= j < |ds| ==> CompareDirection(origin, ds[j], d) != 0
    ensures var m' := NewStart(origin, ds, m, k, d);
      var i' := if i <= k then i else i + 1;
      if i' < k + 1 then
        if i' < m' <= k + 1 then Less(origin, d, ds[i]) else Less(origin, ds[i], d)
      else
        if k + 1 < m' <= i' then Less(origin, ds[i], d) else Less(origin, d, ds[i])
  {
    var n := if k + 1 < |ds| then k + 1 else 0;
    CompareFacts(origin, ds[k], d, ds[n]);
    CompareFacts(origin, d, ds[n], ds[i]);
    CompareFacts(origin, ds[i], ds[k], d);
    CompareFacts(origin, ds[i], d, ds[k]);
    CompareFacts(origin, ds[n], d, ds[i]);
    CompareFacts(origin, d, ds[k], ds[n]);
    if i != k && ((i < k && !(i < m <= k)) || k < m <= i) { PairOrdered(origin, ds, m, i, k); }
    if i != n && ((n < i && !(n < m <= i)) || i < m <= n) { PairOrdered(origin, ds, m, n, i); }
  }

  /** Inserting a new direction at the slot found keeps the ring counter-clockwise. */
  lemma InsertKeepsCounterClockwise(origin: Point, ds: seq<Point>, k: nat, d: Point)
    requires Around(origin, ds) && CounterClockwise(origin, ds) && d != origin && k < |ds|
    requires SlotAt(origin, ds, k, d)
    requires forall j :: 0 <= j < |ds| ==> CompareDirection(origin, ds[j], d) != 0
    ensures Around(origin, Inserted(ds, k, d)) && CounterClockwise(origin, Inserted(ds, k, d))
  {
    var m :| RisesFrom(origin, ds, m);
    var m' := NewStart(origin, ds, m, k, d);
    var r := Inserted(ds, k, d);
    forall i, j | 0 <= i < j < |r|
      ensures if i < m' <= j then Less(origin, r[j], r[i]) else Less(origin, r[i], r[j])
    {
      if i == k + 1 {
        SlotCompare(origin, ds, m, k, d, j - 1);
      } else if j == k + 1 {
        SlotCompare(origin, ds, m, k, d, i);
      }
    }
    assert RisesFrom(origin, r, m');
  }

  // The slot an empty ring of one offers always passes the test.
  lemma SingleSlot(origin: Point, p: Point, d: Point)
    requires p != origin && d != origin
    ensures SlotAt(origin, [p], 0, d)
  {
    CompareFacts(origin, p, d, p);
  }

  /** In a counter-clockwise ring the successor is the first direction met turning counter-clockwise. */
  lemma SuccIsNextTurn(origin: Point, ds: seq<Point>, i: nat, j: nat)
    requires Around(origin, ds) && CounterClockwise(origin, ds) && i < |ds| && j < |ds|
    requires i != j && Succ(ds, i) != ds[j]
    ensures InTurn(Minus(ds[i], origin), Minus(Succ(ds, i), origin), Minus(ds[j], origin))
  {
    var m :| RisesFrom(origin, ds, m);
    var s := if i + 1 < |ds| then i + 1 else 0;
    var u, v, w := Minus(ds[i], origin), Minus(ds[s], origin), Minus(ds[j], origin);
    OrderOfPair(origin, ds, m, i, s);
    OrderOfPair(origin, ds, m, s, j);
    OrderOfPair(origin, ds, m, i, j);
    OrderIsCyclic(u, v, w);
  }

  // Two elements of a rising ring: their order by position, and that they differ.
  lemma OrderOfPair(origin: Point, ds: seq<Point>, m: nat, i: nat, j: nat)
    requires Around(origin, ds) && RisesFrom(origin, ds, m) && i < |ds| && j < |ds| && i != j
    ensures var u, v := Minus(ds[i], origin), Minus(ds[j], origin);
      && !SameDirection(u, v) && !SameDirection(v, u)
      && (Before(u, v) <==> if i < j then !(i < m <= j) else j < m <= i)
      && (Before(v, u) <==> !Before(u, v))
  {
    var u, v := Minus(ds[i], origin), Minus(ds[j], origin);
    CompareFacts(origin, ds[i], ds[j], ds[i]);
    CompareAngleIsOrder(origin, ds[i], ds[j]);
    UnseparatedIsSame(u, v);
    UnseparatedIsSame(v, u);
  }

  // ---- The test for order

  ghost predicate RisingDirections(origin: Point, ds: seq<Point>)
    requires Around(origin, ds)
  {
    forall i, j :: 0 <= i < j < |ds| ==> Less(origin, ds[i], ds[j])
  }

  lemma RisesAround(origin: Point, ds: seq<Point>, m: nat)
    requires Around(origin, ds) && m < |ds|
    ensures Around(origin, ds[m..] + ds[..m])
    ensures RisesFrom(origin, ds, m) <==> RisingDirections(origin, ds[m..] + ds[..m])
  {
    var t, n := ds[m..] + ds[..m], |ds|;
    if RisesFrom(origin, ds, m) {
      forall i, j | 0 <= i < j < |t| ensures Less(origin, t[i], t[j]) {
        PairOrdered(origin, ds, m, if m + i < n then m + i else m + i - n, if m + j < n then m + j else m + j - n);
      }
    }
    if RisingDirections(origin, t) {
      forall i, j | 0 <= i < j < n
        ensures if i < m <= j then Less(origin, ds[j], ds[i]) else Less(origin, ds[i], ds[j])
      {
        var a, b := if i < m then n - m + i else i - m, if j < m then n - m + j else j - m;
        assert t[a] == ds[i] && t[b] == ds[j];
      }
    }
  }

  ghost predicate Lowest(origin: Point, ds: seq<Point>, m: nat)
    requires Around(origin, ds)
  {
    m < |ds| && forall i :: 0 <= i < |ds| ==> !Less(origin, ds[i], ds[m])
  }

  /** To test for counter-clockwise order it is enough to read the ring from any lowest direction on. */
  lemma RisesFromLowest(origin: Point, ds: seq<Point>, m: nat)
    requires Around(origin, ds) && Lowest(origin, ds, m)
    ensures CounterClockwise(origin, ds) <==> RisesFrom(origin, ds, m)
  {
    if CounterClockwise(origin, ds) {
      var m' :| RisesFrom(origin, ds, m');
      if m != m' { PairOrdered(origin, ds, m', m', m); }
    }
  }

  lemma RingsHaveDistinctDirections(origin: Point, ds: seq<Point>)
    requires Around(origin, ds) && CounterClockwise(origin, ds)
    ensures DistinctDirections(origin, ds)
  {
    var m :| RisesFrom(origin, ds, m);
    forall i, j | 0 <= i < j < |ds| ensures CompareDirection(origin, ds[i], ds[j]) != 0 {
      CompareFacts(origin, ds[i], ds[j], ds[i]);
    }
  }

  // The first k steps along the directions all go up.
  ghost predicate StepsUp(origin: Point, ds: seq<Point>, k: nat)
    requires Around(origin, ds) && k < |ds|
  {
    forall i {:trigger ds[i]} :: 0 <= i < k ==> Less(origin, ds[i], ds[i + 1])
  }

  lemma StepsUpNext(origin: Point, ds: seq<Point>, k: nat)
    requires Around(origin, ds) && k + 1 < |ds|
    ensures StepsUp(origin, ds, k + 1) <==> StepsUp(origin, ds, k) && CompareDirection(origin, ds[k + 1], ds[k]) > 0
  {
    CompareFacts(origin, ds[k], ds[k + 1], ds[k]);
  }

  lemma StepsUpFirst(origin: Point, ds: seq<Point>)
    requires Around(origin, ds) && |ds| > 0
    ensures StepsUp(origin, ds, 0)
  {
  }

  lemma {:induction false} StepsRise(origin: Point, ds: seq<Point>, i: nat, j: nat)
    requires Around(origin, ds) && i < j < |ds| && StepsUp(origin, ds, j)
    ensures Less(origin, ds[i], ds[j])
  {
    if i + 1 < j {
      StepsRise(origin, ds, i, j - 1);
      CompareFacts(origin, ds[i], ds[j - 1], ds[j]);
    }
  }

  /** When each direction is above the one before it, each is above all before it. */
  lemma StepsAllRise(origin: Point, ds: seq<Point>)
    requires Around(origin, ds) && |ds| > 0
    ensures RisingDirections(origin, ds) <==> StepsUp(origin, ds, |ds| - 1)
    ensures StepsUp(origin, ds, |ds| - 1) ==> forall k :: 0 <= k < |ds| ==> StepsUp(origin, ds, k)
  {
    if StepsUp(origin, ds, |ds| - 1) {
      forall i, j | 0 <= i < j < |ds| ensures Less(origin, ds[i], ds[j]) {
        StepsRise(origin, ds, i, j);
      }
    }
  }
}
