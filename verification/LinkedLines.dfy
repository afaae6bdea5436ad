/** The doubly linked line: a coordinate sequence whose vertices can be unlinked in place. */
module LinkedLines {
  import opened Planar
  import opened CoordinateLists

  // The index following live[k], or NO_COORD at the end of an open line.
  function NextLive(live: seq<nat>, ring: bool, k: nat): int
    requires k < |live|
  {
    if k + 1 < |live| then live[k + 1] else if ring then live[0] else NO_COORD
  }

  function PrevLive(live: seq<nat>, ring: bool, k: nat): int
    requires k < |live|
  {
    if k > 0 then live[k - 1] else if ring then live[|live| - 1] else NO_COORD
  }

  predicate Increasing(live: seq<nat>, bound: nat) {
    && (forall k, m :: 0 <= k < m < |live| ==> live[k] < live[m])
    && (forall k :: 0 <= k < |live| ==> live[k] < bound)
  }

  ghost predicate NextAgrees(next: seq<int>, live: seq<nat>, ring: bool) {
    && Increasing(live, |next|)
    && (forall k {:trigger next[live[k]]} :: 0 <= k < |live| ==> next[live[k]] == NextLive(live, ring, k))
    && (forall i :: 0 <= i < |next| && i !in live ==> next[i] == NO_COORD)
  }

  ghost predicate PrevAgrees(prev: seq<int>, live: seq<nat>, ring: bool) {
    && Increasing(live, |prev|)
    && (forall k {:trigger prev[live[k]]} :: 0 <= k < |live| ==> prev[live[k]] == PrevLive(live, ring, k))
    && (forall i :: 0 <= i < |prev| && i !in live ==> prev[i] == NO_COORD)
  }

  function Without(live: seq<nat>, k: nat): (rest: seq<nat>)
    requires k < |live|
    ensures |rest| == |live| - 1
  {
    live[..k] + live[k + 1..]
  }

  // The slot that slot m of Without(live, k) had in live.
  function SlotBefore(k: nat, m: nat): nat {
    if m < k then m else m + 1
  }

  lemma WithoutMembers(live: seq<nat>, k: nat, bound: nat)
    requires k < |live| && Increasing(live, bound)
    ensures Increasing(Without(live, k), bound)
    ensures forall i :: i in Without(live, k) <==> i in live && i != live[k]
  {
    var rest := Without(live, k);
    assert forall m :: 0 <= m < |rest| ==> rest[m] == live[SlotBefore(k, m)];
    forall i | i in live && i != live[k] ensures i in rest {
      var m :| 0 <= m < |live| && live[m] == i;
      assert rest[if m < k then m else m - 1] == i;
    }
  }

  lemma NextWithout(live: seq<nat>, ring: bool, k: nat, m: nat)
    requires k < |live| && m < |live| - 1
    ensures var o := SlotBefore(k, m);
      NextLive(Without(live, k), ring, m) ==
      if o + 1 == k || (ring && k == 0 && o + 1 == |live|) then NextLive(live, ring, k) else NextLive(live, ring, o)
  {
  }

  lemma PrevWithout(live: seq<nat>, ring: bool, k: nat, m: nat)
    requires k < |live| && m < |live| - 1
    ensures var o := SlotBefore(k, m);
      PrevLive(Without(live, k), ring, m) ==
      if o == k + 1 || (ring && o == 0 && k + 1 == |live|) then PrevLive(live, ring, k) else PrevLive(live, ring, o)
  {
  }

  // The link array after unlinking live[k]: its neighbour `at` points to `to`, its own link is gone.
  function Unlinked(links: seq<int>, index: nat, at: int, to: int): (r: seq<int>)
    requires index < |links| && at < |links|
    ensures |r| == |links|
    ensures forall i :: 0 <= i < |links| ==>
      r[i] == if i == index then NO_COORD else if i == at then to else links[i]
  {
    (if 0 <= at then links[at := to] else links)[index := NO_COORD]
  }

  lemma LiveDistinct(live: seq<nat>, bound: nat, k: nat, m: nat)
    requires Increasing(live, bound) && k < |live| && m < |live| && k != m
    ensures live[k] != live[m]
  {
  }

  lemma UnlinkNextAt(next: seq<int>, live: seq<nat>, ring: bool, k: nat, m: nat)
    requires NextAgrees(next, live, ring) && k < |live| && m < |live| - 1
    ensures Unlinked(next, live[k], PrevLive(live, ring, k), NextLive(live, ring, k))[live[SlotBefore(k, m)]]
            == NextLive(Without(live, k), ring, m)
  {
    var o, p := SlotBefore(k, m), PrevLive(live, ring, k);
    NextWithout(live, ring, k, m);
    var before := if k > 0 then k - 1 else |live| - 1;
    LiveDistinct(live, |next|, o, k);
    if o != before { LiveDistinct(live, |next|, o, before); }
  }

  lemma UnlinkPrevAt(prev: seq<int>, live: seq<nat>, ring: bool, k: nat, m: nat)
    requires PrevAgrees(prev, live, ring) && k < |live| && m < |live| - 1
    ensures Unlinked(prev, live[k], NextLive(live, ring, k), PrevLive(live, ring, k))[live[SlotBefore(k, m)]]
            == PrevLive(Without(live, k), ring, m)
  {
    var o, n := SlotBefore(k, m), NextLive(live, ring, k);
    PrevWithout(live, ring, k, m);
    var after := if k + 1 < |live| then k + 1 else 0;
    LiveDistinct(live, |prev|, o, k);
    if o != after { LiveDistinct(live, |prev|, o, after); }
  }

  // Unlinking live[k] the way `remove` does leaves the links of the remaining vertices.
  lemma UnlinkNext(next: seq<int>, live: seq<nat>, ring: bool, k: nat)
    requires NextAgrees(next, live, ring) && k < |live|
    ensures NextAgrees(Unlinked(next, live[k], PrevLive(live, ring, k), NextLive(live, ring, k)),
                       Without(live, k), ring)
  {
    WithoutMembers(live, k, |next|);
    forall m | 0 <= m < |live| - 1
      ensures Unlinked(next, live[k], PrevLive(live, ring, k), NextLive(live, ring, k))[Without(live, k)[m]]
              == NextLive(Without(live, k), ring, m)
    {
      UnlinkNextAt(next, live, ring, k, m);
    }
  }

  lemma UnlinkPrev(prev: seq<int>, live: seq<nat>, ring: bool, k: nat)
    requires PrevAgrees(prev, live, ring) && k < |live|
    ensures PrevAgrees(Unlinked(prev, live[k], NextLive(live, ring, k), PrevLive(live, ring, k)),
                       Without(live, k), ring)
  {
    WithoutMembers(live, k, |prev|);
    forall m | 0 <= m < |live| - 1
      ensures Unlinked(prev, live[k], NextLive(live, ring, k), PrevLive(live, ring, k))[Without(live, k)[m]]
              == PrevLive(Without(live, k), ring, m)
    {
      UnlinkPrevAt(prev, live, ring, k, m);
    }
  }

  // The whole shape of a linked line: the link arrays agree with the live vertices,
  // and an open line still has both its ends.
  ghost predicate Shape(coord: seq<Point>, ring: bool, next: seq<int>, prev: seq<int>, live: seq<nat>) {
    && |coord| > 0
    && |next| == |prev| == (if ring then |coord| - 1 else |coord|)
    && NextAgrees(next, live, ring)
    && PrevAgrees(prev, live, ring)
    && (!ring ==> |live| > 0 && live[0] == 0 && live[|live| - 1] == |coord| - 1)
  }

  lemma UnlinkKeepsShape(coord: seq<Point>, ring: bool, next: seq<int>, prev: seq<int>, live: seq<nat>, k: nat)
    requires Shape(coord, ring, next, prev, live) && k < |live|
    requires !ring ==> 0 < k < |live| - 1
    ensures var i, p, n := live[k], prev[live[k]], next[live[k]];
      && p < |next| && n < |next|
      && Shape(coord, ring, Unlinked(next, i, p, n), Unlinked(prev, i, n, p), Without(live, k))
  {
    UnlinkNext(next, live, ring, k);
    UnlinkPrev(prev, live, ring, k);
  }

  lemma LinksInRange(next: seq<int>, prev: seq<int>, live: seq<nat>, ring: bool, k: nat)
    requires |next| == |prev| && NextAgrees(next, live, ring) && PrevAgrees(prev, live, ring) && k < |live|
    ensures live[k] < |next|
    ensures next[live[k]] == NextLive(live, ring, k) && prev[live[k]] == PrevLive(live, ring, k)
    ensures NO_COORD <= next[live[k]] < |next| && NO_COORD <= prev[live[k]] < |next|
  {
  }

  function InitialNext(n: nat, ring: bool): (r: seq<int>)
    ensures |r| == n
  {
    seq(n, i requires 0 <= i < n => if i + 1 < n then i + 1 else if ring then 0 else NO_COORD)
  }

  function InitialPrev(n: nat, ring: bool): (r: seq<int>)
    ensures |r| == n
  {
    seq(n, i requires 0 <= i < n => if i > 0 then i - 1 else if ring then n - 1 else NO_COORD)
  }

  function Identity(n: nat): (r: seq<nat>)
    ensures |r| == n && forall k :: 0 <= k < n ==> r[k] == k
    ensures forall i :: i in r <==> 0 <= i < n
  {
    if n == 0 then [] else Identity(n - 1) + [n - 1]
  }

  lemma InitialLinks(n: nat, ring: bool)
    ensures NextAgrees(InitialNext(n, ring), Identity(n), ring)
    ensures PrevAgrees(InitialPrev(n, ring), Identity(n), ring)
  {
  }

  function Coordinates(coord: seq<Point>, live: seq<nat>): (r: seq<Point>)
    requires Increasing(live, |coord|)
    ensures |r| == |live| && forall k :: 0 <= k < |live| ==> r[k] == coord[live[k]]
  {
    seq(|live|, k requires 0 <= k < |live| => coord[live[k]])
  }

  class LinkedLine {
    const coord: seq<Point>
    const isRing: bool
    var next: seq<int>
    var prev: seq<int>
    var size: nat
    ghost var live: seq<nat>

    ghost predicate Valid()
      reads this
    {
      && isRing == IsRing(coord)
      && size == |live|
      && Shape(coord, isRing, next, prev, live)
    }

    // The coordinates still linked, in order.
    ghost function View(): seq<Point>
      requires Valid()
      reads this
    {
      Coordinates(coord, live)
    }

    constructor (pts: seq<Point>)
      requires |pts| > 0
      ensures Valid() && coord == pts
      ensures live == Identity(|next|)
    {
      var ring := IsRing(pts);
      var n := if ring then |pts| - 1 else |pts|;
      coord := pts;
      isRing := ring;
      size := n;
      next := InitialNext(n, ring);
      prev := InitialPrev(n, ring);
      live := Identity(n);
      InitialLinks(n, ring);
    }

    predicate HasCoordinate(index: int)
      requires Valid()
      reads this
    {
      if !isRing && (index == 0 || index == |coord| - 1) then true
      else 0 <= index < |prev| && prev[index] != NO_COORD
    }

    lemma HasCoordinateIsLive(index: nat)
      requires Valid()
      ensures HasCoordinate(index) <==> index in live
    {
      if index in live {
        var k :| 0 <= k < |live| && live[k] == index;
        assert prev[live[k]] == PrevLive(live, isRing, k);
      }
    }

    method Remove(index: nat, ghost k: nat)
      requires Valid() && k < |live| && live[k] == index
      requires !isRing ==> 0 < k < |live| - 1
      modifies this
      ensures Valid()
      ensures live == Without(old(live), k)
      ensures size == old(size) - 1
      ensures |next| == |old(next)| && |prev| == |old(prev)| && index < |next| && index < |prev|
      ensures forall i :: 0 <= i < |next| && i != index && i != old(prev)[index] ==> next[i] == old(next)[i]
      ensures forall i :: 0 <= i < |prev| && i != index && i != old(next)[index] ==> prev[i] == old(prev)[i]
    {
      LinksInRange(next, prev, live, isRing, k);
      var iprev, inext := prev[index], next[index];
      if iprev != NO_COORD {
        next := next[iprev := inext];
      }
      if inext != NO_COORD {
        prev := prev[inext := iprev];
      }
      prev := prev[index := NO_COORD];
      next := next[index := NO_COORD];
      if size > 0 {
        size := size - 1;
      }
      assert next == Unlinked(old(next), index, iprev, inext);
      assert prev == Unlinked(old(prev), index, inext, iprev);
      live := Without(live, k);
      UnlinkKeepsShape(coord, isRing, old(next), old(prev), old(live), k);
    }

    method GetCoordinates() returns (coords: seq<Point>)
      requires Valid()
      ensures coords == if isRing then CloseRing(AddAll([], View())) else AddAll([], View())
    {
      coords := [];
      var len := if isRing then |coord| - 1 else |coord|;
      ghost var view, c := View(), 0;
      for i := 0 to len
        invariant Split(i, c)
        invariant coords == AddAll([], view[..c])
      {
        LiveAt(i, c);
        if HasCoordinate(i) {
          AddAllStep([], view, c);
          coords := AddPoint(coords, coord[i]);
          c := c + 1;
        }
      }
      assert view[..c] == view;
      if isRing {
        coords := CloseRing(coords);
      }
    }

    // Exactly the first c live vertices lie before index i.
    ghost predicate Split(i: nat, c: nat)
      reads this
    {
      && c <= |live|
      && (c > 0 ==> live[c - 1] < i)
      && (c < |live| ==> live[c] >= i)
    }

    // Index i is present exactly when it is the next live vertex.
    lemma LiveAt(i: nat, c: nat)
      requires Valid() && Split(i, c)
      ensures HasCoordinate(i) <==> c < |live| && live[c] == i
      ensures HasCoordinate(i) ==> Split(i + 1, c + 1)
      ensures !HasCoordinate(i) ==> Split(i + 1, c)
    {
      HasCoordinateIsLive(i);
      if i in live {
        var k :| 0 <= k < |live| && live[k] == i;
        assert k == c;
      }
    }
  }
}
