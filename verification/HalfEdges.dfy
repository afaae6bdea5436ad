/**
 Half-edges: symmetric pairs whose next pointers chain the edges around each vertex.

 The null-free pointers of a new half-edge start out at itself; `Link` sets them.
 Methods that walk around a vertex are given the star they walk as a ghost sequence.
 */
module HalfEdges {
  import opened Planar
  import opened DirectionRings

  class HalfEdge {
    const orig: Point
    var sym: HalfEdge
    var next: HalfEdge
    // of the marking and dissolving subclasses
    var marked: bool
    var isStart: bool

    constructor (p: Point)
      ensures orig == p && sym == this && next == this && !marked && !isStart
    {
      orig := p;
      sym := this;
      next := this;
      marked := false;
      isStart := false;
    }

    function Dest(): Point
      reads this`sym
    {
      sym.orig
    }

    // One step on in the star of the origin.
    function ONext(): HalfEdge
      reads this`sym, sym`next
    {
      sym.next
    }

    method Link(p: HalfEdge)
      requires p != this
      modifies this, p
      ensures sym == p && p.sym == this && next == p && p.next == this
      ensures marked == old(marked) && isStart == old(isStart)
      ensures p.marked == old(p.marked) && p.isStart == old(p.isStart)
    {
      sym := p;
      p.sym := this;
      next := p;
      p.next := this;
    }

    // The edges s are those met from s[0] on around its origin.
    static ghost predicate Star(s: seq<HalfEdge>)
      reads s`sym, (set e | e in s :: e.sym)`next
    {
      && |s| > 0
      && (forall i, j :: 0 <= i < j < |s| ==> s[i] != s[j])
      && (forall i {:trigger s[i].ONext()} :: 0 <= i < |s| ==> s[i].ONext() == Succ(s, i))
    }

    // They leave one vertex, and none returns to it.
    static ghost predicate LeaveFrom(s: seq<HalfEdge>, origin: Point)
      reads s`sym
    {
      forall i :: 0 <= i < |s| ==> s[i].orig == origin && s[i].Dest() != origin
    }

    static ghost function Dests(s: seq<HalfEdge>): (ds: seq<Point>)
      reads s`sym
      ensures |ds| == |s| && forall i :: 0 <= i < |s| ==> ds[i] == s[i].Dest()
    {
      if s == [] then [] else Dests(s[..|s| - 1]) + [s[|s| - 1].Dest()]
    }

    /** The edge of this star that ends at p, or null when there is none. */
    method Find(p: Point, ghost s: seq<HalfEdge>) returns (e: HalfEdge?)
      requires Star(s) && s[0] == this
      ensures e != null ==> e in s && e.Dest() == p
      ensures e == null ==> forall f :: f in s ==> f.Dest() != p
    {
      var oNxt := this;
      ghost var i := 0;
      while true
        invariant 0 <= i < |s| && oNxt == s[i]
        invariant forall j :: 0 <= j < i ==> s[j].Dest() != p
        decreases |s| - i
      {
        if oNxt.Dest() == p {
          return oNxt;
        }
        oNxt := oNxt.ONext();
        if oNxt == this {
          break;
        }
        i := i + 1;
      }
      return null;
    }

    function CompareTo(e: HalfEdge): int
      requires orig == e.orig && Dest() != orig && e.Dest() != orig
      reads this`sym, e`sym
    {
      CompareDirection(orig, Dest(), e.Dest())
    }

    /** The edge to insert behind; the end of the walk is never reached. */
    method InsertionEdge(eAdd: HalfEdge, ghost s: seq<HalfEdge>) returns (ePrev: HalfEdge)
      requires Star(s) && s[0] == this && LeaveFrom(s, orig)
      requires eAdd.orig == orig && eAdd.Dest() != orig
      ensures exists k :: 0 <= k < |s| && ePrev == s[k] && SlotAt(orig, Dests(s), k, eAdd.Dest())
    {
      ghost var ds := Dests(s);
      ghost var found := SlotExists(orig, ds, eAdd.Dest());
      ePrev := this;
      ghost var k := 0;
      while true
        invariant 0 <= k <= found < |s| && ePrev == s[k]
        decreases |s| - k
      {
        var eNext := ePrev.ONext();
        assert eNext == Succ(s, k) && eNext.Dest() == Succ(ds, k);
        if eNext.CompareTo(ePrev) > 0 && eAdd.CompareTo(ePrev) >= 0 && eAdd.CompareTo(eNext) <= 0 {
          return;
        }
        if eNext.CompareTo(ePrev) <= 0 && (eAdd.CompareTo(eNext) <= 0 || eAdd.CompareTo(ePrev) >= 0) {
          return;
        }
        assert !SlotAt(orig, ds, k, eAdd.Dest());
        ePrev := eNext;
        k := k + 1;
      }
    }

    method InsertAfter(e: HalfEdge)
      requires orig == e.orig && sym != e.sym
      modifies sym`next, e.sym`next
      ensures sym.next == e && e.sym.next == old(sym.next)
    {
      var save := ONext();
      sym.next := e;
      e.sym.next := save;
    }

    /** Insert eAdd into the star of this edge, behind position k of it. */
    method Insert(eAdd: HalfEdge, ghost s: seq<HalfEdge>) returns (ghost k: nat)
      requires Star(s) && s[0] == this && LeaveFrom(s, orig)
      requires eAdd.orig == orig && eAdd.Dest() != orig
      requires forall e :: e in s ==> e.sym != eAdd.sym
      modifies set e | e in s :: e.sym`next, eAdd.sym`next
      ensures k < |s| && SlotAt(orig, Dests(s), k, eAdd.Dest())
      ensures s[k].sym.next == eAdd && eAdd.sym.next == Succ(s, k)
      ensures forall f: HalfEdge | old(allocated(f)) && f != s[k].sym && f != eAdd.sym :: f.next == old(f.next)
    {
      if ONext() == this {
        k := 0;
        assert s[0].ONext() == Succ(s, 0);
        assert |s| == 1;
        assert Dests(s) == [Dest()];
        SingleSlot(orig, Dest(), eAdd.Dest());
        InsertAfter(eAdd);
        return;
      }
      var ePrev := InsertionEdge(eAdd, s);
      k :| 0 <= k < |s| && ePrev == s[k] && SlotAt(orig, Dests(s), k, eAdd.Dest());
      assert s[k].ONext() == Succ(s, k);
      hide SlotAt;
      hide Dests;
      ePrev.InsertAfter(eAdd);
    }

    /** The number of edges leaving the origin. */
    method Degree(ghost s: seq<HalfEdge>) returns (degree: nat)
      requires Star(s) && s[0] == this
      ensures degree == |s|
    {
      degree := 0;
      var e := this;
      while true
        invariant 0 <= degree < |s| && e == s[degree]
        decreases |s| - degree
      {
        assert e.ONext() == Succ(s, degree);
        degree := degree + 1;
        e := e.ONext();
        if e == this {
          break;
        }
      }
    }

    /** The edge whose next is this one: the sym of the last edge of the star. */
    method Prev(ghost s: seq<HalfEdge>) returns (prev: HalfEdge)
      requires Star(s) && s[0] == this
      ensures prev == s[|s| - 1].sym && prev.next == this
    {
      var currEdge, prevEdge := this, this;
      ghost var i := 0;
      while true
        invariant 0 <= i < |s| && currEdge == s[i]
        decreases |s| - i
      {
        assert currEdge.ONext() == Succ(s, i);
        prevEdge := currEdge;
        currEdge := currEdge.ONext();
        if currEdge == this {
          break;
        }
        i := i + 1;
      }
      return prevEdge.sym;
    }

    // Walking the star from another of its edges.
    static lemma StarFrom(s: seq<HalfEdge>, i: nat)
      requires Star(s) && i < |s|
      ensures Star(s[i..] + s[..i])
    {
      var t := s[i..] + s[..i];
      forall j | 0 <= j < |t| ensures t[j].ONext() == Succ(t, j) {
        var k := if j < |s| - i then i + j else j - (|s| - i);
        assert t[j] == s[k];
        assert s[k].ONext() == Succ(s, k);
      }
    }

    // An edge of the star with no direction below its own.
    method FindLowest(ghost s: seq<HalfEdge>) returns (lowest: HalfEdge, ghost m: nat)
      requires Star(s) && s[0] == this && LeaveFrom(s, orig)
      ensures m < |s| && lowest == s[m] && Around(orig, Dests(s)) && Lowest(orig, Dests(s), m)
    {
      lowest, m := this, 0;
      ghost var ds := Dests(s);
      ghost var i := 0;
      assert s[0].ONext() == Succ(s, 0);
      CompareFacts(orig, ds[0], ds[0], ds[0]);
      var e := ONext();
      while true
        invariant 0 <= i < |s| && (i + 1 < |s| || i == 0) && e == Succ(s, i) && m < |s| && lowest == s[m]
        invariant forall j :: 0 <= j <= i ==> !Less(orig, ds[j], ds[m])
        decreases |s| - i
      {
        ghost var n := if i + 1 < |s| then i + 1 else 0;
        LowerOf(orig, ds, i, m, n);
        if e.CompareTo(lowest) < 0 {
          lowest, m := e, n;
        }
        assert s[n].ONext() == Succ(s, n);
        e := e.ONext();
        if e == this {
          break;
        }
        i := i + 1;
      }
    }

    // The lower of a lowest so far and one more is lowest of them all.
    static lemma LowerOf(origin: Point, ds: seq<Point>, i: nat, m: nat, n: nat)
      requires Around(origin, ds) && i < |ds| && m < |ds| && n < |ds|
      requires forall j :: 0 <= j <= i ==> !Less(origin, ds[j], ds[m])
      ensures var m' := if Less(origin, ds[n], ds[m]) then n else m;
        !Less(origin, ds[n], ds[m']) && forall j :: 0 <= j <= i ==> !Less(origin, ds[j], ds[m'])
    {
      CompareFacts(origin, ds[n], ds[n], ds[n]);
      forall j | 0 <= j <= i && Less(origin, ds[n], ds[m]) ensures !Less(origin, ds[j], ds[n]) {
        CompareFacts(origin, ds[j], ds[n], ds[m]);
      }
    }

    predicate IsAbove(e: HalfEdge)
      requires orig == e.orig && Dest() != orig && e.Dest() != orig
      reads this`sym, e`sym
      ensures IsAbove(e) <==> CompareDirection(orig, Dest(), e.Dest()) > 0
    {
      CompareTo(e) > 0
    }

    // One step of the walk.
    static lemma WalkStep(s: seq<HalfEdge>, origin: Point, k: nat)
      requires Star(s) && LeaveFrom(s, origin) && k < |s|
      ensures s[k].ONext() == Succ(s, k) && s[k].orig == origin && s[k].Dest() == Dests(s)[k]
      ensures Around(origin, Dests(s)) && |Dests(s)| == |s|
      ensures k + 1 < |s| <==> Succ(s, k) != s[0]
      ensures k + 1 < |s| ==>
        Succ(s, k) == s[k + 1] && s[k + 1].orig == origin && s[k + 1].Dest() == Dests(s)[k + 1] &&
        Dests(s)[k] != origin && Dests(s)[k + 1] != origin
    {
    }

    // Whether each edge met walking around from this one is above the one before it.
    method IsRising(ghost s: seq<HalfEdge>) returns (rising: bool)
      requires Star(s) && |s| > 0 && s[0] == this && LeaveFrom(s, orig)
      ensures Around(orig, Dests(s)) && (rising <==> RisingDirections(orig, Dests(s)))
    {
      ghost var ds := Dests(s);
      WalkStep(s, orig, 0);
      StepsAllRise(orig, ds);
      StepsUpFirst(orig, ds);
      hide *;
      var e := this;
      ghost var k := 0;
      while true
        invariant 0 <= k < |s| == |ds| && e == s[k] && StepsUp(orig, ds, k)
        decreases |s| - k
      {
        WalkStep(s, orig, k);
        var eNext := e.ONext();
        if eNext == this {
          return true;
        }
        StepsUpNext(orig, ds, k);
        if !eNext.IsAbove(e) {
          return false;
        }
        e := eNext;
        k := k + 1;
      }
    }

    static lemma ReadFromAt<T>(s: seq<T>, m: nat, k: nat) returns (i: nat)
      requires m < |s| && k < |s|
      ensures i < |s| && |s[m..] + s[..m]| == |s| && (s[m..] + s[..m])[k] == s[i]
      ensures i == if m + k < |s| then m + k else m + k - |s|
    {
      i := if m + k < |s| then m + k else m + k - |s|;
    }

    static lemma LeaveFromAround(s: seq<HalfEdge>, origin: Point, m: nat)
      requires LeaveFrom(s, origin) && m < |s|
      ensures LeaveFrom(s[m..] + s[..m], origin) && s[m].orig == origin && Around(origin, Dests(s))
      ensures Dests(s[m..] + s[..m]) == Dests(s)[m..] + Dests(s)[..m]
    {
      hide LeaveFrom;
      var t, dt := s[m..] + s[..m], Dests(s)[m..] + Dests(s)[..m];
      forall k | 0 <= k < |t|
        ensures t[k].orig == origin && t[k].Dest() != origin && Dests(t)[k] == dt[k]
      {
        var i := ReadFromAt(s, m, k);
        LeavesAt(s, origin, i);
        var j := ReadFromAt(Dests(s), m, k);
      }
      LeaveFromEach(t, origin);
      LeavesAt(s, origin, m);
      AroundEach(s, origin);
      assert Dests(t) == dt;
    }

    static lemma LeavesAt(s: seq<HalfEdge>, origin: Point, i: nat)
      requires LeaveFrom(s, origin) && i < |s|
      ensures s[i].orig == origin && s[i].Dest() != origin && Dests(s)[i] == s[i].Dest()
    {
    }

    static lemma LeaveFromEach(s: seq<HalfEdge>, origin: Point)
      requires forall i :: 0 <= i < |s| ==> s[i].orig == origin && s[i].Dest() != origin
      ensures LeaveFrom(s, origin)
    {
    }

    static lemma AroundEach(s: seq<HalfEdge>, origin: Point)
      requires LeaveFrom(s, origin)
      ensures Around(origin, Dests(s))
    {
    }

    // The star read from a lowest edge on.
    static lemma FromLowest(s: seq<HalfEdge>, origin: Point, m: nat)
      requires Star(s) && LeaveFrom(s, origin) && m < |s| && Around(origin, Dests(s)) && Lowest(origin, Dests(s), m)
      ensures var t := s[m..] + s[..m];
        && Star(t) && LeaveFrom(t, origin) && t[0] == s[m] && t[0].orig == origin
        && Around(origin, Dests(t)) && (CounterClockwise(origin, Dests(s)) <==> RisingDirections(origin, Dests(t)))
    {
      hide *;
      StarFrom(s, m);
      LeaveFromAround(s, origin, m);
      RisesFromLowest(origin, Dests(s), m);
      RisesAround(origin, Dests(s), m);
    }

    /** Whether the star is in counter-clockwise order; two edges of equal direction make it unsorted. */
    method IsEdgesSorted(ghost s: seq<HalfEdge>) returns (sorted: bool)
      requires Star(s) && |s| > 0 && s[0] == this && LeaveFrom(s, orig)
      ensures Around(orig, Dests(s)) && (sorted <==> CounterClockwise(orig, Dests(s)))
    {
      hide *;
      var lowest, m := FindLowest(s);
      FromLowest(s, orig, m);
      sorted := lowest.IsRising(s[m..] + s[..m]);
    }
  }
}
