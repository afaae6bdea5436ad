/**
 Topology-preserving Visvalingam-Whyatt simplification of a set of lines.

 Each edge holds a linked line and a vertex index that are thinned in place while
 a queue of small corners is worked off.  The spatial indexes are exact filters here.
 The contracts tie every method to the runs of SimplifyRuns, where the planar
 properties are proved.
 */
module Tpvw {
  import opened Planar
  import opened Pasch
  import opened CoordinateLists
  import opened LinkedLines
  import opened Arrangement
  import opened SimplifyRuns
  import opened LeastCorners

  // ---- Corners and their queue

  // Smaller area first, then smaller index.
  function CompareCorners(c: Corner, d: Corner): int {
    if c.area == d.area then
      if c.index == d.index then 0 else if c.index < d.index then -1 else 1
    else if c.area < d.area then -1 else 1
  }

  // c is not behind d: it has less area, or the same and no later a vertex.
  predicate NotBehind(c: Corner, d: Corner) {
    c.area < d.area || (c.area == d.area && c.index <= d.index)
  }

  class CornerQueue {
    var items: seq<Corner>

    constructor ()
      ensures items == []
    {
      items := [];
    }

    method Push(c: Corner)
      modifies this
      ensures items == old(items) + [c]
    {
      items := items + [c];
    }

    // Take out one least corner.
    method Pop() returns (c: Corner)
      requires items != []
      modifies this
      ensures exists k :: 0 <= k < |old(items)| && c == old(items)[k] && items == old(items)[..k] + old(items)[k + 1..]
      ensures forall d :: d in old(items) ==> c.area < d.area || (c.area == d.area && c.index <= d.index)
      ensures forall d :: d in old(items) && d != c ==> d in items
    {
      var best := 0;
      for i := 1 to |items|
        invariant 0 <= best < |items|
        invariant forall k :: 0 <= k < i ==> NotBehind(items[best], items[k])
      {
        if CompareCorners(items[i], items[best]) < 0 {
          best := i;
        }
      }
      c := items[best];
      items := items[..best] + items[best + 1..];
    }
  }

  // ---- Vertex index

  class VertexIndex {
    const items: seq<Point>
    var removed: seq<bool>

    constructor (pts: seq<Point>)
      ensures items == pts && removed == seq(|pts|, i => false)
    {
      items := pts;
      removed := seq(|pts|, i => false);
    }

    method Query(env: Envelope) returns (result: seq<nat>)
      requires |removed| == |items|
      ensures forall i :: i in result <==> 0 <= i < |items| && !removed[i] && Covers(env, items[i])
    {
      result := [];
      for i := 0 to |items|
        invariant forall k :: k in result <==> 0 <= k < i && !removed[k] && Covers(env, items[k])
      {
        if !removed[i] && Covers(env, items[i]) {
          result := result + [i];
        }
      }
    }

    method Remove(index: nat)
      requires index < |removed|
      modifies this
      ensures removed == old(removed)[index := true]
    {
      removed := removed[index := true];
    }
  }

  function EnvelopeOfAll(pts: seq<Point>): Envelope
    requires |pts| > 0
  {
    if |pts| == 1 then EnvelopeOf(pts[0]) else Expand(EnvelopeOfAll(pts[..|pts| - 1]), pts[|pts| - 1])
  }

  lemma {:induction false} EnvelopeCoversAll(pts: seq<Point>, k: nat)
    requires k < |pts|
    ensures Covers(EnvelopeOfAll(pts), pts[k])
  {
    if |pts| > 1 && k < |pts| - 1 {
      EnvelopeCoversAll(pts[..|pts| - 1], k);
    }
  }

  lemma CommonPointIntersects(a: Envelope, b: Envelope, p: Point)
    requires Covers(a, p) && Covers(b, p)
    ensures EnvelopesIntersect(a, b)
  {
  }

  // The line an input coordinate sequence stands for.
  function LineOf(pts: seq<Point>, free: bool): Line {
    if IsRing(pts) then Line(pts[..|pts| - 1], true, free) else Line(pts, false, free)
  }

  // The coordinates written out for a line: repeated points dropped, rings closed.
  function Output(l: Line): seq<Point> {
    if l.closed then CloseRing(AddAll([], l.pts)) else AddAll([], l.pts)
  }

  // ---- Edges

  // The corner's three vertices are vertices of the line and its area is theirs.
  predicate CornerOf(c: Corner, pts: seq<Point>) {
    && c.index < |pts| && 0 <= c.prev < |pts| && 0 <= c.next < |pts|
    && c.area == TriangleArea(pts[c.prev], pts[c.index], pts[c.next])
  }

  // As long as its three vertices are linked, a corner's links are those of the line.
  ghost predicate Matches(next: seq<int>, prev: seq<int>, live: seq<nat>, c: Corner) {
    c.index in live && c.prev in live && c.next in live ==>
      c.index < |next| && c.index < |prev| && prev[c.index] == c.prev && next[c.index] == c.next
  }

  // No corner is queued twice, or queued again when it was rejected.
  ghost predicate Untried(next: seq<int>, prev: seq<int>, live: seq<nat>, items: seq<Corner>, rejected: set<Corner>) {
    && (forall i, j :: 0 <= i < j < |items| ==> items[i] != items[j])
    && (forall c :: c in items ==> c !in rejected)
    && (forall c :: c in items || c in rejected ==> Matches(next, prev, live, c))
  }

  lemma PoppedUntried(next: seq<int>, prev: seq<int>, live: seq<nat>, items: seq<Corner>, k: nat,
                      rejected: set<Corner>)
    requires Untried(next, prev, live, items, rejected) && k < |items|
    ensures var rest := items[..k] + items[k + 1..];
      Untried(next, prev, live, rest, rejected) && Untried(next, prev, live, rest, rejected + {items[k]})
    ensures items[k] !in rejected
  {
    hide Matches;
    assert items[k] in items;
    var rest := items[..k] + items[k + 1..];
    forall c | c in rest ensures c in items && c != items[k] {
      var m :| 0 <= m < |rest| && rest[m] == c;
      assert c == items[if m < k then m else m + 1];
    }
  }

  lemma PushedUntried(next: seq<int>, prev: seq<int>, live: seq<nat>, items: seq<Corner>, c: Corner,
                      rejected: set<Corner>)
    requires Untried(next, prev, live, items, rejected) && c !in items && c !in rejected
    requires Matches(next, prev, live, c)
    ensures Untried(next, prev, live, items + [c], rejected)
  {
    hide Matches;
  }

  class Edge {
    const pts: seq<Point>
    const areaTolerance: real
    const isFreeRing: bool
    const envelope: Envelope
    const nbPts: nat
    const linkedLine: LinkedLine
    const vertexIndex: VertexIndex
    const minEdgeSize: nat

    // The parts that never change, as the constructor sets them.
    ghost predicate Fixed() {
      && |pts| >= 2 && nbPts == |pts|
      && (isFreeRing ==> IsRing(pts))
      && envelope == EnvelopeOfAll(pts)
      && minEdgeSize == (if IsRing(pts) then 3 else 2)
      && linkedLine.coord == pts
      && vertexIndex.items == pts
    }

    ghost predicate Valid()
      reads linkedLine, vertexIndex
    {
      && Fixed()
      && linkedLine.Valid()
      && linkedLine.size >= minEdgeSize
      && (IsRing(pts) && !isFreeRing ==> linkedLine.live[0] == 0)
      && |vertexIndex.removed| == |pts|
      && (forall i :: 0 <= i < |pts| ==> (i in linkedLine.live <==> !vertexIndex.removed[i]))
    }

    ghost function View(): Line
      requires Valid()
      reads linkedLine, vertexIndex
    {
      Line(linkedLine.View(), linkedLine.isRing, isFreeRing)
    }

    constructor (line: seq<Point>, free: bool, tolerance: real)
      requires |line| >= 2
      requires free ==> IsRing(line)
      ensures Valid() && fresh(linkedLine) && fresh(vertexIndex)
      ensures pts == line && isFreeRing == free && areaTolerance == tolerance
      ensures linkedLine.live == Identity(|linkedLine.next|)
      ensures View() == LineOf(line, free)
    {
      pts := line;
      areaTolerance := tolerance;
      isFreeRing := free;
      envelope := EnvelopeOfAll(line);
      nbPts := |line|;
      var linked := new LinkedLine(line);
      var vertices := new VertexIndex(line);
      linkedLine := linked;
      vertexIndex := vertices;
      minEdgeSize := if IsRing(line) then 3 else 2;
      if linked.isRing {
        vertices.Remove(|line| - 1);
      }
    }

    // Corner k of the view, as the linked line stores it.
    lemma CornerLinks(k: nat)
      requires Valid() && k < |linkedLine.live|
      requires linkedLine.isRing || 0 < k < |linkedLine.live| - 1
      ensures var i, l := linkedLine.live[k], View();
        && i < |linkedLine.next|
        && linkedLine.prev[i] == linkedLine.live[Preceding(l, k)]
        && linkedLine.next[i] == linkedLine.live[Following(l, k)]
    {
      LinksInRange(linkedLine.next, linkedLine.prev, linkedLine.live, linkedLine.isRing, k);
    }

    // Indices that may become corners.
    predicate MayBeCorner(i: nat) {
      i < (if IsRing(pts) then |pts| - 1 else |pts|) && (isFreeRing || (i != 0 && i != nbPts - 1))
    }

    lemma CornerSlot(i: nat) returns (k: nat)
      requires Valid() && i in linkedLine.live && MayBeCorner(i)
      ensures k < |linkedLine.live| && linkedLine.live[k] == i
      ensures linkedLine.isRing || 0 < k < |linkedLine.live| - 1
      ensures !FixedSlot(View(), k)
    {
      k :| 0 <= k < |linkedLine.live| && linkedLine.live[k] == i;
    }

    // What holds of every corner waiting in the queue.
    ghost predicate Queued(items: seq<Corner>) {
      forall c :: c in items ==> CornerOf(c, pts) && c.area <= areaTolerance && MayBeCorner(c.index)
    }

    // The corner at one of the live vertices under the given links, small enough to be cut.
    ghost predicate Small(next: seq<int>, prev: seq<int>, live: seq<nat>, c: Corner) {
      && c.index in live && c.index < |next| && c.index < |prev| && MayBeCorner(c.index)
      && c.prev == prev[c.index] && c.next == next[c.index]
      && CornerOf(c, pts) && c.area <= areaTolerance
    }

    ghost predicate SmallCorner(c: Corner)
      reads linkedLine
    {
      Small(linkedLine.next, linkedLine.prev, linkedLine.live, c)
    }

    // Every small corner is still to be tried or has been rejected.
    ghost predicate Awaited(items: seq<Corner>, rejected: set<Corner>)
      reads linkedLine
    {
      forall c :: SmallCorner(c) ==> c in items || c in rejected
    }

    // At most the small corner at i has been queued.
    ghost predicate Pushed(before: seq<Corner>, items: seq<Corner>, i: nat)
      reads linkedLine
    {
      items == before || exists c :: items == before + [c] && SmallCorner(c) && c.index == i
    }

    method AddCorner(i: nat, queue: CornerQueue)
      requires Valid() && i in linkedLine.live && Queued(queue.items)
      modifies queue
      ensures Queued(queue.items)
      ensures forall c :: c in old(queue.items) ==> c in queue.items
      ensures forall c :: SmallCorner(c) && c.index == i ==> c in queue.items
      ensures Pushed(old(queue.items), queue.items, i)
      ensures |queue.items| <= |old(queue.items)| + 1
    {
      if isFreeRing || (i != 0 && i != nbPts - 1) {
        ghost var k := CornerSlot(i);
        CornerLinks(k);
        var prev, next := linkedLine.prev[i], linkedLine.next[i];
        var corner := Corner(i, prev, next, TriangleArea(pts[prev], pts[i], pts[next]));
        if corner.area <= areaTolerance {
          assert SmallCorner(corner);
          queue.Push(corner);
        }
      }
    }

    lemma FirstUntried(before: seq<Corner>, items: seq<Corner>, i: nat)
      requires Untried(linkedLine.next, linkedLine.prev, linkedLine.live, before, {}) && Pushed(before, items, i)
      requires forall c :: c in before ==> SmallCorner(c) && c.index < i
      ensures Untried(linkedLine.next, linkedLine.prev, linkedLine.live, items, {})
      ensures forall c :: c in items ==> SmallCorner(c) && c.index < i + 1
    {
      if items != before {
        var c :| items == before + [c] && SmallCorner(c) && c.index == i;
        assert Matches(linkedLine.next, linkedLine.prev, linkedLine.live, c);
        hide Untried;
        hide Small;
        hide Matches;
        PushedUntried(linkedLine.next, linkedLine.prev, linkedLine.live, before, c, {});
      }
    }

    method CreateQueue(queue: CornerQueue)
      requires Valid() && linkedLine.live == Identity(|linkedLine.next|) && queue.items == []
      modifies queue
      ensures Queued(queue.items) && Awaited(queue.items, {})
      ensures forall c :: c in queue.items ==> SmallCorner(c)
      ensures Untried(linkedLine.next, linkedLine.prev, linkedLine.live, queue.items, {})
    {
      var minIndex := if linkedLine.isRing && isFreeRing then 0 else 1;
      for i := minIndex to nbPts - 1
        invariant Queued(queue.items)
        invariant forall c :: SmallCorner(c) && c.index < i ==> c in queue.items
        invariant forall c :: c in queue.items ==> SmallCorner(c) && c.index < i
        invariant Untried(linkedLine.next, linkedLine.prev, linkedLine.live, queue.items, {})
      {
        assert linkedLine.live[i] == i;
        ghost var before := queue.items;
        AddCorner(i, queue);
        FirstUntried(before, queue.items, i);
      }
    }

    predicate IsRemoved(c: Corner)
      requires Valid() && MayBeCorner(c.index)
      reads linkedLine, vertexIndex
    {
      linkedLine.prev[c.index] != c.prev || linkedLine.next[c.index] != c.next
    }

    // The queued corner c is still the corner at slot k.
    ghost predicate IsCornerAt(c: Corner, k: nat)
      requires Valid()
      reads linkedLine, vertexIndex
    {
      && k < |linkedLine.live| && c.index == linkedLine.live[k]
      && c.prev == linkedLine.live[Preceding(View(), k)]
      && c.next == linkedLine.live[Following(View(), k)]
      && !FixedSlot(View(), k)
    }

    lemma LiveCorner(c: Corner) returns (k: nat)
      requires Valid() && CornerOf(c, pts) && MayBeCorner(c.index) && !IsRemoved(c)
      ensures IsCornerAt(c, k)
      ensures linkedLine.isRing || 0 < k < |linkedLine.live| - 1
    {
      k := CornerSlot(c.index);
      CornerLinks(k);
    }

    // ---- Is a corner removable?

    // Some vertex of the line is in the corner triangle.
    ghost predicate Obstructs(l: Line, a: Point, b: Point, c: Point) {
      exists m :: 0 <= m < |l.pts| && Blocks(l.pts[m], a, b, c)
    }

    method HasIntersectingVertex(corner: Corner, cornerEnv: Envelope, edge: Edge) returns (found: bool)
      requires Fixed() && CornerOf(corner, pts) && edge.Valid() && EndsDiffer(edge.View())
      requires cornerEnv == CornerEnvelope(pts[corner.prev], pts[corner.index], pts[corner.next])
      ensures found <==> Obstructs(edge.View(), pts[corner.prev], pts[corner.index], pts[corner.next])
    {
      var a, b, c := pts[corner.prev], pts[corner.index], pts[corner.next];
      var result := edge.vertexIndex.Query(cornerEnv);
      for h := 0 to |result|
        invariant forall g :: 0 <= g < h ==> result[g] < |edge.pts| && !Blocks(edge.pts[result[g]], a, b, c)
      {
        assert result[h] in result;
        var v := edge.pts[result[h]];
        // exactly the hits that pass this test obstruct the corner
        if v != a && v != b && v != c && TriangleIntersects(a, b, c, v) {
          edge.LiveSlot(result[h]);
          return true;
        }
      }
      forall m | 0 <= m < |edge.View().pts|
        ensures !Blocks(edge.View().pts[m], a, b, c)
      {
        assert edge.linkedLine.live[m] in edge.linkedLine.live;
        if Covers(cornerEnv, edge.View().pts[m]) {
          assert edge.linkedLine.live[m] in result;
        }
      }
      return false;
    }

    lemma LiveSlot(i: nat)
      requires Valid() && i in linkedLine.live
      ensures exists m :: 0 <= m < |View().pts| && View().pts[m] == pts[i]
    {
      var m :| 0 <= m < |linkedLine.live| && linkedLine.live[m] == i;
      assert View().pts[m] == pts[i];
    }

    // An edge whose envelope misses the corner's cannot stand in its way.
    lemma FarEdgeClear(edge: Edge, own: bool, a: Point, b: Point, c: Point)
      requires edge.Valid() && !EnvelopesIntersect(CornerEnvelope(a, b, c), edge.envelope)
      ensures LineClear(edge.View(), own, a, b, c)
    {
      forall m | 0 <= m < |edge.View().pts|
        ensures !Covers(CornerEnvelope(a, b, c), edge.View().pts[m])
      {
        EnvelopeCoversAll(edge.pts, edge.linkedLine.live[m]);
        if Covers(CornerEnvelope(a, b, c), edge.View().pts[m]) {
          CommonPointIntersects(CornerEnvelope(a, b, c), edge.envelope, edge.View().pts[m]);
        }
      }
      assert Covers(CornerEnvelope(a, b, c), a);
    }

    // What one hit of the edge index says about the corner.
    method EdgeAllows(corner: Corner, cornerEnv: Envelope, edge: Edge) returns (ok: bool)
      requires Fixed() && CornerOf(corner, pts) && edge.Valid() && EndsDiffer(edge.View())
      requires cornerEnv == CornerEnvelope(pts[corner.prev], pts[corner.index], pts[corner.next])
      ensures ok <==> LineClear(edge.View(), edge == this, pts[corner.prev], pts[corner.index], pts[corner.next])
    {
      var blocked := HasIntersectingVertex(corner, cornerEnv, edge);
      if blocked {
        return false;
      }
      // what LineClear asks besides, of other lines with two vertices left
      if edge != this && edge.linkedLine.size == 2 {
        var linePts := edge.linkedLine.GetCoordinates();
        edge.TwoPoints();
        if IsBaseline(pts[corner.prev], pts[corner.next], linePts[0], linePts[1]) {
          return false;
        }
      }
      return true;
    }

    // The edge index yields only edges with a nearby envelope.
    method HitAllows(corner: Corner, cornerEnv: Envelope, edge: Edge) returns (ok: bool)
      requires Fixed() && CornerOf(corner, pts) && edge.Valid() && EndsDiffer(edge.View())
      requires cornerEnv == CornerEnvelope(pts[corner.prev], pts[corner.index], pts[corner.next])
      ensures ok <==> LineClear(edge.View(), edge == this, pts[corner.prev], pts[corner.index], pts[corner.next])
    {
      ok := true;
      if EnvelopesIntersect(cornerEnv, edge.envelope) {
        ok := EdgeAllows(corner, cornerEnv, edge);
      } else {
        FarEdgeClear(edge, edge == this, pts[corner.prev], pts[corner.index], pts[corner.next]);
      }
    }

    method IsRemovable(corner: Corner, edgeIndex: seq<Edge>, ghost ls: seq<Line>, ghost me: nat, ghost k: nat)
      returns (removable: bool)
      requires Separate(edgeIndex) && Holds(edgeIndex, ls) && me < |edgeIndex| && edgeIndex[me] == this
      requires AllEndsDiffer(ls)
      requires CornerOf(corner, pts) && IsCornerAt(corner, k)
      ensures Slot(ls, me, k) && (removable <==> Removable(ls, me, k))
    {
      CornerMeans(corner, edgeIndex, ls, me, k);
      hide *;
      removable := true;
      var cornerEnv := CornerEnvelope(pts[corner.prev], pts[corner.index], pts[corner.next]);
      for j := 0 to |edgeIndex|
        invariant removable <==> ClearUpTo(ls, j, me, corner)
      {
        IndexedEdge(edgeIndex, ls, me, j);
        var ok := HitAllows(corner, cornerEnv, edgeIndex[j]);
        ClearNext(ls, j, me, corner);
        if !ok {
          NotClearTo(ls, j + 1, me, corner);
          return false;
        }
      }
    }

    // The corner has the points of slot k, and can be removed when every line allows it.
    lemma CornerMeans(corner: Corner, edgeIndex: seq<Edge>, ls: seq<Line>, me: nat, k: nat)
      requires Holds(edgeIndex, ls) && me < |edgeIndex| && edgeIndex[me] == this
      requires CornerOf(corner, pts) && IsCornerAt(corner, k)
      ensures corner.index < |pts| && 0 <= corner.prev < |pts| && 0 <= corner.next < |pts| && Fixed()
      ensures Slot(ls, me, k) && |edgeIndex| == |ls|
      ensures Removable(ls, me, k) <==> ClearUpTo(ls, |ls|, me, corner)
      ensures ClearUpTo(ls, 0, me, corner)
    {
    }

    // The first n lines allow the corner of line `me` to be removed.
    ghost predicate ClearUpTo(ls: seq<Line>, n: nat, me: nat, corner: Corner) {
      && CornerOf(corner, pts) && n <= |ls|
      && forall j :: 0 <= j < n ==> LineClear(ls[j], j == me, pts[corner.prev], pts[corner.index], pts[corner.next])
    }

    lemma ClearNext(ls: seq<Line>, n: nat, me: nat, corner: Corner)
      requires CornerOf(corner, pts) && n < |ls|
      ensures ClearUpTo(ls, n + 1, me, corner) <==>
        (ClearUpTo(ls, n, me, corner) &&
         LineClear(ls[n], n == me, pts[corner.prev], pts[corner.index], pts[corner.next]))
    {
    }

    lemma NotClearTo(ls: seq<Line>, n: nat, me: nat, corner: Corner)
      requires n <= |ls| && !ClearUpTo(ls, n, me, corner)
      ensures !ClearUpTo(ls, |ls|, me, corner)
    {
    }

    lemma IndexedEdge(edgeIndex: seq<Edge>, ls: seq<Line>, me: nat, j: nat)
      requires Separate(edgeIndex) && Holds(edgeIndex, ls) && me < |edgeIndex| && edgeIndex[me] == this
      requires AllEndsDiffer(ls) && j < |edgeIndex|
      ensures |ls| == |edgeIndex| && edgeIndex[j].Valid() && edgeIndex[j].View() == ls[j] && EndsDiffer(ls[j])
      ensures edgeIndex[j] == this <==> j == me
    {
      SameEdgeObject(edgeIndex, j, me);
      assert edgeIndex[j].Valid();
    }

    // ---- Removing corners

    // Away from the neighbours of `index` the live vertices are linked as before.
    ghost predicate SameLinks(next: seq<int>, prev: seq<int>, live: seq<nat>, index: nat)
      reads linkedLine
    {
      && |next| == |linkedLine.next| && |prev| == |linkedLine.prev| && |next| == |prev| && index < |next|
      && (forall i :: i in linkedLine.live ==> i < |next| && i != index && i in live)
      && (forall i :: i in linkedLine.live && i != prev[index] && i != next[index] ==>
            linkedLine.next[i] == next[i] && linkedLine.prev[i] == prev[i])
    }

    // Take a vertex out of the linked line and of the vertex index together.
    method Unlink(index: nat, ghost k: nat)
      requires Valid() && k < |linkedLine.live| && index == linkedLine.live[k] && !FixedSlot(View(), k)
      requires linkedLine.size > minEdgeSize
      modifies linkedLine, vertexIndex
      ensures Valid() && View() == WithoutVertex(old(View()), k) && linkedLine.live == Without(old(linkedLine.live), k)
      ensures linkedLine.size == old(linkedLine.size) - 1
      ensures forall i :: i in old(linkedLine.live) && i != index ==> i in linkedLine.live
      ensures SameLinks(old(linkedLine.next), old(linkedLine.prev), old(linkedLine.live), index)
    {
      ghost var next, prev, live := linkedLine.next, linkedLine.prev, linkedLine.live;
      WithoutMembers(live, k, |linkedLine.next|);
      linkedLine.Remove(index, k);
      LinksKept(next, prev, live, index, k);
      hide SameLinks;
      vertexIndex.Remove(index);
      ThinnedView(live, k);
    }

    lemma LinksKept(next: seq<int>, prev: seq<int>, live: seq<nat>, index: nat, k: nat)
      requires |next| == |linkedLine.next| && |prev| == |linkedLine.prev| && |next| == |prev| && index < |next|
      requires k < |live| && Increasing(live, |next|) && linkedLine.live == Without(live, k) && live[k] == index
      requires forall i :: 0 <= i < |next| && i != index && i != prev[index] ==> linkedLine.next[i] == next[i]
      requires forall i :: 0 <= i < |prev| && i != index && i != next[index] ==> linkedLine.prev[i] == prev[i]
      ensures SameLinks(next, prev, live, index)
    {
      WithoutMembers(live, k, |next|);
      assert forall i :: i in live ==> i < |next|;
      hide Increasing;
    }

    method RemoveCorner(corner: Corner, queue: CornerQueue, ghost k: nat, ghost rejected: set<Corner>)
      requires Valid() && IsCornerAt(corner, k) && Queued(queue.items)
      requires linkedLine.size > minEdgeSize && Awaited(queue.items, rejected + {corner})
      requires Untried(linkedLine.next, linkedLine.prev, linkedLine.live, queue.items, rejected)
      modifies linkedLine, vertexIndex, queue
      ensures Valid() && View() == WithoutVertex(old(View()), k) && linkedLine.live == Without(old(linkedLine.live), k)
      ensures linkedLine.size == old(linkedLine.size) - 1
      ensures Queued(queue.items) && |queue.items| <= |old(queue.items)| + 2
      ensures Awaited(queue.items, rejected)
      ensures Untried(linkedLine.next, linkedLine.prev, linkedLine.live, queue.items, rejected)
    {
      hide *;
      ghost var next0, prev0, live0;
      var prev, next;
      prev, next, next0, prev0, live0 := UnlinkCorner(corner, k, queue.items, rejected);
      QueueNeighbours(queue, prev, next, next0, prev0, live0, corner, rejected);
    }

    // Unlink the vertex of a corner; `prev` and `next` were its neighbours under the links there were.
    method UnlinkCorner(corner: Corner, ghost k: nat, ghost items: seq<Corner>, ghost rejected: set<Corner>)
      returns (prev: nat, next: nat, ghost next0: seq<int>, ghost prev0: seq<int>, ghost live0: seq<nat>)
      requires Valid() && IsCornerAt(corner, k) && linkedLine.size > minEdgeSize
      requires Awaited(items, rejected + {corner})
      requires Untried(linkedLine.next, linkedLine.prev, linkedLine.live, items, rejected)
      modifies linkedLine, vertexIndex
      ensures Valid() && View() == WithoutVertex(old(View()), k) && linkedLine.live == Without(old(linkedLine.live), k)
      ensures linkedLine.size == old(linkedLine.size) - 1
      ensures prev in linkedLine.live && next in linkedLine.live && prev != next
      ensures corner.index < |next0| && corner.index < |prev0|
      ensures prev == prev0[corner.index] && next == next0[corner.index]
      ensures AwaitedUnder(next0, prev0, live0, items, rejected + {corner})
      ensures OthersAsBefore(next0, prev0, live0, corner.index)
      ensures Untried(linkedLine.next, linkedLine.prev, linkedLine.live, items, rejected)
      ensures NewAt(items, rejected, prev, next)
    {
      hide *;
      CornerParts(corner, k);
      BackLinks(k);
      AwaitedLinks(items, rejected + {corner});
      var index := corner.index;
      prev, next := linkedLine.prev[index], linkedLine.next[index];
      next0, prev0, live0 := linkedLine.next, linkedLine.prev, linkedLine.live;
      Unlink(index, k);
      OthersSmall(next0, prev0, live0, index);
      StillUntried(next0, prev0, live0, index, items, rejected);
    }

    // Under the given links every small corner is queued or rejected.
    ghost predicate AwaitedUnder(next: seq<int>, prev: seq<int>, live: seq<nat>, items: seq<Corner>,
                                 rejected: set<Corner>) {
      forall c :: Small(next, prev, live, c) ==> c in items || c in rejected
    }

    // But for the two neighbours of `index`, the small corners were there under the given links.
    ghost predicate OthersAsBefore(next: seq<int>, prev: seq<int>, live: seq<nat>, index: nat)
      requires index < |next| && index < |prev|
      reads linkedLine
    {
      forall c :: SmallCorner(c) && c.index != prev[index] && c.index != next[index] ==>
        Small(next, prev, live, c) && c.index != index
    }

    // The small corners at p and n have been neither queued nor rejected.
    ghost predicate NewAt(items: seq<Corner>, rejected: set<Corner>, p: nat, n: nat)
      reads linkedLine
    {
      forall c :: SmallCorner(c) && (c.index == p || c.index == n) ==> c !in items && c !in rejected
    }

    // Queue the new corners of the two neighbours of a vertex that has been unlinked.
    method QueueNeighbours(queue: CornerQueue, prev: nat, next: nat, ghost next0: seq<int>, ghost prev0: seq<int>,
                           ghost live0: seq<nat>, ghost corner: Corner, ghost rejected: set<Corner>)
      requires Valid() && Queued(queue.items) && prev in linkedLine.live && next in linkedLine.live && prev != next
      requires corner.index < |next0| && corner.index < |prev0|
      requires prev == prev0[corner.index] && next == next0[corner.index]
      requires AwaitedUnder(next0, prev0, live0, queue.items, rejected + {corner})
      requires OthersAsBefore(next0, prev0, live0, corner.index)
      requires Untried(linkedLine.next, linkedLine.prev, linkedLine.live, queue.items, rejected)
      requires NewAt(queue.items, rejected, prev, next)
      modifies queue
      ensures Queued(queue.items) && |queue.items| <= |old(queue.items)| + 2
      ensures Awaited(queue.items, rejected)
      ensures Untried(linkedLine.next, linkedLine.prev, linkedLine.live, queue.items, rejected)
    {
      hide *;
      ghost var before := queue.items;
      AddCorner(prev, queue);
      ghost var mid := queue.items;
      AddCorner(next, queue);
      NeighboursAwaited(next0, prev0, live0, corner, before, queue.items, rejected);
      NeighboursUntried(before, mid, queue.items, prev, next, rejected);
    }

    lemma CornerParts(corner: Corner, k: nat)
      requires Valid() && IsCornerAt(corner, k) && linkedLine.size > minEdgeSize
      ensures k < |linkedLine.live| && linkedLine.live[k] == corner.index && !FixedSlot(View(), k)
      ensures corner.index < |linkedLine.next| && corner.index < |linkedLine.prev|
      ensures |linkedLine.next| == |linkedLine.prev|
      ensures var i, live := corner.index, linkedLine.live;
        && linkedLine.prev[i] in live && linkedLine.prev[i] != i
        && linkedLine.next[i] in live && linkedLine.next[i] != i && linkedLine.prev[i] != linkedLine.next[i]
        && 0 <= linkedLine.prev[i] && 0 <= linkedLine.next[i]
    {
      CornerLinks(k);
      NeighboursLive(k);
    }

    // The neighbours of a live vertex link back to it.
    lemma BackLinks(k: nat)
      requires Valid() && k < |linkedLine.live| && !FixedSlot(View(), k)
      ensures var i := linkedLine.live[k]; var next, prev := linkedLine.next, linkedLine.prev;
        && i < |next| && i < |prev| && 0 <= prev[i] < |next| && 0 <= next[i] < |prev|
        && next[prev[i]] == i && prev[next[i]] == i
    {
      var next, prev, live, ring := linkedLine.next, linkedLine.prev, linkedLine.live, linkedLine.isRing;
      LinksInRange(next, prev, live, ring, k);
      LinksInRange(next, prev, live, ring, Preceding(View(), k));
      LinksInRange(next, prev, live, ring, Following(View(), k));
    }

    // Unlinking a vertex, no corner queued or rejected is one of the new corners of its neighbours.
    lemma StillUntried(next: seq<int>, prev: seq<int>, live: seq<nat>, index: nat, items: seq<Corner>,
                       rejected: set<Corner>)
      requires Valid() && SameLinks(next, prev, live, index) && Untried(next, prev, live, items, rejected)
      requires 0 <= prev[index] < |next| && 0 <= next[index] < |prev|
      requires next[prev[index]] == index && prev[next[index]] == index
      ensures Untried(linkedLine.next, linkedLine.prev, linkedLine.live, items, rejected)
      ensures NewAt(items, rejected, prev[index], next[index])
    {
      forall c | c in items || c in rejected
        ensures Matches(linkedLine.next, linkedLine.prev, linkedLine.live, c)
        ensures c.index == prev[index] || c.index == next[index] ==> !SmallCorner(c)
      {
        assert Matches(next, prev, live, c);
        if SmallCorner(c) { SmallLinksLive(c); }
      }
      hide Matches;
      hide SameLinks;
      hide SmallCorner;
    }

    lemma SmallLinksLive(c: Corner)
      requires Valid() && SmallCorner(c)
      ensures c.index in linkedLine.live && c.prev in linkedLine.live && c.next in linkedLine.live
      ensures Matches(linkedLine.next, linkedLine.prev, linkedLine.live, c)
    {
      var k :| 0 <= k < |linkedLine.live| && linkedLine.live[k] == c.index;
      LinksInRange(linkedLine.next, linkedLine.prev, linkedLine.live, linkedLine.isRing, k);
    }

    lemma NeighboursUntried(before: seq<Corner>, mid: seq<Corner>, items: seq<Corner>, p: nat, n: nat,
                            rejected: set<Corner>)
      requires Valid() && Untried(linkedLine.next, linkedLine.prev, linkedLine.live, before, rejected) && p != n
      requires NewAt(before, rejected, p, n)
      requires Pushed(before, mid, p) && Pushed(mid, items, n)
      ensures Untried(linkedLine.next, linkedLine.prev, linkedLine.live, items, rejected)
    {
      hide Untried;
      hide Matches;
      hide SmallCorner;
      hide Valid;
      if mid != before {
        var c :| mid == before + [c] && SmallCorner(c) && c.index == p;
        SmallLinksLive(c);
        PushedUntried(linkedLine.next, linkedLine.prev, linkedLine.live, before, c, rejected);
      }
      if items != mid {
        var d :| items == mid + [d] && SmallCorner(d) && d.index == n;
        SmallLinksLive(d);
        PushedUntried(linkedLine.next, linkedLine.prev, linkedLine.live, mid, d, rejected);
      }
    }

    // With the new corners of the two neighbours queued, every small corner is awaited again.
    lemma NeighboursAwaited(next: seq<int>, prev: seq<int>, live: seq<nat>, corner: Corner, before: seq<Corner>,
                            items: seq<Corner>, rejected: set<Corner>)
      requires corner.index < |next| && corner.index < |prev|
      requires AwaitedUnder(next, prev, live, before, rejected + {corner})
      requires OthersAsBefore(next, prev, live, corner.index)
      requires forall c :: c in before ==> c in items
      requires forall c :: SmallCorner(c) && c.index == prev[corner.index] ==> c in items
      requires forall c :: SmallCorner(c) && c.index == next[corner.index] ==> c in items
      ensures Awaited(items, rejected)
    {
      hide SmallCorner;
      hide Small;
    }

    lemma AwaitedLinks(items: seq<Corner>, rejected: set<Corner>)
      requires Awaited(items, rejected)
      ensures AwaitedUnder(linkedLine.next, linkedLine.prev, linkedLine.live, items, rejected)
    {
      forall c | Small(linkedLine.next, linkedLine.prev, linkedLine.live, c) ensures c in items || c in rejected {
        assert SmallCorner(c);
      }
    }

    // Unlinking `index` leaves the corners as they were, except at its two neighbours.
    lemma OthersSmall(next: seq<int>, prev: seq<int>, live: seq<nat>, index: nat)
      requires SameLinks(next, prev, live, index)
      ensures index < |next| && index < |prev| && OthersAsBefore(next, prev, live, index)
    {
    }

    lemma NeighboursLive(k: nat)
      requires Valid() && k < |linkedLine.live| && !FixedSlot(View(), k)
      requires linkedLine.size > minEdgeSize
      ensures var l := View(); var live := linkedLine.live;
        && live[Preceding(l, k)] in live && live[Preceding(l, k)] != live[k]
        && live[Following(l, k)] in live && live[Following(l, k)] != live[k]
        && live[Preceding(l, k)] != live[Following(l, k)]
    {
    }

    // The coordinates left after taking out live[k].
    lemma ThinnedView(live: seq<nat>, k: nat)
      requires Increasing(live, |pts|) && k < |live|
      requires Increasing(Without(live, k), |pts|)
      ensures Coordinates(pts, Without(live, k)) == Coordinates(pts, live)[..k] + Coordinates(pts, live)[k + 1..]
    {
    }

    // Remove the corner if it is removable.
    method CutIfRemovable(corner: Corner, edgeIndex: seq<Edge>, queue: CornerQueue,
                          ghost ls: seq<Line>, ghost me: nat, ghost rejected: set<Corner>, ghost k: nat)
      returns (removed: bool)
      requires Separate(edgeIndex) && Holds(edgeIndex, ls) && me < |edgeIndex| && edgeIndex[me] == this
      requires AllEndsDiffer(ls)
      requires CornerOf(corner, pts) && IsCornerAt(corner, k)
      requires corner.area <= areaTolerance && linkedLine.size > minEdgeSize && Queued(queue.items)
      requires Awaited(queue.items, rejected + {corner})
      requires Untried(linkedLine.next, linkedLine.prev, linkedLine.live, queue.items, rejected)
      modifies linkedLine, vertexIndex, queue
      ensures Slot(ls, me, k) && (removed <==> Removable(ls, me, k))
      ensures removed ==> linkedLine.live == Without(old(linkedLine.live), k)
      ensures removed ==> Untried(linkedLine.next, linkedLine.prev, linkedLine.live, queue.items, rejected)
      ensures !removed ==> linkedLine.live == old(linkedLine.live)
      ensures !removed ==> linkedLine.next == old(linkedLine.next) && linkedLine.prev == old(linkedLine.prev)
      ensures removed ==> CutAllowed(ls, me, k, areaTolerance) && Holds(edgeIndex, Cut(ls, me, k))
      ensures removed ==> linkedLine.size == old(linkedLine.size) - 1 && |queue.items| <= |old(queue.items)| + 2
      ensures removed ==> Awaited(queue.items, rejected)
      ensures !removed ==>
        Holds(edgeIndex, ls) && linkedLine.size == old(linkedLine.size) && queue.items == old(queue.items)
      ensures !removed ==> Awaited(queue.items, rejected + {corner}) && IsBlocked(ls, me, corner)
      ensures Queued(queue.items)
    {
      hide Awaited;
      hide Untried;
      hide IsBlocked;
      hide CutAllowed;
      hide Removable;
      hide Queued;
      hide IsCornerAt;
      hide Matches;
      hide MayBeCorner;
      hide CornerOf;
      removed := IsRemovable(corner, edgeIndex, ls, me, k);
      if removed {
        CutIsAllowed(corner, edgeIndex, ls, me, k);
        PerformCut(corner, edgeIndex, queue, ls, me, rejected, k);
      } else {
        NotRemovableIsBlocked(corner, edgeIndex, ls, me, k);
      }
    }

    method PerformCut(corner: Corner, edgeIndex: seq<Edge>, queue: CornerQueue,
                      ghost ls: seq<Line>, ghost me: nat, ghost rejected: set<Corner>, ghost k: nat)
      requires Separate(edgeIndex) && Holds(edgeIndex, ls) && me < |edgeIndex| && edgeIndex[me] == this
      requires Slot(ls, me, k) && IsCornerAt(corner, k) && linkedLine.size > minEdgeSize && Queued(queue.items)
      requires Awaited(queue.items, rejected + {corner})
      requires Untried(linkedLine.next, linkedLine.prev, linkedLine.live, queue.items, rejected)
      modifies linkedLine, vertexIndex, queue
      ensures Holds(edgeIndex, Cut(ls, me, k)) && linkedLine.live == Without(old(linkedLine.live), k)
      ensures linkedLine.size == old(linkedLine.size) - 1 && |queue.items| <= |old(queue.items)| + 2
      ensures Queued(queue.items) && Awaited(queue.items, rejected)
      ensures Untried(linkedLine.next, linkedLine.prev, linkedLine.live, queue.items, rejected)
    {
      hide *;
      OwnParts(edgeIndex, me);
      HoldsAll(edgeIndex, ls);
      CutParts(ls, me, k);
      RemoveCorner(corner, queue, k, rejected);
      forall j | 0 <= j < |edgeIndex|
        ensures edgeIndex[j].Valid() && edgeIndex[j].View() == Cut(ls, me, k)[j]
      {
        if j == me { assert edgeIndex[j] == this; }
      }
      HoldsFrom(edgeIndex, Cut(ls, me, k));
    }

    static lemma HoldsAll(edges: seq<Edge>, ls: seq<Line>)
      requires Holds(edges, ls)
      ensures |ls| == |edges| && forall j :: 0 <= j < |edges| ==> edges[j].Valid() && edges[j].View() == ls[j]
    {
    }

    static lemma HoldsFrom(edges: seq<Edge>, ls: seq<Line>)
      requires |ls| == |edges| && forall j :: 0 <= j < |edges| ==> edges[j].Valid() && edges[j].View() == ls[j]
      ensures Holds(edges, ls)
    {
    }

    lemma CutParts(ls: seq<Line>, i: nat, k: nat)
      requires Slot(ls, i, k)
      ensures |Cut(ls, i, k)| == |ls| && Cut(ls, i, k)[i] == WithoutVertex(ls[i], k)
      ensures forall j :: 0 <= j < |ls| && j != i ==> Cut(ls, i, k)[j] == ls[j]
    {
    }

    // Something stands in the way of cutting the corner.
    ghost predicate IsBlocked(ls: seq<Line>, me: nat, c: Corner) {
      CornerOf(c, pts) && !CornerClear(ls, me, pts[c.prev], pts[c.index], pts[c.next])
    }

    lemma NotRemovableIsBlocked(corner: Corner, edgeIndex: seq<Edge>, ls: seq<Line>, me: nat, k: nat)
      requires Holds(edgeIndex, ls) && me < |edgeIndex| && edgeIndex[me] == this
      requires CornerOf(corner, pts) && IsCornerAt(corner, k)
      requires Slot(ls, me, k) && !Removable(ls, me, k)
      ensures IsBlocked(ls, me, corner)
    {
    }

    lemma CutIsAllowed(corner: Corner, edgeIndex: seq<Edge>, ls: seq<Line>, me: nat, k: nat)
      requires Holds(edgeIndex, ls) && me < |edgeIndex| && edgeIndex[me] == this
      requires CornerOf(corner, pts) && IsCornerAt(corner, k)
      requires corner.area <= areaTolerance && linkedLine.size > minEdgeSize
      requires Slot(ls, me, k) && Removable(ls, me, k)
      ensures CutAllowed(ls, me, k, areaTolerance)
    {
    }

    static lemma OwnParts(edges: seq<Edge>, me: nat)
      requires Separate(edges) && me < |edges|
      ensures forall j :: 0 <= j < |edges| && j != me ==>
        edges[j].linkedLine != edges[me].linkedLine && edges[j].vertexIndex != edges[me].vertexIndex
    {
    }

    // A queued corner that is no longer a corner of the line need not be awaited.
    lemma RemovedNotSmall(corner: Corner, before: seq<Corner>, items: seq<Corner>, rejected: set<Corner>)
      requires Valid() && Awaited(before, rejected) && MayBeCorner(corner.index)
      requires forall d :: d in before && d != corner ==> d in items
      ensures Awaited(items, rejected + {corner})
      ensures IsRemoved(corner) ==> Awaited(items, rejected)
    {
    }

    // The edge among the lines, with its corners rejected so far.
    ghost function StateOf(ls: seq<Line>, rejected: set<Corner>): State
      reads linkedLine
    {
      State(ls, linkedLine.live, rejected)
    }

    // A corner out of the queue that is still one of the line is the next to be tried.
    lemma PoppedIsNext(edgeIndex: seq<Edge>, ls: seq<Line>, me: nat, k: nat, corner: Corner, before: seq<Corner>,
                       rejected: set<Corner>)
      requires Holds(edgeIndex, ls) && me < |edgeIndex| && edgeIndex[me] == this
      requires CornerOf(corner, pts) && IsCornerAt(corner, k) && corner.area <= areaTolerance
      requires linkedLine.size > minEdgeSize && Awaited(before, rejected) && corner !in rejected
      requires forall d :: d in before ==> NotBehind(corner, d)
      ensures IsNext(StateOf(ls, rejected), me, k, areaTolerance)
      ensures CornerAt(StateOf(ls, rejected), me, k) == corner
    {
      var s := StateOf(ls, rejected);
      assert CornerAt(s, me, k) == corner;
      forall m: nat | Candidate(s, me, m, areaTolerance)
        ensures CornerArea(ls, me, k) < CornerArea(ls, me, m) ||
                (CornerArea(ls, me, k) == CornerArea(ls, me, m) && k <= m)
      {
        var d := SlotCorner(edgeIndex, ls, me, m);
        assert d == CornerAt(s, me, m);
        assert d in before;
      }
    }

    lemma StepIs(ls: seq<Line>, me: nat, k: nat, corner: Corner, live: seq<nat>, rejected: set<Corner>, removed: bool)
      requires IsNext(State(ls, live, rejected), me, k, areaTolerance) && Slot(ls, me, k) && k < |live|
      requires CornerAt(State(ls, live, rejected), me, k) == corner && (removed <==> Removable(ls, me, k))
      ensures Leads(State(ls, live, rejected), me, [k], areaTolerance,
                    if removed then State(Cut(ls, me, k), Without(live, k), rejected)
                    else State(ls, live, rejected + {corner}))
    {
      var s := State(ls, live, rejected);
      LeadsNone(s, me, areaTolerance);
      assert Step(s, me, k, areaTolerance, Try(s, me, k));
      hide Step;
      hide Try;
      LeadsOn(s, me, [], areaTolerance, s, k, Try(s, me, k));
      assert [] + [k] == [k];
    }

    // Try the corner taken out of the queue: it is cut or rejected. `cuts` lists the slots cut: one, or none.
    method TryCorner(corner: Corner, edgeIndex: seq<Edge>, queue: CornerQueue, ghost ls: seq<Line>, ghost me: nat,
                     ghost rejected: set<Corner>, ghost before: seq<Corner>)
      returns (ghost cuts: seq<nat>, ghost rejected': set<Corner>, ghost tried: seq<nat>)
      requires Separate(edgeIndex) && Holds(edgeIndex, ls) && me < |edgeIndex| && edgeIndex[me] == this
      requires AllEndsDiffer(ls)
      requires CornerOf(corner, pts) && MayBeCorner(corner.index) && !IsRemoved(corner)
      requires corner.area <= areaTolerance && linkedLine.size > minEdgeSize && Queued(queue.items)
      requires Awaited(queue.items, rejected + {corner}) && Awaited(before, rejected) && corner !in rejected
      requires forall d :: d in before ==> NotBehind(corner, d)
      requires Untried(linkedLine.next, linkedLine.prev, linkedLine.live, queue.items, rejected)
      requires Untried(linkedLine.next, linkedLine.prev, linkedLine.live, queue.items, rejected + {corner})
      modifies linkedLine, vertexIndex, queue
      ensures Run(ls, me, cuts, areaTolerance) && Holds(edgeIndex, After(ls, me, cuts, areaTolerance))
      ensures |cuts| <= 1 && Queued(queue.items)
      ensures 2 * linkedLine.size + |queue.items| <= old(2 * linkedLine.size + |queue.items|)
      ensures Awaited(queue.items, rejected')
      ensures Untried(linkedLine.next, linkedLine.prev, linkedLine.live, queue.items, rejected')
      ensures forall c :: c in rejected' ==> c in rejected || (cuts == [] && IsBlocked(ls, me, c))
      ensures Leads(old(StateOf(ls, rejected)), me, tried, areaTolerance,
                    StateOf(After(ls, me, cuts, areaTolerance), rejected'))
    {
      ghost var live := linkedLine.live;
      ghost var k := LiveCorner(corner);
      hide *;
      PoppedIsNext(edgeIndex, ls, me, k, corner, before, rejected);
      StateIs(ls, rejected);
      SlotIsLive(k, corner);
      var removed := CutIfRemovable(corner, edgeIndex, queue, ls, me, rejected, k);
      StepIs(ls, me, k, corner, live, rejected, removed);
      tried := [k];
      if removed {
        OneCutRun(ls, me, k, areaTolerance);
        cuts, rejected' := [k], rejected;
      } else {
        NoCutRun(ls, me, areaTolerance);
        cuts, rejected' := [], rejected + {corner};
      }
      StateIs(After(ls, me, cuts, areaTolerance), rejected');
    }

    lemma StateIs(ls: seq<Line>, rejected: set<Corner>)
      ensures StateOf(ls, rejected) == State(ls, linkedLine.live, rejected)
    {
    }

    lemma SlotIsLive(k: nat, corner: Corner)
      requires Valid() && IsCornerAt(corner, k)
      ensures k < |linkedLine.live|
    {
    }

    // Work off one queued corner; `done` when it is too large, which no queued corner is.
    method ProcessCorner(edgeIndex: seq<Edge>, queue: CornerQueue, ghost ls: seq<Line>, ghost me: nat,
                         ghost rejected: set<Corner>)
      returns (done: bool, ghost cuts: seq<nat>, ghost rejected': set<Corner>, ghost tried: seq<nat>)
      requires Separate(edgeIndex) && Holds(edgeIndex, ls) && me < |edgeIndex| && edgeIndex[me] == this
      requires AllEndsDiffer(ls)
      requires Queued(queue.items) && queue.items != [] && linkedLine.size > minEdgeSize
      requires Awaited(queue.items, rejected)
      requires Untried(linkedLine.next, linkedLine.prev, linkedLine.live, queue.items, rejected)
      modifies linkedLine, vertexIndex, queue
      ensures Run(ls, me, cuts, areaTolerance) && Holds(edgeIndex, After(ls, me, cuts, areaTolerance))
      ensures |cuts| <= 1 && Queued(queue.items) && !done
      ensures 2 * linkedLine.size + |queue.items| < old(2 * linkedLine.size + |queue.items|)
      ensures Awaited(queue.items, rejected')
      ensures Untried(linkedLine.next, linkedLine.prev, linkedLine.live, queue.items, rejected')
      ensures forall c :: c in rejected' ==> c in rejected || (cuts == [] && IsBlocked(ls, me, c))
      ensures Leads(old(StateOf(ls, rejected)), me, tried, areaTolerance,
                    StateOf(After(ls, me, cuts, areaTolerance), rejected'))
    {
      done, cuts, rejected', tried := false, [], rejected, [];
      ghost var before := queue.items;
      var corner := queue.Pop();
      RemovedNotSmall(corner, before, queue.items, rejected);
      PoppedLeaves(corner, before, queue.items, rejected);
      LeadsNone(StateOf(ls, rejected), me, areaTolerance);
      hide Awaited;
      hide Untried;
      hide IsBlocked;
      hide Leads;
      if IsRemoved(corner) {
        return;
      }
      if corner.area > areaTolerance {
        done := true;
        return;
      }
      cuts, rejected', tried := TryCorner(corner, edgeIndex, queue, ls, me, rejected, before);
    }

    lemma PoppedLeaves(corner: Corner, before: seq<Corner>, items: seq<Corner>, rejected: set<Corner>)
      requires Untried(linkedLine.next, linkedLine.prev, linkedLine.live, before, rejected)
      requires exists k :: 0 <= k < |before| && corner == before[k] && items == before[..k] + before[k + 1..]
      ensures Untried(linkedLine.next, linkedLine.prev, linkedLine.live, items, rejected)
      ensures Untried(linkedLine.next, linkedLine.prev, linkedLine.live, items, rejected + {corner})
      ensures corner !in rejected
    {
      var k :| 0 <= k < |before| && corner == before[k] && items == before[..k] + before[k + 1..];
      hide Untried;
      PoppedUntried(linkedLine.next, linkedLine.prev, linkedLine.live, before, k, rejected);
    }

    // The rejected corners were blocked at some point of the run.
    ghost predicate AllBlocked(ls: seq<Line>, me: nat, cuts: seq<nat>, rejected: set<Corner>) {
      forall c :: c in rejected ==>
        CornerOf(c, pts) && Blocked(ls, me, cuts, areaTolerance, pts[c.prev], pts[c.index], pts[c.next])
    }

    lemma AllBlockedNext(ls: seq<Line>, me: nat, cuts: seq<nat>, more: seq<nat>, rejected: set<Corner>,
                         rejected': set<Corner>)
      requires Run(ls, me, cuts, areaTolerance) && AllBlocked(ls, me, cuts, rejected)
      requires forall c :: c in rejected' ==>
        c in rejected || (more == [] && IsBlocked(After(ls, me, cuts, areaTolerance), me, c))
      ensures AllBlocked(ls, me, cuts + more, rejected')
    {
      forall c | c in rejected'
        ensures CornerOf(c, pts)
        ensures Blocked(ls, me, cuts + more, areaTolerance, pts[c.prev], pts[c.index], pts[c.next])
      {
        if c !in rejected { BlockedNow(ls, me, cuts, areaTolerance, pts[c.prev], pts[c.index], pts[c.next]); }
        BlockedMore(ls, me, cuts, more, areaTolerance, pts[c.prev], pts[c.index], pts[c.next]);
      }
    }

    // Slot k of the view as a corner, when it is small enough to be cut.
    lemma SlotCorner(edgeIndex: seq<Edge>, ls: seq<Line>, me: nat, k: nat) returns (c: Corner)
      requires Holds(edgeIndex, ls) && me < |edgeIndex| && edgeIndex[me] == this
      requires Cuttable(ls, me, k) && CornerArea(ls, me, k) <= areaTolerance
      ensures SmallCorner(c)
      ensures forall rejected :: c == CornerAt(State(ls, linkedLine.live, rejected), me, k)
      ensures pts[c.prev] == CornerPrev(ls, me, k) && pts[c.index] == At(ls, me, k)
      ensures pts[c.next] == CornerNext(ls, me, k)
    {
      CornerLinks(k);
      var i := linkedLine.live[k];
      c := Corner(i, linkedLine.prev[i], linkedLine.next[i], CornerArea(ls, me, k));
    }

    // With nothing left to try, or no vertex to spare, the run is exhausted.
    lemma NothingLeft(edgeIndex: seq<Edge>, ls: seq<Line>, me: nat, cuts: seq<nat>, items: seq<Corner>,
                      rejected: set<Corner>)
      requires Run(ls, me, cuts, areaTolerance) && Holds(edgeIndex, After(ls, me, cuts, areaTolerance))
      requires me < |edgeIndex| && edgeIndex[me] == this
      requires Awaited(items, rejected) && AllBlocked(ls, me, cuts, rejected)
      requires items == [] || linkedLine.size <= minEdgeSize
      ensures Exhausted(ls, me, cuts, areaTolerance)
    {
      var r := After(ls, me, cuts, areaTolerance);
      forall k: nat | Cuttable(r, me, k) && CornerArea(r, me, k) <= areaTolerance
        ensures Blocked(ls, me, cuts, areaTolerance, CornerPrev(r, me, k), At(r, me, k), CornerNext(r, me, k))
      {
        var c := SlotCorner(edgeIndex, r, me, k);
        assert c in rejected;
      }
    }

    // Work off the queue of small corners.
    method RemoveCorners(edgeIndex: seq<Edge>, queue: CornerQueue, ghost ls: seq<Line>, ghost me: nat)
      returns (ghost cuts: seq<nat>, ghost after: seq<Line>)
      requires Separate(edgeIndex) && Holds(edgeIndex, ls) && me < |edgeIndex| && edgeIndex[me] == this
      requires AllEndsDiffer(ls)
      requires Queued(queue.items) && Awaited(queue.items, {})
      requires Untried(linkedLine.next, linkedLine.prev, linkedLine.live, queue.items, {})
      requires StateOf(ls, {}) == Start(ls, me)
      modifies linkedLine, vertexIndex, queue
      ensures Run(ls, me, cuts, areaTolerance) && after == After(ls, me, cuts, areaTolerance)
      ensures Exhausted(ls, me, cuts, areaTolerance) && LeastFirst(ls, me, areaTolerance, after)
      ensures Holds(edgeIndex, after)
    {
      hide Awaited;
      hide Untried;
      hide AllBlocked;
      hide Exhausted;
      hide Leads;
      hide LeastFirst;
      ghost var start, tries := StateOf(ls, {}), [];
      LeadsNone(start, me, areaTolerance);
      cuts, after := [], ls;
      ghost var rejected: set<Corner> := {};
      NoneBlocked(ls, me, cuts);
      while queue.items != [] && linkedLine.size > minEdgeSize
        invariant Run(ls, me, cuts, areaTolerance) && after == After(ls, me, cuts, areaTolerance)
        invariant Holds(edgeIndex, after) && AllEndsDiffer(after)
        invariant Queued(queue.items)
        invariant Awaited(queue.items, rejected) && AllBlocked(ls, me, cuts, rejected)
        invariant Untried(linkedLine.next, linkedLine.prev, linkedLine.live, queue.items, rejected)
        invariant Leads(start, me, tries, areaTolerance, StateOf(after, rejected))
        decreases 2 * linkedLine.size + |queue.items|
      {
        ghost var more, rejected', tried;
        ghost var mid := StateOf(after, rejected);
        var done;
        done, more, rejected', tried := ProcessCorner(edgeIndex, queue, after, me, rejected);
        RunsCompose(ls, me, cuts, more, areaTolerance);
        EdgeRunEnds(edgeIndex, after, me, more);
        AllBlockedNext(ls, me, cuts, more, rejected, rejected');
        after := After(after, me, more, areaTolerance);
        LeadsJoin(start, me, tries, tried, areaTolerance, mid, StateOf(after, rejected'));
        tries := tries + tried;
        cuts, rejected := cuts + more, rejected';
        if done {
          break;
        }
      }
      NothingLeft(edgeIndex, ls, me, cuts, queue.items, rejected);
      AllTried(edgeIndex, after, me, queue.items, rejected);
      IsLeastFirst(ls, me, tries, areaTolerance, StateOf(after, rejected));
    }

    // With nothing left to try, or no vertex to spare, no candidate is left.
    lemma AllTried(edgeIndex: seq<Edge>, ls: seq<Line>, me: nat, items: seq<Corner>, rejected: set<Corner>)
      requires Holds(edgeIndex, ls) && me < |edgeIndex| && edgeIndex[me] == this
      requires Awaited(items, rejected) && (items == [] || linkedLine.size <= minEdgeSize)
      ensures Finished(StateOf(ls, rejected), me, areaTolerance)
    {
      var s := StateOf(ls, rejected);
      forall k: nat ensures !Candidate(s, me, k, areaTolerance) {
        if Candidate(s, me, k, areaTolerance) {
          var c := SlotCorner(edgeIndex, ls, me, k);
        }
      }
    }

    lemma EdgeRunEnds(edgeIndex: seq<Edge>, ls: seq<Line>, me: nat, cuts: seq<nat>)
      requires me < |edgeIndex| && me < |ls| && WellFormed(ls[me]) && Run(ls, me, cuts, areaTolerance)
      requires AllEndsDiffer(ls)
      ensures AllEndsDiffer(After(ls, me, cuts, areaTolerance))
    {
      RunEndsDiffer(ls, me, cuts, areaTolerance);
    }

    lemma NoneBlocked(ls: seq<Line>, me: nat, cuts: seq<nat>)
      ensures AllBlocked(ls, me, cuts, {})
    {
    }

    /**
     Simplify this edge in place, as edge `me` of the index: the lines end up as after a run of
     allowed cuts of line `me`, so everything SimplifyRuns proves of runs holds of this method,
     and each small corner that is left was found blocked on the way.
     */
    method Simplify(edgeIndex: seq<Edge>, ghost ls: seq<Line>, ghost me: nat)
      returns (result: seq<Point>, ghost cuts: seq<nat>, ghost after: seq<Line>)
      requires Separate(edgeIndex) && Holds(edgeIndex, ls) && me < |edgeIndex| && edgeIndex[me] == this
      requires AllEndsDiffer(ls)
      requires linkedLine.live == Identity(|linkedLine.next|)
      modifies linkedLine, vertexIndex
      ensures Run(ls, me, cuts, areaTolerance) && after == After(ls, me, cuts, areaTolerance)
      ensures Exhausted(ls, me, cuts, areaTolerance) && LeastFirst(ls, me, areaTolerance, after)
      ensures Holds(edgeIndex, after)
      ensures result == Output(after[me])
    {
      var queue := new CornerQueue();
      CreateQueue(queue);
      StartState(edgeIndex, ls, me);
      cuts, after := RemoveCorners(edgeIndex, queue, ls, me);
      result := WriteOut(after[me]);
    }

    lemma StartState(edgeIndex: seq<Edge>, ls: seq<Line>, me: nat)
      requires Holds(edgeIndex, ls) && me < |edgeIndex| && edgeIndex[me] == this
      requires linkedLine.live == Identity(|linkedLine.next|)
      ensures StateOf(ls, {}) == Start(ls, me)
    {
    }

    // The coordinates of what is left of the edge.
    method WriteOut(ghost line: Line) returns (result: seq<Point>)
      requires Valid() && View() == line
      ensures result == Output(line)
    {
      result := linkedLine.GetCoordinates();
    }

    static lemma SameEdgeObject(edges: seq<Edge>, j: nat, me: nat)
      requires Separate(edges) && j < |edges| && me < |edges|
      ensures edges[j] == edges[me] <==> j == me
    {
    }

    // The two vertices left of a line are its coordinates.
    lemma TwoPoints()
      requires Valid() && linkedLine.size == 2 && EndsDiffer(View())
      ensures !linkedLine.isRing && |View().pts| == 2
      ensures AddAll([], View().pts) == View().pts
    {
      AddAllNoRepeats([], View().pts);
    }
  }

  // The edges are distinct objects with their own linked lines and vertex indexes.
  ghost predicate Separate(edges: seq<Edge>) {
    forall i, j :: 0 <= i < j < |edges| ==>
      edges[i] != edges[j] && edges[i].linkedLine != edges[j].linkedLine && edges[i].vertexIndex != edges[j].vertexIndex
  }

  // The edges are valid and their live vertices are the lines ls.
  ghost predicate Holds(edges: seq<Edge>, ls: seq<Line>)
    reads set e | e in edges :: e.linkedLine
    reads set e | e in edges :: e.vertexIndex
  {
    && |ls| == |edges|
    && (forall i :: 0 <= i < |edges| ==> edges[i].Valid() && edges[i].View() == ls[i])
  }
}
