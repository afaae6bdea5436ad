/**
 Coordinate sequences as the library builds them: appending with repeated points
 suppressed, and the ring test.
 */
module CoordinateLists {
  import opened Planar

  // The index that stands for no coordinate.
  const NO_COORD: int := -1

  predicate IsRing(pts: seq<Point>) {
    |pts| >= 4 && pts[0] == pts[|pts| - 1]
  }

  // Append p unless it equals the last point.
  function AddPoint(s: seq<Point>, p: Point): seq<Point> {
    if s != [] && s[|s| - 1] == p then s else s + [p]
  }

  // Append all points of ps in order, repeated points suppressed.
  function AddAll(s: seq<Point>, ps: seq<Point>): seq<Point> {
    if ps == [] then s else AddPoint(AddAll(s, ps[..|ps| - 1]), ps[|ps| - 1])
  }

  lemma AddAllStep(s: seq<Point>, ps: seq<Point>, c: nat)
    requires c < |ps|
    ensures AddAll(s, ps[..c + 1]) == AddPoint(AddAll(s, ps[..c]), ps[c])
  {
    assert ps[..c + 1][..c] == ps[..c];
  }

  function CloseRing(s: seq<Point>): seq<Point> {
    if s != [] && s[0] != s[|s| - 1] then s + [s[0]] else s
  }

  predicate NoRepeats(ps: seq<Point>) {
    forall k :: 0 < k < |ps| ==> ps[k - 1] != ps[k]
  }

  lemma {:induction false} AddAllNoRepeats(s: seq<Point>, ps: seq<Point>)
    requires NoRepeats(ps)
    requires s != [] && ps != [] ==> s[|s| - 1] != ps[0]
    ensures AddAll(s, ps) == s + ps
  {
    if ps != [] {
      var n := |ps| - 1;
      AddAllNoRepeats(s, ps[..n]);
      assert ps == ps[..n] + [ps[n]];
    }
  }

  // The first point repeats the last one already there: it is dropped.
  lemma {:induction false} AddAllJoins(s: seq<Point>, ps: seq<Point>)
    requires NoRepeats(ps)
    requires s != [] && ps != [] && s[|s| - 1] == ps[0]
    ensures AddAll(s, ps) == s + ps[1..]
  {
    var n := |ps| - 1;
    if n == 0 {
      assert AddAll(s, ps[..0]) == s;
    } else {
      AddAllJoins(s, ps[..n]);
      assert ps[1..] == ps[..n][1..] + [ps[n]];
    }
  }

  // Suppressing repeats keeps the first and the last point.
  lemma {:induction false} AddAllKeepsEnds(ps: seq<Point>)
    requires ps != []
    ensures var r := AddAll([], ps); r != [] && r[0] == ps[0] && r[|r| - 1] == ps[|ps| - 1]
  {
    var n := |ps| - 1;
    if n == 0 {
      assert AddAll([], ps[..0]) == [];
    } else {
      AddAllKeepsEnds(ps[..n]);
    }
  }

  // The points of a ring from index s to index e, past the closing point if need be.
  function Section(ring: seq<Point>, s: nat, e: nat): (q: seq<Point>)
    requires s < |ring| && e < |ring|
    ensures |q| == if s < e then e - s + 1 else |ring| - s + e
  {
    if s < e then ring[s..e + 1] else ring[s..] + ring[1..e + 1]
  }

  function Reversed(p: seq<Point>): (r: seq<Point>)
    ensures |r| == |p| && forall t :: 0 <= t < |p| ==> r[t] == p[|p| - 1 - t]
  {
    seq(|p|, t requires 0 <= t < |p| => p[|p| - 1 - t])
  }

  lemma ReversedTwice(p: seq<Point>)
    ensures Reversed(Reversed(p)) == p
  {
  }
}
