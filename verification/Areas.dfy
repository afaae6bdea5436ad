/** The signed area of a ring, computed by indexing and by rolling points. */
module Areas {
  import opened Planar
  import Runs = SimplifyRuns

  // The terms of the first k inner vertices, with abscissas taken from the first vertex.
  function Shoelace(ring: seq<Point>, k: nat): real
    requires k + 1 < |ring| || k == 0
  {
    if k == 0 then 0.0 else Shoelace(ring, k - 1) + Term(ring, k)
  }

  function Term(ring: seq<Point>, k: nat): real
    requires 0 < k && k + 1 < |ring|
  {
    (ring[k].x - ring[0].x) * (ring[k - 1].y - ring[k + 1].y)
  }

  // What the terms up to vertex k leave open: nothing, once the ring has closed.
  function Rest(ring: seq<Point>, k: nat): real
    requires k + 1 < |ring|
  {
    ring[0].x * (ring[k + 1].y - ring[0].y) - (ring[k + 1].x - ring[0].x) * ring[k].y
  }

  lemma RestStep(ring: seq<Point>, k: nat)
    requires 0 < k && k + 1 < |ring|
    ensures Rest(ring, k - 1) + Term(ring, k) == Rest(ring, k) - Runs.EdgeTerm(ring[k], ring[k + 1])
  {
  }

  lemma PathStep(ring: seq<Point>, k: nat)
    requires 0 < k < |ring|
    ensures Runs.PathSum(ring[..k + 1]) == Runs.PathSum(ring[..k]) + Runs.EdgeTerm(ring[k - 1], ring[k])
  {
    assert ring[..k + 1] == ring[..k] + [ring[k]];
    Runs.PathSumJoin(ring[..k], [ring[k]]);
  }

  lemma RestFirst(ring: seq<Point>)
    requires |ring| >= 2
    ensures Rest(ring, 0) == Runs.PathSum(ring[..2])
  {
    assert ring[..2][1..] == [ring[1]];
  }

  lemma {:induction false} ShoelaceSoFar(ring: seq<Point>, k: nat)
    requires k + 1 < |ring|
    ensures Shoelace(ring, k) == Rest(ring, k) - Runs.PathSum(ring[..k + 2])
  {
    hide Rest;
    hide Term;
    hide Runs.PathSum;
    hide Runs.EdgeTerm;
    if k == 0 {
      RestFirst(ring);
    } else {
      ShoelaceSoFar(ring, k - 1);
      PathStep(ring, k + 1);
      RestStep(ring, k);
    }
  }

  lemma RestClosed(ring: seq<Point>)
    requires |ring| >= 2 && ring[0] == ring[|ring| - 1]
    ensures Rest(ring, |ring| - 2) == 0.0
  {
  }

  /** On a closed ring the terms make up twice the signed area, positive when the ring runs clockwise. */
  lemma ClosedShoelace(ring: seq<Point>)
    requires |ring| >= 2 && ring[0] == ring[|ring| - 1]
    ensures Shoelace(ring, |ring| - 2) == -Runs.PathSum(ring)
  {
    hide *;
    ShoelaceSoFar(ring, |ring| - 2);
    RestClosed(ring);
    assert ring[..|ring|] == ring;
  }

  // The signed area as both forms compute it; rings of fewer than three points have none.
  function RingArea(ring: seq<Point>): real {
    if |ring| < 3 then 0.0 else Shoelace(ring, |ring| - 2) / 2.0
  }

  method SignedRingArea(ring: seq<Point>) returns (area: real)
    ensures area == RingArea(ring)
  {
    var rlen := |ring|;
    if rlen < 3 {
      return 0.0;
    }
    var sum := 0.0;
    var x0 := ring[0].x;
    for i := 1 to rlen - 1
      invariant sum == Shoelace(ring, i - 1)
    {
      var x := ring[i].x - x0;
      var y1 := ring[i + 1].y;
      var y2 := ring[i - 1].y;
      sum := sum + x * (y2 - y1);
    }
    area := sum / 2.0;
  }

  method OfRingSigned(ring: seq<Point>) returns (area: real)
    ensures area == RingArea(ring)
  {
    var n := |ring|;
    if n < 3 {
      return 0.0;
    }
    var p1 := ring[0];
    var x0 := p1.x;
    var p2 := Point(ring[1].x - x0, ring[1].y);
    var sum := 0.0;
    for i := 1 to n - 1
      invariant sum == Shoelace(ring, i - 1)
      invariant p1.y == ring[i - 1].y && p2 == Point(ring[i].x - x0, ring[i].y)
    {
      var p0y := p1.y;
      p1 := p2;
      p2 := Point(ring[i + 1].x - x0, ring[i + 1].y);
      sum := sum + p1.x * (p0y - p2.y);
    }
    area := sum / 2.0;
  }

  /** For a closed ring of any size the computed area is half the area under its path, negated. */
  lemma AreaOfClosed(ring: seq<Point>)
    requires |ring| >= 1 && ring[0] == ring[|ring| - 1]
    ensures 2.0 * RingArea(ring) == -Runs.PathSum(ring)
  {
    if |ring| >= 3 {
      ClosedShoelace(ring);
    } else if |ring| == 2 {
      assert Runs.PathSum(ring[1..]) == 0.0;
    }
  }
}
