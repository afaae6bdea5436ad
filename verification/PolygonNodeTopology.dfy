/**
 How two polygon corners lie at a shared node.

 The code compares angles from the x-axis after sorting the ends of one corner.
 The theorems restate its answers by turning around the node, with no axis.
 */
module PolygonNodeTopology {
  import opened Planar
  import opened AngularOrder

  // The answer of a predicate, or the exception thrown for a zero-length direction.
  datatype Outcome<T> = Value(value: T) | IllegalArgument

  predicate IsAngleGreater(origin: Point, p: Point, q: Point)
    requires p != origin && q != origin
  {
    var quadrantP, quadrantQ := QuadrantOf(origin, p), QuadrantOf(origin, q);
    if quadrantP > quadrantQ then true
    else if quadrantP < quadrantQ then false
    else Orientation(origin, q, p) == 1
  }

  // 0 if p is in the direction of e0 or e1, 1 if it is between them, -1 if not.
  function CompareBetween(origin: Point, p: Point, e0: Point, e1: Point): int
    requires p != origin && e0 != origin && e1 != origin
  {
    var comp0 := CompareAngle(origin, p, e0);
    if comp0 == 0 then 0 else
    var comp1 := CompareAngle(origin, p, e1);
    if comp1 == 0 then 0
    else if comp0 > 0 && comp1 < 0 then 1 else -1
  }

  predicate IsBetween(origin: Point, p: Point, e0: Point, e1: Point)
    requires p != origin && e0 != origin && e1 != origin
  {
    IsAngleGreater(origin, p, e0) && !IsAngleGreater(origin, p, e1)
  }

  function IsCrossing(node: Point, a0: Point, a1: Point, b0: Point, b1: Point): Outcome<bool> {
    if a0 == node || a1 == node then IllegalArgument else
    var (aLo, aHi) := if IsAngleGreater(node, a0, a1) then (a1, a0) else (a0, a1);
    if b0 == node then IllegalArgument else
    var compBetween0 := CompareBetween(node, b0, aLo, aHi);
    if compBetween0 == 0 then Value(false) else
    if b1 == node then IllegalArgument else
    var compBetween1 := CompareBetween(node, b1, aLo, aHi);
    if compBetween1 == 0 then Value(false) else
    Value(compBetween0 != compBetween1)
  }

  function IsInteriorSegment(node: Point, a0: Point, a1: Point, b: Point): Outcome<bool> {
    if a0 == node || a1 == node then IllegalArgument else
    var swapped := IsAngleGreater(node, a0, a1);
    var (aLo, aHi) := if swapped then (a1, a0) else (a0, a1);
    var isInteriorBetween := !swapped;
    if b == node then IllegalArgument else
    var bBetween := IsBetween(node, b, aLo, aHi);
    Value((bBetween && isInteriorBetween) || (!bBetween && !isInteriorBetween))
  }

  // ---- Meaning

  predicate SameWay(node: Point, p: Point, q: Point) {
    SameDirection(Minus(p, node), Minus(q, node))
  }

  // Turning counter-clockwise around the node from p, q is met strictly before r.
  predicate Turn(node: Point, p: Point, q: Point, r: Point) {
    InTurn(Minus(p, node), Minus(q, node), Minus(r, node))
  }

  // The corner a0, a1 separates b0 from b1 around the node.
  predicate Alternate(node: Point, a0: Point, a1: Point, b0: Point, b1: Point) {
    && !SameWay(node, a0, a1)
    && !SameWay(node, a0, b0) && !SameWay(node, a1, b0)
    && !SameWay(node, a0, b1) && !SameWay(node, a1, b1)
    && Turn(node, a0, b0, a1) != Turn(node, a0, b1, a1)
  }

  predicate Precedes(node: Point, p: Point, q: Point) {
    Before(Minus(p, node), Minus(q, node))
  }

  lemma AngleFacts(node: Point, p: Point, q: Point)
    requires p != node && q != node
    ensures CompareAngle(node, p, q) < 0 <==> Precedes(node, p, q)
    ensures CompareAngle(node, p, q) > 0 <==> Precedes(node, q, p)
    ensures IsAngleGreater(node, p, q) <==> Precedes(node, q, p)
    ensures SameWay(node, p, q) <==> !Precedes(node, p, q) && !Precedes(node, q, p)
    ensures SameWay(node, q, p) == SameWay(node, p, q)
  {
    CompareAngleIsOrder(node, p, q);
    UnseparatedIsSame(Minus(p, node), Minus(q, node));
    UnseparatedIsSame(Minus(q, node), Minus(p, node));
  }

  lemma TurnFacts(node: Point, p: Point, q: Point, r: Point)
    requires p != node && q != node && r != node
    requires !SameWay(node, p, q) && !SameWay(node, q, r) && !SameWay(node, p, r)
    ensures Turn(node, p, q, r) <==>
      || (Precedes(node, p, q) && Precedes(node, q, r))
      || (Precedes(node, q, r) && Precedes(node, r, p))
      || (Precedes(node, r, p) && Precedes(node, p, q))
  {
    OrderIsCyclic(Minus(p, node), Minus(q, node), Minus(r, node));
  }

  lemma OrderFacts(node: Point, p: Point, q: Point, r: Point)
    requires p != node && q != node && r != node
    ensures !(Precedes(node, p, q) && Precedes(node, q, p))
    ensures Precedes(node, p, q) && Precedes(node, q, r) ==> Precedes(node, p, r)
    ensures Precedes(node, p, r) ==> Precedes(node, p, q) || Precedes(node, q, r)
  {
    BeforeIsOrder(Minus(p, node), Minus(q, node), Minus(r, node));
  }

  // Where b lies, in the code's terms and in turning terms.
  lemma BetweenIsTurn(node: Point, a0: Point, a1: Point, b: Point)
    requires a0 != node && a1 != node && b != node && !SameWay(node, a0, a1)
    ensures var (aLo, aHi) := if IsAngleGreater(node, a0, a1) then (a1, a0) else (a0, a1);
      if SameWay(node, a0, b) || SameWay(node, a1, b) then CompareBetween(node, b, aLo, aHi) == 0
      else CompareBetween(node, b, aLo, aHi) ==
           if Turn(node, a0, b, a1) != IsAngleGreater(node, a0, a1) then 1 else -1
  {
    AngleFacts(node, a0, a1);
    AngleFacts(node, b, a0);
    AngleFacts(node, b, a1);
    OrderFacts(node, a0, b, a1);
    OrderFacts(node, a1, b, a0);
    OrderFacts(node, a0, a1, b);
    OrderFacts(node, b, a0, a1);
    OrderFacts(node, b, a1, a0);
    OrderFacts(node, a1, a0, b);
    if !SameWay(node, a0, b) && !SameWay(node, a1, b) {
      TurnFacts(node, a0, b, a1);
    }
  }

  /** isCrossing says exactly whether the two corners alternate around the node. */
  lemma IsCrossingMeansAlternate(node: Point, a0: Point, a1: Point, b0: Point, b1: Point)
    requires a0 != node && a1 != node && b0 != node && b1 != node
    ensures IsCrossing(node, a0, a1, b0, b1) == Value(Alternate(node, a0, a1, b0, b1))
  {
    AngleFacts(node, a0, a1);
    if SameWay(node, a0, a1) {
      BetweenSame(node, a0, a1, b0);
      BetweenSame(node, a0, a1, b1);
    } else {
      BetweenIsTurn(node, a0, a1, b0);
      BetweenIsTurn(node, a0, a1, b1);
    }
  }

  // With both ends in one direction, nothing is between them.
  lemma BetweenSame(node: Point, a0: Point, a1: Point, b: Point)
    requires a0 != node && a1 != node && b != node && SameWay(node, a0, a1)
    ensures CompareBetween(node, b, a0, a1) <= 0
  {
    AngleFacts(node, a0, a1);
    AngleFacts(node, b, a0);
    AngleFacts(node, b, a1);
    OrderFacts(node, a0, b, a1);
  }

  // The four directions alternate, written by the order from the x-axis.
  predicate AlternateInOrder(node: Point, a0: Point, a1: Point, b0: Point, b1: Point) {
    var in0 := (Precedes(node, a0, b0) && Precedes(node, b0, a1)) || (Precedes(node, a1, b0) && Precedes(node, b0, a0));
    var in1 := (Precedes(node, a0, b1) && Precedes(node, b1, a1)) || (Precedes(node, a1, b1) && Precedes(node, b1, a0));
    && !SameWay(node, a0, b0) && !SameWay(node, a1, b0)
    && !SameWay(node, a0, b1) && !SameWay(node, a1, b1)
    && in0 != in1
  }

  lemma AlternateFacts(node: Point, a0: Point, a1: Point, b0: Point, b1: Point)
    requires a0 != node && a1 != node && b0 != node && b1 != node
    ensures Alternate(node, a0, a1, b0, b1) <==> AlternateInOrder(node, a0, a1, b0, b1)
  {
    AngleFacts(node, a0, a1);
    AngleFacts(node, a0, b0); AngleFacts(node, a1, b0);
    AngleFacts(node, a0, b1); AngleFacts(node, a1, b1);
    OrderFacts(node, a0, b0, a1); OrderFacts(node, a1, b0, a0);
    OrderFacts(node, a0, b1, a1); OrderFacts(node, a1, b1, a0);
    OrderFacts(node, b0, a0, a1); OrderFacts(node, b0, a1, a0);
    OrderFacts(node, b1, a0, a1); OrderFacts(node, b1, a1, a0);
    OrderFacts(node, a0, a1, b0); OrderFacts(node, a1, a0, b0);
    OrderFacts(node, a0, a1, b1); OrderFacts(node, a1, a0, b1);
    if !SameWay(node, a0, a1) && !SameWay(node, a0, b0) && !SameWay(node, a1, b0) { TurnFacts(node, a0, b0, a1); }
    if !SameWay(node, a0, a1) && !SameWay(node, a0, b1) && !SameWay(node, a1, b1) { TurnFacts(node, a0, b1, a1); }
  }

  lemma PairsSwap(node: Point, a0: Point, a1: Point, b0: Point, b1: Point)
    requires a0 != node && a1 != node && b0 != node && b1 != node
    requires AlternateInOrder(node, a0, a1, b0, b1)
    ensures AlternateInOrder(node, b0, b1, a0, a1)
  {
    AngleFacts(node, a0, b0); AngleFacts(node, a1, b0);
    AngleFacts(node, a0, b1); AngleFacts(node, a1, b1);
    OrderFacts(node, a0, b0, b1); OrderFacts(node, a0, b1, b0);
    OrderFacts(node, a1, b0, b1); OrderFacts(node, a1, b1, b0);
    OrderFacts(node, b0, a0, a1); OrderFacts(node, b0, a1, a0);
    OrderFacts(node, b1, a0, a1); OrderFacts(node, b1, a1, a0);
    OrderFacts(node, b0, a0, b1); OrderFacts(node, b1, a0, b0);
    OrderFacts(node, b0, a1, b1); OrderFacts(node, b1, a1, b0);
    OrderFacts(node, a0, b0, a1); OrderFacts(node, a1, b0, a0);
    OrderFacts(node, a0, b1, a1); OrderFacts(node, a1, b1, a0);
  }

  lemma EndsSwap(node: Point, a0: Point, a1: Point, b0: Point, b1: Point)
    requires a0 != node && a1 != node && b0 != node && b1 != node
    ensures Alternate(node, a1, a0, b0, b1) == Alternate(node, a0, a1, b0, b1)
    ensures Alternate(node, a0, a1, b1, b0) == Alternate(node, a0, a1, b0, b1)
  {
    AlternateFacts(node, a0, a1, b0, b1);
    AlternateFacts(node, a1, a0, b0, b1);
    AlternateFacts(node, a0, a1, b1, b0);
  }

  lemma CornersSwap(node: Point, a0: Point, a1: Point, b0: Point, b1: Point)
    requires a0 != node && a1 != node && b0 != node && b1 != node
    ensures Alternate(node, b0, b1, a0, a1) == Alternate(node, a0, a1, b0, b1)
  {
    AlternateFacts(node, a0, a1, b0, b1);
    AlternateFacts(node, b0, b1, a0, a1);
    if AlternateInOrder(node, a0, a1, b0, b1) { PairsSwap(node, a0, a1, b0, b1); }
    if AlternateInOrder(node, b0, b1, a0, a1) { PairsSwap(node, b0, b1, a0, a1); }
  }

  /** Crossing does not depend on the order of the corners, nor of the ends of a corner. */
  lemma IsCrossingIsSymmetric(node: Point, a0: Point, a1: Point, b0: Point, b1: Point)
    requires a0 != node && a1 != node && b0 != node && b1 != node
    ensures IsCrossing(node, a1, a0, b0, b1) == IsCrossing(node, a0, a1, b0, b1)
    ensures IsCrossing(node, a0, a1, b1, b0) == IsCrossing(node, a0, a1, b0, b1)
    ensures IsCrossing(node, b0, b1, a0, a1) == IsCrossing(node, a0, a1, b0, b1)
  {
    IsCrossingMeansAlternate(node, a0, a1, b0, b1);
    IsCrossingMeansAlternate(node, a1, a0, b0, b1);
    IsCrossingMeansAlternate(node, a0, a1, b1, b0);
    IsCrossingMeansAlternate(node, b0, b1, a0, a1);
    EndsSwap(node, a0, a1, b0, b1);
    CornersSwap(node, a0, a1, b0, b1);
  }

  /**
   A segment is interior to the corner a0-node-a1 exactly when it is met turning
   counter-clockwise from a0 before a1; with the corner reversed the answer is the opposite.
   */
  lemma IsInteriorSegmentMeansTurn(node: Point, a0: Point, a1: Point, b: Point)
    requires a0 != node && a1 != node && b != node
    requires !SameWay(node, a0, a1) && !SameWay(node, a0, b) && !SameWay(node, a1, b)
    ensures IsInteriorSegment(node, a0, a1, b) == Value(Turn(node, a0, b, a1))
    ensures IsInteriorSegment(node, a1, a0, b) == Value(!Turn(node, a0, b, a1))
  {
    AngleFacts(node, a0, a1); AngleFacts(node, a1, a0);
    AngleFacts(node, b, a0);
    AngleFacts(node, b, a1);
    OrderFacts(node, a0, b, a1); OrderFacts(node, a1, b, a0);
    OrderFacts(node, a0, a1, b); OrderFacts(node, b, a0, a1);
    OrderFacts(node, b, a1, a0); OrderFacts(node, a1, a0, b);
    TurnFacts(node, a0, b, a1);
  }

  /** When the predicates throw: some direction that is compared has no length. */
  lemma WhenIllegal(node: Point, a0: Point, a1: Point, b0: Point, b1: Point)
    ensures IsCrossing(node, a0, a1, b0, b1).IllegalArgument? <==>
      a0 == node || a1 == node || b0 == node ||
      (b1 == node && !SameWay(node, a0, b0) && !SameWay(node, a1, b0))
    ensures IsInteriorSegment(node, a0, a1, b0).IllegalArgument? <==> a0 == node || a1 == node || b0 == node
  {
    if a0 != node && a1 != node && b0 != node {
      AngleFacts(node, b0, a0);
      AngleFacts(node, b0, a1);
    }
  }
}
