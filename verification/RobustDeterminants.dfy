/**
 The sign of a two by two determinant by a Euclid-like reduction that halves both columns,
 over whole numbers.
 */
module RobustDeterminants {

  function Det(x1: int, y1: int, x2: int, y2: int): int {
    x1 * y2 - y1 * x2
  }

  function Sgn(d: int): int {
    if d > 0 then 1 else if d < 0 then -1 else 0
  }

  function Pow4(k: nat): nat {
    if k == 0 then 1 else 4 * Pow4(k - 1)
  }

  function Abs(a: int): nat {
    if a < 0 then -a else a
  }

  function Min(a: nat, b: nat): nat {
    if a < b then a else b
  }

  lemma ProductSign(a: int, b: int)
    ensures Sgn(a * b) == Sgn(a) * Sgn(b)
  {
    if a > 0 && b > 0 {
      assert a * b > 0;
    } else if a < 0 && b < 0 {
      assert a * b == (-a) * (-b) > 0;
    } else if a > 0 && b < 0 {
      assert a * b == -(a * (-b)) < 0;
    } else if a < 0 && b > 0 {
      assert a * b == -((-a) * b) < 0;
    }
  }

  // A null entry leaves one product, or none.
  lemma NullEntry(x1: int, y1: int, x2: int, y2: int)
    requires x1 == 0 || y2 == 0 || y1 == 0 || x2 == 0
    ensures x1 == 0 || y2 == 0 ==> Sgn(Det(x1, y1, x2, y2)) == -(Sgn(y1) * Sgn(x2))
    ensures y1 == 0 || x2 == 0 ==> Sgn(Det(x1, y1, x2, y2)) == Sgn(x1) * Sgn(y2)
  {
    ProductSign(x1, y2);
    ProductSign(y1, x2);
  }

  // Negating or exchanging columns changes the sign of the determinant.
  lemma ColumnMoves(x1: int, y1: int, x2: int, y2: int)
    ensures Det(x2, y2, x1, y1) == -Det(x1, y1, x2, y2)
    ensures Det(-x1, -y1, x2, y2) == -Det(x1, y1, x2, y2)
    ensures Det(x1, y1, -x2, -y2) == -Det(x1, y1, x2, y2)
    ensures Det(-x1, -y1, -x2, -y2) == Det(x1, y1, x2, y2)
    ensures Det(-x2, -y2, x1, y1) == Det(x1, y1, x2, y2)
    ensures Det(x2, y2, -x1, -y1) == Det(x1, y1, x2, y2)
    ensures Det(-x2, -y2, -x1, -y1) == -Det(x1, y1, x2, y2)
  {
  }

  lemma SgnNegated(d: int)
    ensures Sgn(-d) == -Sgn(d)
  {
  }

  // With y1 no greater than y2, both positive, the abscissas decide unless they are ordered the same way.
  lemma AbscissasDecide(x1: int, y1: int, x2: int, y2: int)
    requires 0 < y1 <= y2
    ensures x1 > 0 && x2 < 0 ==> Det(x1, y1, x2, y2) > 0
    ensures x1 > 0 && x2 > 0 && x1 > x2 ==> Det(x1, y1, x2, y2) > 0
    ensures x1 < 0 && x2 > 0 ==> Det(x1, y1, x2, y2) < 0
    ensures x1 < 0 && x2 < 0 && x1 < x2 ==> Det(x1, y1, x2, y2) < 0
  {
    ProductSign(x1, y2);
    ProductSign(y1, x2);
    if x1 > 0 && x2 > 0 && x1 > x2 {
      Products(x2, y1, x1, y2);
    }
    if x1 < 0 && x2 < 0 && x1 < x2 {
      Products(-x2, y1, -x1, y2);
    }
  }

  // a * b < c * d
  lemma Products(a: int, b: int, c: int, d: int)
    requires 0 < a < c && 0 < b <= d
    ensures a * b < c * d
  {
    assert a * b < c * b;
    assert c * b <= c * d;
  }

  // Taking a multiple of one column from the other keeps the determinant.
  lemma Reduces(x1: int, y1: int, x2: int, y2: int, k: int)
    ensures Det(x1, y1, x2 - k * x1, y2 - k * y1) == Det(x1, y1, x2, y2)
    ensures Det(x1 - k * x2, y1 - k * y2, x2, y2) == Det(x1, y1, x2, y2)
  {
    assert x1 * (k * y1) == y1 * (k * x1);
    assert (k * x2) * y2 == (k * y2) * x2;
  }

  /** With 0 <= x2 < x1 and y1 positive: what an ordinate outside [0, y1] says. */
  lemma Outside(x1: int, y1: int, x2: int, y2: int)
    requires 0 <= x2 < x1 && 0 < y1
    ensures y2 < 0 ==> Det(x1, y1, x2, y2) < 0
    ensures y2 > y1 ==> Det(x1, y1, x2, y2) > 0
  {
    ProductSign(x1, y2);
    ProductSign(y1, x2);
    if y2 > y1 {
      assert x1 * y2 > x1 * y1;
      assert y1 * x2 <= y1 * x1;
    }
  }

  /** Inside the rectangle: what the halves say. */
  lemma Halves(x1: int, y1: int, x2: int, y2: int)
    requires 0 <= x2 < x1 && 0 < y1
    ensures x1 > x2 + x2 && y1 < y2 + y2 ==> Det(x1, y1, x2, y2) > 0
    ensures x1 <= x2 + x2 && y1 > y2 + y2 ==> Det(x1, y1, x2, y2) < 0
    ensures Det(x1, y1, x1 - x2, y1 - y2) == -Det(x1, y1, x2, y2)
  {
    if x1 > x2 + x2 && y1 < y2 + y2 {
      assert x1 * (y2 + y2) > x1 * y1 > (x2 + x2) * y1;
    }
    if x1 <= x2 + x2 && y1 > y2 + y2 {
      assert x1 * (y2 + y2) < x1 * y1 <= (x2 + x2) * y1;
    }
  }

  // A null entry in the second column.
  lemma SecondNull(x1: int, y1: int, x2: int, y2: int)
    requires 0 < x1 && 0 < y1 && 0 <= x2 && 0 <= y2
    ensures y2 == 0 ==> Sgn(Det(x1, y1, x2, y2)) == -Sgn(x2)
    ensures x2 == 0 ==> Sgn(Det(x1, y1, x2, y2)) == Sgn(y2)
  {
    ProductSign(x1, y2);
    ProductSign(y1, x2);
  }

  // What is left of b after taking a from it as often as it goes.
  lemma Rest(a: int, b: int)
    requires 0 < a
    ensures 0 <= b - (b / a) * a < a
  {
    assert b == (b / a) * a + b % a;
  }

  // The columns after normalisation: either the sign is known, or all entries are positive and ordered.
  datatype Normal = Decided(sign: int) | Columns(sign: int, x1: int, y1: int, x2: int, y2: int)

  ghost predicate Stands(n: Normal, d: int) {
    match n
    case Decided(s) => s == Sgn(d)
    case Columns(s, x1, y1, x2, y2) =>
      (s == 1 || s == -1) && 0 < x1 <= x2 && 0 < y1 <= y2 && s * Sgn(Det(x1, y1, x2, y2)) == Sgn(d)
  }

  // Make the ordinates positive, with the greater one second.
  method MakeOrdinatesPositive(a1: int, b1: int, a2: int, b2: int)
    returns (sign: int, x1: int, y1: int, x2: int, y2: int)
    requires a1 != 0 && b1 != 0 && a2 != 0 && b2 != 0
    ensures (sign == 1 || sign == -1) && x1 != 0 && x2 != 0 && 0 < y1 <= y2
    ensures sign * Sgn(Det(x1, y1, x2, y2)) == Sgn(Det(a1, b1, a2, b2))
    ensures (Abs(x1) == Abs(a1) && Abs(x2) == Abs(a2)) || (Abs(x1) == Abs(a2) && Abs(x2) == Abs(a1))
  {
    ColumnMoves(a1, b1, a2, b2);
    SgnNegated(Det(a1, b1, a2, b2));
    hide Det;
    sign, x1, y1, x2, y2 := 1, a1, b1, a2, b2;
    if 0 < y1 {
      if 0 < y2 {
        if y1 <= y2 {
        } else {
          sign := -sign;
          x1, x2 := x2, x1;
          y1, y2 := y2, y1;
        }
      } else {
        if y1 <= -y2 {
          sign := -sign;
          x2 := -x2;
          y2 := -y2;
        } else {
          x1, x2 := -x2, x1;
          y1, y2 := -y2, y1;
        }
      }
    } else {
      if 0 < y2 {
        if -y1 <= y2 {
          sign := -sign;
          x1 := -x1;
          y1 := -y1;
        } else {
          x1, x2 := x2, -x1;
          y1, y2 := y2, -y1;
        }
      } else {
        if y1 >= y2 {
          x1 := -x1;
          y1 := -y1;
          x2 := -x2;
          y2 := -y2;
        } else {
          sign := -sign;
          x1, x2 := -x2, -x1;
          y1, y2 := -y2, -y1;
        }
      }
    }
  }

  // The cases with a null entry.
  method SignWithNull(x1: int, y1: int, x2: int, y2: int) returns (sign: int)
    requires x1 == 0 || y2 == 0 || y1 == 0 || x2 == 0
    ensures sign == Sgn(Det(x1, y1, x2, y2))
  {
    NullEntry(x1, y1, x2, y2);
    if x1 == 0 || y2 == 0 {
      if y1 == 0 || x2 == 0 {
        return 0;
      } else if y1 > 0 {
        return if x2 > 0 then -1 else 1;
      } else {
        return if x2 > 0 then 1 else -1;
      }
    }
    if y2 > 0 {
      return if x1 > 0 then 1 else -1;
    } else {
      return if x1 > 0 then -1 else 1;
    }
  }

  // Everything before the reduction.
  method Normalise(a1: int, b1: int, a2: int, b2: int) returns (n: Normal)
    ensures Stands(n, Det(a1, b1, a2, b2))
    ensures n.Columns? ==> n.x1 == Min(Abs(a1), Abs(a2))
  {
    if a1 == 0 || b2 == 0 || b1 == 0 || a2 == 0 {
      var s := SignWithNull(a1, b1, a2, b2);
      return Decided(s);
    }
    var sign, x1, y1, x2, y2 := MakeOrdinatesPositive(a1, b1, a2, b2);
    AbscissasDecide(x1, y1, x2, y2);
    ColumnMoves(x1, y1, x2, y2);
    hide Det;
    if 0 < x1 {
      if 0 < x2 {
        if x1 <= x2 {
          n := Columns(sign, x1, y1, x2, y2);
        } else {
          n := Decided(sign);
        }
      } else {
        n := Decided(sign);
      }
    } else {
      if 0 < x2 {
        n := Decided(-sign);
      } else {
        if x1 >= x2 {
          n := Columns(-sign, -x1, y1, -x2, y2);
        } else {
          n := Decided(-sign);
        }
      }
    }
  }

  // ---- The reduction

  // The state at the top of a pass: both columns positive and ordered, or both null entries ruled out.
  ghost predicate Reduced(sign: int, x1: int, y1: int, x2: int, y2: int, d: int) {
    && (sign == 1 || sign == -1) && 0 < x1 <= x2 && 0 < y1 <= y2
    && sign * Sgn(Det(x1, y1, x2, y2)) == Sgn(d)
  }

  // Half a pass: the second column is reduced by the first, to at most half of it.
  datatype Half = Known(sign: int) | Next(sign: int, x: int, y: int)

  // What half a pass says of the columns (x1, y1) and (x2, y2), where sign goes with their determinant.
  ghost predicate HalfPass(h: Half, sign: int, x1: int, y1: int, x2: int, y2: int) {
    match h
    case Known(s) => s == sign * Sgn(Det(x1, y1, x2, y2))
    case Next(s, x, y) =>
      && (s == sign || s == -sign) && 0 < x && 2 * x <= x1 && 0 < y && 2 * y <= y1
      && s * Sgn(Det(x1, y1, x, y)) == sign * Sgn(Det(x1, y1, x2, y2))
  }

  /** Reduce the second column by the first, or find the sign. */
  method ReduceSecond(sign: int, x1: int, y1: int, a2: int, b2: int) returns (h: Half)
    requires (sign == 1 || sign == -1) && 0 < x1 && 0 < y1
    ensures HalfPass(h, sign, x1, y1, a2, b2)
  {
    var k := a2 / x1;
    Rest(x1, a2);
    Reduces(x1, y1, a2, b2, k);
    var x2, y2 := a2 - k * x1, b2 - k * y1;
    Outside(x1, y1, x2, y2);
    Halves(x1, y1, x2, y2);
    SgnNegated(Det(x1, y1, x2, y2));
    var s := sign;
    if y2 < 0 {
      return Known(-s);
    }
    if y2 > y1 {
      return Known(s);
    }
    if x1 > x2 + x2 {
      if y1 < y2 + y2 {
        return Known(s);
      }
    } else {
      if y1 > y2 + y2 {
        return Known(-s);
      } else {
        x2 := x1 - x2;
        y2 := y1 - y2;
        s := -s;
      }
    }
    SecondNull(x1, y1, x2, y2);
    hide Det;
    if y2 == 0 {
      return if x2 == 0 then Known(0) else Known(-s);
    }
    if x2 == 0 {
      return Known(s);
    }
    h := Next(s, x2, y2);
  }

  // The other half, with the roles of the columns exchanged: the sign is read the other way.
  lemma OtherHalf(h: Half, sign: int, x1: int, y1: int, x2: int, y2: int)
    requires HalfPass(h, -sign, x2, y2, x1, y1)
    ensures h.Known? ==> h.sign == sign * Sgn(Det(x1, y1, x2, y2))
    ensures h.Next? ==> -h.sign * Sgn(Det(h.x, h.y, x2, y2)) == sign * Sgn(Det(x1, y1, x2, y2))
  {
    ColumnMoves(x1, y1, x2, y2);
    SgnNegated(Det(x1, y1, x2, y2));
    if h.Next? {
      ColumnMoves(h.x, h.y, x2, y2);
      SgnNegated(Det(h.x, h.y, x2, y2));
    }
    hide Det;
  }

  lemma FourTimes(passes: nat, x: int, next: int, entry: int)
    requires Pow4(passes) * x <= entry && 4 * next <= x
    ensures Pow4(passes + 1) * next <= entry
  {
    assert Pow4(passes + 1) * next == Pow4(passes) * (4 * next);
    assert Pow4(passes) * (4 * next) <= Pow4(passes) * x;
  }

  lemma PowAtMost(passes: nat, x: int, entry: int)
    requires Pow4(passes) * x <= entry && x > 0
    ensures Pow4(passes) <= entry
  {
    AtLeastOnce(Pow4(passes), x);
    hide Pow4;
  }

  lemma {:induction false} PowExceeds(n: nat)
    ensures Pow4(n) > n
  {
    if n > 0 { PowExceeds(n - 1); }
  }

  lemma AtLeastOnce(p: nat, x: int)
    requires x > 0
    ensures p <= p * x
  {
    assert p * x == p * (x - 1) + p;
  }

  /**
   The exact sign of x1 * y2 - y1 * x2. Each pass divides the first abscissa by four or more, so
   four to the number of complete passes is at most the lesser abscissa.
   */
  method SignOfDet2x2(a1: int, b1: int, a2: int, b2: int) returns (sign: int, ghost passes: nat)
    ensures sign == Sgn(Det(a1, b1, a2, b2))
    ensures passes > 0 ==> Pow4(passes - 1) <= Min(Abs(a1), Abs(a2))
  {
    ghost var d := Det(a1, b1, a2, b2);
    var n := Normalise(a1, b1, a2, b2);
    if n.Decided? {
      return n.sign, 0;
    }
    var x1, y1, x2, y2 := n.x1, n.y1, n.x2, n.y2;
    ghost var entry := x1;
    sign, passes := n.sign, 0;
    while true
      invariant Reduced(sign, x1, y1, x2, y2, d)
      invariant Pow4(passes) * x1 <= entry
      // every pass counts
      decreases entry - passes
    {
      PowAtMost(passes, x1, entry);
      PowExceeds(passes);
      var h := ReduceSecond(sign, x1, y1, x2, y2);
      if h.Known? {
        return h.sign, passes + 1;
      }
      sign, x2, y2 := h.sign, h.x, h.y;
      h := ReduceSecond(-sign, x2, y2, x1, y1);
      OtherHalf(h, sign, x1, y1, x2, y2);
      if h.Known? {
        return h.sign, passes + 1;
      }
      FourTimes(passes, x1, h.x, entry);
      sign, x1, y1 := -h.sign, h.x, h.y;
      passes := passes + 1;
    }
  }
}
