/** Arithmetic of products and quotients of reals. */
module Reals {

  function Min(a: real, b: real): real { if a <= b then a else b }
  function Max(a: real, b: real): real { if a <= b then b else a }

  /** A product with a name, so that a proof can treat it as an unknown number. */
  function Mul(a: real, b: real): real { a * b }

  lemma MulPositive(a: real, b: real)
    requires 0.0 < a && 0.0 < b
    ensures 0.0 < Mul(a, b)
  {
  }

  lemma MulNatural(a: real, b: real)
    requires 0.0 <= a && 0.0 <= b
    ensures 0.0 <= Mul(a, b)
  {
  }

  lemma MulSquare(a: real)
    ensures 0.0 <= Mul(a, a)
    ensures a < 0.0 || 0.0 < a ==> 0.0 < Mul(a, a)
  {
    if 0.0 < a {
      MulPositive(a, a);
    } else if a < 0.0 {
      MulPositive(-a, -a);
      assert Mul(-a, -a) == Mul(a, a);
    }
  }

  /** Multiplication by a natural number keeps order. */
  lemma MulOrder(a: real, b: real, c: real)
    requires a <= b && 0.0 <= c
    ensures Mul(a, c) <= Mul(b, c)
  {
    MulNatural(b - a, c);
    assert Mul(b - a, c) == Mul(b, c) - Mul(a, c);
  }

  lemma MulDifference(a: real, b: real)
    ensures Mul(a - b, a + b) == Mul(a, a) - Mul(b, b)
  {
  }

  /** Squares order natural numbers. */
  lemma RootOrder(a: real, b: real)
    requires 0.0 <= a && 0.0 <= b
    ensures a <= b <==> Mul(a, a) <= Mul(b, b)
  {
    hide Mul;
    MulDifference(a, b);
    MulDifference(b, a);
    if a <= b {
      MulNatural(b - a, b + a);
    } else {
      MulPositive(a - b, a + b);
    }
  }

  lemma MulOfMul(a: real, b: real)
    ensures Mul(Mul(a, b), Mul(a, b)) == Mul(Mul(a, a), Mul(b, b))
  {
  }

  lemma SquareOfSum(a: real, b: real)
    ensures Mul(a + b, a + b) == Mul(a, a) + 2.0 * Mul(a, b) + Mul(b, b)
  {
  }

  lemma MulNegated(a: real, b: real)
    ensures Mul(-a, b) == -Mul(a, b)
  {
  }

  lemma MulMinus(a: real, b: real, c: real)
    ensures Mul(a - b, c) == Mul(a, c) - Mul(b, c)
  {
  }

  lemma MulTriple(a: real, b: real, c: real)
    ensures Mul(a, Mul(b, c)) == Mul(b, Mul(a, c)) == Mul(Mul(a, b), c) == Mul(Mul(a, c), b)
  {
  }

  lemma MulCommutes(a: real, b: real)
    ensures Mul(a, b) == Mul(b, a)
  {
  }

  lemma MulPlus(c: real, x: real, y: real)
    ensures Mul(c, x + y) == Mul(c, x) + Mul(c, y)
  {
  }

  lemma MulNegatedSquare(a: real)
    ensures Mul(-a, -a) == Mul(a, a)
  {
  }

  function Quot(a: real, b: real): real
    requires 0.0 < b
  {
    a / b
  }

  lemma QuotMul(a: real, b: real)
    requires 0.0 < b
    ensures Mul(Quot(a, b), b) == a
  {
  }

  lemma QuotUnique(q: real, a: real, b: real)
    requires 0.0 < b && Mul(q, b) == a
    ensures Quot(a, b) == q
  {
  }

  lemma MulZero(n: real)
    ensures Mul(0.0, n) == 0.0
  {
  }

  /** A quotient is at most c exactly when the dividend is at most c times the divisor. */
  lemma QuotAtMost(a: real, b: real, c: real)
    requires 0.0 < b
    ensures Quot(a, b) <= c <==> a <= Mul(c, b)
  {
    hide Mul, Quot;
    QuotMul(a, b);
    var q := Quot(a, b);
    if q <= c {
      MulOrder(q, c, b);
    } else {
      MulPositive(q - c, b);
      MulMinus(q, c, b);
    }
  }
}
