/** Small facts about real multiplication, stated over named functions so that
    the proofs that use them reason about products as single terms. */
module Reals {

  function Abs(r: real): real { if r < 0.0 then -r else r }

  function Mul(a: real, b: real): real { a * b }

  function Sq(x: real): real { Mul(x, x) }

  lemma MulPositive(a: real, b: real)
    requires a > 0.0 && b > 0.0
    ensures Mul(a, b) > 0.0
  {
  }

  lemma MulNonnegative(a: real, b: real)
    requires a >= 0.0 && b >= 0.0
    ensures Mul(a, b) >= 0.0
  {
  }

  /** Multiplying by a positive factor keeps a strict order, in both directions. */
  lemma MulStrictMonotone(a: real, b: real, c: real)
    requires c > 0.0
    ensures a < b <==> Mul(a, c) < Mul(b, c)
  {
    assert Mul(b, c) - Mul(a, c) == Mul(b - a, c);
    if a < b {
      MulPositive(b - a, c);
    } else {
      MulNonnegative(a - b, c);
      assert Mul(a, c) - Mul(b, c) == Mul(a - b, c);
    }
  }

  lemma SqNonnegative(x: real)
    ensures Sq(x) >= 0.0
  {
    if x >= 0.0 {
      MulNonnegative(x, x);
    } else {
      MulNonnegative(-x, -x);
      assert Mul(-x, -x) == Mul(x, x);
    }
  }

  /** A square is 0 only for 0. */
  lemma SqZero(x: real)
    ensures Sq(x) == 0.0 <==> x == 0.0
  {
    if x > 0.0 {
      MulPositive(x, x);
    } else if x < 0.0 {
      MulPositive(-x, -x);
      assert Mul(-x, -x) == Mul(x, x);
    }
  }

  lemma SqAbs(x: real)
    ensures Sq(Abs(x)) == Sq(x)
  {
    assert Mul(-x, -x) == Mul(x, x);
  }

  lemma SqMul(a: real, b: real)
    ensures Sq(Mul(a, b)) == Mul(Sq(a), Sq(b))
  {
  }

  /** On the non-negative reals squaring keeps a strict order, in both directions. */
  lemma SqStrictMonotone(a: real, b: real)
    requires a >= 0.0 && b >= 0.0
    ensures a < b <==> Sq(a) < Sq(b)
  {
    if a < b {
      assert Sq(b) - Sq(a) == Mul(b - a, b + a);
      MulPositive(b - a, b + a);
    } else if b < a {
      assert Sq(a) - Sq(b) == Mul(a - b, a + b);
      MulPositive(a - b, a + b);
    }
  }
}
