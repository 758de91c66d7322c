/** Signs, squares and quotients of reals, one nonlinear step at a time. */
module Reals {

  lemma PositiveProduct(a: real, b: real)
    requires a > 0.0 && b > 0.0
    ensures a * b > 0.0
  {}

  lemma NonNegativeProduct(a: real, b: real)
    requires a >= 0.0 && b >= 0.0
    ensures a * b >= 0.0
  {}

  function Square(r: real): real {
    r * r
  }

  lemma SquareOfProduct(a: real, b: real)
    ensures Square(a * b) == Square(a) * Square(b)
  {}

  lemma SquareIsPositive(a: real)
    requires a > 0.0
    ensures Square(a) > 0.0
  {
    NamedProduct(a, a, Square(a));
  }

  lemma NamedProduct(a: real, b: real, product: real)
    requires a > 0.0 && b > 0.0 && product == a * b
    ensures product > 0.0
  {}

  lemma UnitShares(a: real, b: real, k: real, m: real, n: real)
    requires k > 0.0 && m == a * k && n == b * k && m + n == k
    ensures a + b == 1.0
  {
    var rest := 1.0 - (a + b);
    assert rest * k == k - (a * k + b * k);
    if rest > 0.0 {
      PositiveProduct(rest, k);
    } else if rest < 0.0 {
      PositiveProduct(-rest, k);
    }
  }

  lemma SquareIsNotNegative(r: real)
    ensures r * r >= 0.0
  {
    if r < 0.0 {
      assert r * r == (-r) * (-r);
    }
  }

  lemma QuotientIs(a: real, b: real, q: real)
    requires b > 0.0 && q * b == a
    ensures a / b == q
  {
    var d := a / b - q;
    assert (a / b) * b == a;
    assert d * b == 0.0;
  }

  /** A larger number has the larger square, and back. */
  lemma SquaresCompare(a: real, b: real)
    requires a >= 0.0 && b >= 0.0
    ensures a <= b <==> a * a <= b * b
  {
    assert b * b - a * a == (b - a) * (b + a);
    if a < b {
      PositiveProduct(b - a, b + a);
    } else if a > b {
      PositiveProduct(a - b, b + a);
      assert (b - a) * (b + a) == -((a - b) * (b + a));
    }
  }
}
