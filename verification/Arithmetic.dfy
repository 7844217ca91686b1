/** A few nonlinear facts, stated one at a time so that each use is linear. */
module Arithmetic {

  lemma MulMonotonic(a: int, b: int, c: int)
    requires a <= b && 0 <= c
    ensures a * c <= b * c
  {
  }

  lemma MulDistributes(a: int, b: int, c: int)
    ensures (a + b) * c == a * c + b * c
  {
  }

  /** A quotient is determined by the interval of `divisor` numbers it heads. */
  lemma QuotientIs(u: int, divisor: int, q: int)
    requires 0 < divisor && q * divisor <= u < q * divisor + divisor
    ensures u / divisor == q && u % divisor == u - q * divisor
  {
    var k := u / divisor - q;
    assert -divisor < k * divisor < divisor by {
      assert u == u / divisor * divisor + u % divisor;
      assert k * divisor == u / divisor * divisor - q * divisor;
    }
    if k >= 1 {
      MulMonotonic(1, k, divisor);
      assert false;
    } else if k <= -1 {
      MulMonotonic(k, -1, divisor);
      assert false;
    }
  }
}
