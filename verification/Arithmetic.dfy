/** Division by a positive number. */
module Arithmetic {

  lemma SmallMultiple(d: int, e: int)
    requires d > 0 && -d < d * e < d
    ensures e == 0
  {
    ProductBound(d, e);
    ProductBound(d, -e);
  }

  lemma ProductBound(d: int, e: int)
    requires d > 0
    ensures e >= 1 ==> d * e >= d
  {
  }

  /** The quotient and the remainder are what multiplies and adds up to the dividend. */
  lemma QuotientIs(n: int, d: int, q: int, r: int)
    requires d > 0 && 0 <= r < d && n == d * q + r
    ensures n / d == q && n % d == r
  {
    var e := n / d - q;
    assert d * e == r - n % d;
    SmallMultiple(d, e);
  }
}
