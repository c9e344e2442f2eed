/** Division with a known quotient and remainder. */
module Arith {
  /** The quotient and remainder of a division are the only ones that fit. */
  lemma Euclid(n: int, d: int, q: int, r: int)
    requires 0 <= r < d && n == q * d + r
    ensures n / d == q && n % d == r
  {
    var q', r' := n / d, n % d;
    assert (q - q') * d == r' - r;
    assert (q' - q) * d == r - r';
    if q > q' {
      Scale(1, q - q', d);
    } else if q < q' {
      Scale(1, q' - q, d);
    }
  }

  lemma Scale(a: int, b: int, d: int)
    requires a <= b && 0 <= d
    ensures a * d <= b * d
  {
  }
}
