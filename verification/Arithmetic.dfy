/** Products of integers. */
module Arithmetic {
  lemma MulMono(a: int, b: int, d: int)
    requires a <= b && d >= 0
    ensures a * d <= b * d
  {}

  lemma MulLess(a: int, b: int, d: int)
    requires a * d < b * d && d >= 0
    ensures a < b
  {
    if b <= a { MulMono(b, a, d); }
  }

  lemma AtMostQuotient(k: int, d: int, x: int)
    requires d >= 1 && k * d <= x
    ensures k <= x / d
  {
    assert (x / d + 1) * d == x / d * d + d;
    MulLess(k, x / d + 1, d);
  }
}
