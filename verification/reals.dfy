/** Products of non-negative reals. */
module Reals {
  lemma NonNegative(a: real, b: real)
    requires a >= 0.0 && b >= 0.0
    ensures a * b >= 0.0
  {}

  lemma Distribute(a: real, b: real, c: real)
    ensures a * (b + c) == a * b + a * c
  {}

  lemma ScaleMono(a: real, x: real, y: real)
    requires 0.0 <= a && 0.0 <= x <= y
    ensures 0.0 <= a * x <= a * y
  {
    NonNegative(a, x);
    NonNegative(a, y - x);
    Distribute(a, x, y - x);
    assert x + (y - x) == y;
  }
}
