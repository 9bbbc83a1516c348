/** Multiplication and division facts used by the block and bit arithmetic. */
module Arithmetic {
  lemma MulMonotone(a: nat, b: nat, c: nat)
    requires a <= b
    ensures a * c <= b * c
  {
  }

  lemma DivisionIsUnique(n: int, d: nat, q: int, r: int)
    requires d > 0 && n == q * d + r && 0 <= r < d
    ensures n / d == q && n % d == r
  {
    if n / d > q {
      assert (n / d - q) * d >= d by { MulMonotone(1, n / d - q, d); }
    } else if n / d < q {
      assert (q - n / d) * d >= d by { MulMonotone(1, q - n / d, d); }
    }
  }
}
