/** Small facts of integer arithmetic shared by the models of bit fields
    and alignment. */
module Arith {

  lemma MulAtLeast(a: int, d: int)
    requires a > 0 && d >= 1
    ensures a * d >= a
  {
  }

  lemma MulMono(a: nat, i: nat, j: nat)
    requires i <= j
    ensures a * i <= a * j
  {
    assert a * j - a * i == a * (j - i);
  }

  /** Quotient and remainder are unique. */
  lemma DivModUnique(x: int, a: int, q: int, r: int)
    requires a > 0 && x == a * q + r && 0 <= r < a
    ensures x / a == q && x % a == r
  {
    if q > x / a {
      MulAtLeast(a, q - x / a);
    } else if q < x / a {
      MulAtLeast(a, x / a - q);
    }
  }
}
