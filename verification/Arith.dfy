/** Quotients and remainders by numbers that are not constants. */
module Arith {
  lemma {:induction false} MulStep(x: nat, q: nat, d: nat)
    requires x < q
    ensures x * d + d <= q * d
    decreases q
  {
    if x + 1 < q {
      MulStep(x, q - 1, d);
      assert (q - 1) * d + d == q * d;
    } else {
      assert (x + 1) * d == x * d + d;
    }
  }

  lemma Quotient(n: nat, q: nat, d: nat, r: nat, x: nat, y: nat)
    requires r < d && y < d && n == q * d + r && n == x * d + y
    ensures x == q && y == r
  {
    if x < q { MulStep(x, q, d); }
    if q < x { MulStep(q, x, d); }
  }

  /** Quotient and remainder are what they are. */
  lemma DivMul(q: nat, d: nat, r: nat)
    requires r < d
    ensures (q * d + r) / d == q && (q * d + r) % d == r
  {
    Quotient(q * d + r, q, d, r, (q * d + r) / d, (q * d + r) % d);
  }

  lemma Euclid(n: nat, d: nat)
    requires d > 0
    ensures n == n / d * d + n % d && 0 <= n % d < d && n / d >= 0
  {
  }
}
