/** Quotients and remainders of fields packed into a number. */
module Division {
  /** Quotient and remainder are determined by what they make up. */
  lemma Quotient(x: nat, d: nat, q: nat, r: nat)
    requires r < d && x == q * d + r
    ensures x / d == q && x % d == r
  {
    assert x == (x / d) * d + x % d;
    if x / d > q {
      MulAtLeast(x / d - q, d);
    } else if x / d < q {
      MulAtLeast(q - x / d, d);
    }
  }

  lemma MulAtLeast(k: nat, d: nat)
    requires k >= 1
    ensures k * d >= d
  {
  }
}
