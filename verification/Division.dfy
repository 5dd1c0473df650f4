/** Integer division by a variable, in steps small enough for the verifier. */
module Division {

  lemma Divided(n: int, d: int)
    requires d > 0
    ensures n == d * (n / d) + n % d && 0 <= n % d < d
  {}

  lemma MulStep(d: nat, p: int, q: int)
    requires p < q
    ensures d * p + d <= d * q
  {
    assert d * (p + 1) <= d * q;
  }

  /** A number has one quotient. */
  lemma QuotientUnique(n: int, d: int, q: int)
    requires d > 0 && d * q <= n < d * q + d
    ensures n / d == q
  {
    var p := n / d;
    Divided(n, d);
    if p < q { MulStep(d, p, q); }
    if q < p { MulStep(d, q, p); }
  }
}
