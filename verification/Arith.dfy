/** Division and multiplication facts that the solver does not find unaided. */
module Arith {
  lemma MulMonotone(p: nat, a: int, b: int)
    requires a <= b
    ensures p * a <= p * b
  {
    assert p * (b - a) >= 0;
  }

  /** Euclid: quotient and remainder are determined. */
  lemma Quotient(n: int, p: nat, q: int, r: nat)
    requires r < p && n == p * q + r
    ensures n / p == q && n % p == r
  {
    var d := n / p;
    if d < q {
      MulMonotone(p, d + 1, q);
    }
    if d > q {
      MulMonotone(p, q + 1, d);
    }
  }

  lemma DivNat(v: nat, p: nat)
    requires p > 0
    ensures v / p >= 0
  {
  }

  lemma DivDiv(v: nat, a: nat, p: nat)
    requires a > 0 && p > 0
    ensures a * p > 0 && v / a / p == v / (a * p)
  {
    var q, r := v / a / p, v / a % p;
    var s := v % a;
    assert v == a * (p * q + r) + s == a * p * q + (a * r + s);
    MulMonotone(a, r + 1, p);
    Quotient(v, a * p, q, a * r + s);
  }
}
