/** Division and remainder by a variable divisor: what shifts and masks by a
    variable number of bits compute. */
module Arithmetic {

  lemma DivMod(x: nat, d: nat)
    requires d > 0
    ensures x == (x / d) * d + x % d && 0 <= x % d < d && x / d >= 0
  {
  }

  lemma {:induction false} MulMonotone(a: nat, b: nat, d: nat)
    ensures a <= b ==> a * d <= b * d
  {
    if a < b {
      MulMonotone(a, b - 1, d);
      assert b * d == (b - 1) * d + d;
    }
  }

  lemma MulAssociative(a: nat, b: nat, c: nat)
    ensures a * (b * c) == (a * b) * c
  {
  }

  /** x lies in the q-th block of d, r places in. */
  lemma QuotientRemainder(x: nat, q: nat, d: nat, r: nat)
    requires r < d && x == q * d + r
    ensures x / d == q && x % d == r
  {
    var q2 := x / d;
    DivMod(x, d);
    MulMonotone(q2 + 1, q, d);
    MulMonotone(q + 1, q2, d);
    assert (q2 + 1) * d == q2 * d + d && (q + 1) * d == q * d + d;
    assert q2 == q;
  }

  lemma Multiple(q: nat, d: nat)
    requires d > 0
    ensures (q * d) % d == 0 && (q * d) / d == q
  {
    QuotientRemainder(q * d, q, d, 0);
  }
}
