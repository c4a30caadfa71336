/** Multiples, quotients and remainders. */
module Arithmetic {
  lemma QuotientNonNegative(x: nat, d: nat)
    requires d > 0
    ensures x / d >= 0
  {
    var q := x / d;
    assert x == q * d + x % d;
    if q < 0 {
      Multiples(q, -1, d);
      assert false;
    }
  }

  lemma Difference(p: int, q: int, d: nat)
    ensures (q - p) * d == q * d - p * d
  {
  }

  lemma Product(k: nat, d: nat)
    ensures k * d >= 0 && (k > 0 ==> k * d >= d)
  {
    if k > 0 { Difference(1, k, d); }
  }

  lemma Multiples(p: int, q: int, d: nat)
    requires p <= q
    ensures p * d <= q * d && (p < q ==> p * d + d <= q * d)
  {
    Difference(p, q, d);
    Product(q - p, d);
  }

  lemma RemainderIs(a: nat, q: nat, r: nat, d: nat)
    requires r < d && a == q * d + r
    ensures a % d == r
  {
    var p := a / d;
    assert a == p * d + a % d;
    if p < q {
      Multiples(p, q, d);
      assert false;
    }
    if q < p {
      Multiples(q, p, d);
      assert false;
    }
  }

  /** Adding to a remainder. */
  lemma ModAdd(s: nat, x: nat, modulus: nat)
    requires x < modulus
    ensures (s + x) % modulus == if s % modulus + x >= modulus then s % modulus + x - modulus else s % modulus + x
  {
    var q, r := s / modulus, s % modulus;
    QuotientNonNegative(s, modulus);
    assert s == q * modulus + r;
    if r + x >= modulus {
      assert (q + 1) * modulus == q * modulus + modulus;
      RemainderIs(s + x, q + 1, r + x - modulus, modulus);
    } else {
      RemainderIs(s + x, q, r + x, modulus);
    }
  }
}
