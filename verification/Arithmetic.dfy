/** Arithmetic that the models share. */
module Arithmetic {

  lemma AtLeast(p: int, d: int)
    requires p > 0 && d >= 1
    ensures p * d >= p
  {
  }

  /** Quotient and remainder are determined by their defining equation. */
  lemma DivisionIs(q: int, r: int, p: int)
    requires p > 0 && 0 <= r < p
    ensures (r + p * q) % p == r && (r + p * q) / p == q
  {
    var x := r + p * q;
    var d := q - x / p;
    assert p * d == x % p - r by {
      assert x == p * (x / p) + x % p;
      assert p * d == p * q - p * (x / p);
    }
    if d >= 1 {
      AtLeast(p, d);
    } else if d <= -1 {
      AtLeast(p, -d);
    }
  }

  lemma Remainder(r: int, k: int, p: int)
    requires p > 0 && 0 <= r < p
    ensures (r + p * k) % p == r
  {
    DivisionIs(k, r, p);
  }

  lemma Multiple(k: int, p: int)
    requires p > 0
    ensures (p * k) % p == 0
  {
    Remainder(0, k, p);
  }

  /** The order of the KoalaBear field: 2^31 - 2^24 + 1. */
  const P: nat := 2130706433

  function Pow2(n: nat): nat {
    if n == 0 then 1 else 2 * Pow2(n - 1)
  }

  lemma {:induction false} Pow2Sum(a: nat, b: nat)
    ensures Pow2(a + b) == Pow2(a) * Pow2(b)
  {
    if b > 0 {
      Pow2Sum(a, b - 1);
      assert Pow2(a + b) == 2 * (Pow2(a) * Pow2(b - 1)) == Pow2(a) * (2 * Pow2(b - 1));
    }
  }
}
