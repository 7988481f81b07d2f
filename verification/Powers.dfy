/** Powers in a commutative monoid: the multiplication of a field, or of the pairs that
    Cipolla's algorithm computes with. */
module Powers {
  import opened Fields

  datatype Monoid<!M> = Monoid(one: M, mul: (M, M) -> M)

  ghost predicate AssocAt<M>(m: Monoid<M>, x: M, y: M, z: M) {
    m.mul(m.mul(x, y), z) == m.mul(x, m.mul(y, z))
  }
  ghost predicate CommAt<M>(m: Monoid<M>, x: M, y: M) { m.mul(x, y) == m.mul(y, x) }
  ghost predicate UnitAt<M>(m: Monoid<M>, x: M) { m.mul(x, m.one) == x }

  ghost predicate IsMonoid<M(!new)>(m: Monoid<M>) {
    && (forall x, y, z :: AssocAt(m, x, y, z))
    && (forall x, y :: CommAt(m, x, y))
    && (forall x :: UnitAt(m, x))
  }

  lemma Assoc<M(!new)>(m: Monoid<M>, x: M, y: M, z: M)
    requires IsMonoid(m)
    ensures m.mul(m.mul(x, y), z) == m.mul(x, m.mul(y, z))
  {
    assert AssocAt(m, x, y, z);
  }

  lemma Comm<M(!new)>(m: Monoid<M>, x: M, y: M)
    requires IsMonoid(m)
    ensures m.mul(x, y) == m.mul(y, x)
  {
    assert CommAt(m, x, y);
  }

  lemma Unit<M(!new)>(m: Monoid<M>, x: M)
    requires IsMonoid(m)
    ensures m.mul(x, m.one) == x && m.mul(m.one, x) == x
  {
    assert UnitAt(m, x);
    Comm(m, x, m.one);
  }

  /** Swaps the inner two of four factors. */
  lemma Swap<M(!new)>(m: Monoid<M>, a: M, b: M, c: M, d: M)
    requires IsMonoid(m)
    ensures m.mul(m.mul(a, b), m.mul(c, d)) == m.mul(m.mul(a, c), m.mul(b, d))
  {
    Assoc(m, a, b, m.mul(c, d));
    Assoc(m, b, c, d);
    Comm(m, b, c);
    Assoc(m, c, b, d);
    Assoc(m, a, c, m.mul(b, d));
  }

  function Pow<M>(m: Monoid<M>, x: M, n: nat): M {
    if n == 0 then m.one else m.mul(Pow(m, x, n - 1), x)
  }

  lemma PowOne<M(!new)>(m: Monoid<M>, x: M)
    requires IsMonoid(m)
    ensures Pow(m, x, 1) == x && Pow(m, x, 2) == m.mul(x, x)
  {
    Unit(m, x);
    assert Pow(m, x, 0) == m.one;
    assert Pow(m, x, 1) == m.mul(Pow(m, x, 0), x);
  }

  lemma {:induction false} PowAdd<M(!new)>(m: Monoid<M>, x: M, a: nat, b: nat)
    requires IsMonoid(m)
    ensures Pow(m, x, a + b) == m.mul(Pow(m, x, a), Pow(m, x, b))
  {
    if b == 0 { Unit(m, Pow(m, x, a)); }
    else {
      PowAdd(m, x, a, b - 1);
      Assoc(m, Pow(m, x, a), Pow(m, x, b - 1), x);
    }
  }

  lemma {:induction false} PowOfMul<M(!new)>(m: Monoid<M>, x: M, y: M, n: nat)
    requires IsMonoid(m)
    ensures Pow(m, m.mul(x, y), n) == m.mul(Pow(m, x, n), Pow(m, y, n))
  {
    if n == 0 { Unit(m, m.one); }
    else {
      PowOfMul(m, x, y, n - 1);
      Swap(m, Pow(m, x, n - 1), Pow(m, y, n - 1), x, y);
    }
  }

  lemma {:induction false} PowPow<M(!new)>(m: Monoid<M>, x: M, a: nat, b: nat)
    requires IsMonoid(m)
    ensures Pow(m, Pow(m, x, a), b) == Pow(m, x, a * b)
  {
    if b > 0 {
      PowPow(m, x, a, b - 1);
      PowAdd(m, x, a * (b - 1), a);
      assert a * b == a * (b - 1) + a;
    }
  }

  lemma {:induction false} PowUnit<M(!new)>(m: Monoid<M>, n: nat)
    requires IsMonoid(m)
    ensures Pow(m, m.one, n) == m.one
  {
    if n > 0 { PowUnit(m, n - 1); Unit(m, m.one); }
  }

  function Times<F>(f: Field<F>): Monoid<F> { Monoid(f.one, f.mul) }

  function Power<F>(f: Field<F>, x: F, n: nat): F { Pow(Times(f), x, n) }

  lemma TimesIsMonoid<F(!new)>(f: Field<F>)
    requires IsField(f)
    ensures IsMonoid(Times(f))
  {
    forall x, y, z ensures AssocAt(Times(f), x, y, z) { MulAssoc(f, x, y, z); }
    forall x, y ensures CommAt(Times(f), x, y) { MulComm(f, x, y); }
    forall x ensures UnitAt(Times(f), x) { MulOne(f, x); }
  }

  lemma {:induction false} PowNonzero<F(!new)>(f: Field<F>, x: F, n: nat)
    requires IsField(f) && x != f.zero
    ensures Pow(Times(f), x, n) != f.zero
  {
    if n > 0 {
      PowNonzero(f, x, n - 1);
      NoZeroDivisor(f, Pow(Times(f), x, n - 1), x);
    }
  }

  /** Square-and-multiply over the bits of the exponent, lowest first; the loop of
      `CipollaExtension::pow` and of the library's `exp_u64`. */
  method SquareAndMultiply<M(!new)>(m: Monoid<M>, x: M, exp: nat) returns (result: M)
    requires IsMonoid(m)
    ensures result == Pow(m, x, exp)
  {
    result := m.one;
    var base, left := x, exp;
    Unit(m, Pow(m, x, exp));
    while left > 0
      invariant m.mul(result, Pow(m, base, left)) == Pow(m, x, exp)
    {
      PowSplit(m, base, left);
      var rest := Pow(m, m.mul(base, base), left / 2);
      if left % 2 == 1 {
        Assoc(m, result, base, rest);
        result := m.mul(result, base);
      }
      base := m.mul(base, base);
      left := left / 2;
    }
    Unit(m, result);
  }

  lemma PowSplit<M(!new)>(m: Monoid<M>, x: M, n: nat)
    requires IsMonoid(m)
    ensures Pow(m, x, n) ==
      var half := Pow(m, m.mul(x, x), n / 2); if n % 2 == 1 then m.mul(x, half) else half
  {
    var h := n / 2;
    PowOfMul(m, x, x, h);
    PowAdd(m, x, h, h);
    if n % 2 == 1 {
      assert n == 2 * h + 1;
      Comm(m, Pow(m, x, 2 * h), x);
    } else {
      assert n == 2 * h;
    }
  }
}
