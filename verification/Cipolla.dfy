/** Cipolla's algorithm as `SepticExtension::sqrt` uses it (septic_extension.rs,
    `CipollaExtension`): why the real part of (a + sqrt(w))^((p+1)/2) is a square root. */
module Cipolla {
  import opened Fields
  import opened Powers

  datatype Pair<F> = Pair(re: F, im: F)

  /** `mul_ext`. */
  function MulExt<F>(f: Field<F>, w: F, a: Pair<F>, b: Pair<F>): Pair<F> {
    Pair(f.add(f.mul(a.re, b.re), f.mul(f.mul(w, a.im), b.im)),
         f.add(f.mul(a.re, b.im), f.mul(a.im, b.re)))
  }

  function Pairs<F>(f: Field<F>, w: F): Monoid<Pair<F>> {
    Monoid(Pair(f.one, f.zero), (a, b) => MulExt(f, w, a, b))
  }

  function AddPairs<F>(f: Field<F>, a: Pair<F>, b: Pair<F>): Pair<F> {
    Pair(f.add(a.re, b.re), f.add(a.im, b.im))
  }

  // ---------------------------------------------------------------------------------------
  // The pairs form a commutative monoid
  // ---------------------------------------------------------------------------------------

  /** (X + Y)Z + (U + V)T and A(B + C) + D(E + G) have the same four products. */
  lemma FourProducts<F(!new)>(f: Field<F>, x: F, y: F, z: F, u: F, v: F, t: F,
                              a: F, b: F, c: F, d: F, e: F, g: F)
    requires IsField(f)
    requires f.mul(x, z) == f.mul(a, b) && f.mul(y, z) == f.mul(d, g)
    requires f.mul(u, t) == f.mul(a, c) && f.mul(v, t) == f.mul(d, e)
    ensures f.add(f.mul(f.add(x, y), z), f.mul(f.add(u, v), t))
         == f.add(f.mul(a, f.add(b, c)), f.mul(d, f.add(e, g)))
  {
    Distrib(f, z, x, y);
    Distrib(f, t, u, v);
    Distrib(f, a, b, c);
    Distrib(f, d, e, g);
    AddSwap(f, f.mul(x, z), f.mul(y, z), f.mul(u, t), f.mul(v, t));
    AddComm(f, f.mul(y, z), f.mul(v, t));
  }

  /** x(yz) = y(xz). */
  lemma Exchange<F(!new)>(f: Field<F>, x: F, y: F, z: F)
    requires IsField(f)
    ensures f.mul(x, f.mul(y, z)) == f.mul(y, f.mul(x, z))
  {
    MulAssoc(f, x, y, z);
    MulComm(f, x, y);
    MulAssoc(f, y, x, z);
  }

  lemma PairAssoc<F(!new)>(f: Field<F>, w: F, a: Pair<F>, b: Pair<F>, c: Pair<F>)
    requires IsField(f)
    ensures MulExt(f, w, MulExt(f, w, a, b), c) == MulExt(f, w, a, MulExt(f, w, b, c))
  {
    var ar, ai, br, bi, cr, ci := a.re, a.im, b.re, b.im, c.re, c.im;
    var wai, wbi := f.mul(w, ai), f.mul(w, bi);
    Distrib(f, w, f.mul(ar, bi), f.mul(ai, br));
    MulAssoc(f, ar, br, cr);
    MulAssoc(f, wai, bi, cr);
    Exchange(f, w, ar, bi);
    MulAssoc(f, ar, wbi, ci);
    MulAssoc(f, w, ai, br);
    MulAssoc(f, wai, br, ci);
    FourProducts(f, f.mul(ar, br), f.mul(wai, bi), cr, f.mul(w, f.mul(ar, bi)), f.mul(w, f.mul(ai, br)), ci,
                 ar, f.mul(br, cr), f.mul(wbi, ci), wai, f.mul(br, ci), f.mul(bi, cr));
    MulAssoc(f, ar, br, ci);
    MulComm(f, w, ai);
    MulAssoc(f, ai, w, bi);
    MulAssoc(f, ai, wbi, ci);
    MulAssoc(f, ar, bi, cr);
    MulAssoc(f, ai, br, cr);
    FourProducts(f, f.mul(ar, br), f.mul(wai, bi), ci, f.mul(ar, bi), f.mul(ai, br), cr,
                 ar, f.mul(br, ci), f.mul(bi, cr), ai, f.mul(br, cr), f.mul(wbi, ci));
  }

  lemma PairComm<F(!new)>(f: Field<F>, w: F, a: Pair<F>, b: Pair<F>)
    requires IsField(f)
    ensures MulExt(f, w, a, b) == MulExt(f, w, b, a)
  {
    MulComm(f, a.re, b.re);
    MulAssoc(f, w, a.im, b.im);
    MulComm(f, a.im, b.im);
    MulAssoc(f, w, b.im, a.im);
    MulComm(f, a.re, b.im);
    MulComm(f, a.im, b.re);
    AddComm(f, f.mul(a.re, b.im), f.mul(a.im, b.re));
  }

  /** Multiplying by a base element, in front or behind. */
  lemma MulBase<F(!new)>(f: Field<F>, w: F, r: F, x: Pair<F>)
    requires IsField(f)
    ensures MulExt(f, w, Pair(r, f.zero), x) == Pair(f.mul(r, x.re), f.mul(r, x.im))
    ensures MulExt(f, w, x, Pair(r, f.zero)) == Pair(f.mul(r, x.re), f.mul(r, x.im))
  {
    MulZero(f, w);
    MulZero(f, x.im);
    MulZero(f, x.re);
    AddZero(f, f.mul(r, x.re));
    AddZero(f, f.mul(r, x.im));
    PairComm(f, w, x, Pair(r, f.zero));
  }

  lemma PairsAreMonoid<F(!new)>(f: Field<F>, w: F)
    requires IsField(f)
    ensures IsMonoid(Pairs(f, w))
  {
    var m := Pairs(f, w);
    forall x, y, z ensures AssocAt(m, x, y, z) { PairAssoc(f, w, x, y, z); }
    forall x, y ensures CommAt(m, x, y) { PairComm(f, w, x, y); }
    forall x ensures UnitAt(m, x) {
      MulBase(f, w, f.one, x);
      MulOne(f, x.re);
      MulOne(f, x.im);
    }
  }

  // ---------------------------------------------------------------------------------------
  // Powers of pairs
  // ---------------------------------------------------------------------------------------

  lemma {:induction false} BasePower<F(!new)>(f: Field<F>, w: F, r: F, n: nat)
    requires IsField(f)
    ensures Pow(Pairs(f, w), Pair(r, f.zero), n) == Pair(Pow(Times(f), r, n), f.zero)
  {
    if n > 0 {
      BasePower(f, w, r, n - 1);
      MulBase(f, w, r, Pair(Pow(Times(f), r, n - 1), f.zero));
      MulComm(f, r, Pow(Times(f), r, n - 1));
      MulZero(f, r);
    }
  }

  /** Over w = 0 the real part multiplies on its own. */
  lemma {:induction false} RealPower<F(!new)>(f: Field<F>, x: Pair<F>, n: nat)
    requires IsField(f)
    ensures Pow(Pairs(f, f.zero), x, n).re == Pow(Times(f), x.re, n)
  {
    if n > 0 {
      hide IsField;
      var y := Pow(Pairs(f, f.zero), x, n - 1);
      RealPower(f, x, n - 1);
      MulZero(f, y.im);
      MulZero(f, x.im);
      AddZero(f, f.mul(y.re, x.re));
    }
  }

  // ---------------------------------------------------------------------------------------
  // A prime field of odd order p
  // ---------------------------------------------------------------------------------------

  ghost predicate FermatAt<F>(f: Field<F>, p: nat, x: F) { Pow(Times(f), x, p) == x }

  /** In characteristic p the p-th power is additive. */
  ghost predicate AdditiveAt<F>(f: Field<F>, p: nat, w: F, a: Pair<F>, b: Pair<F>) {
    Pow(Pairs(f, w), AddPairs(f, a, b), p)
    == AddPairs(f, Pow(Pairs(f, w), a, p), Pow(Pairs(f, w), b, p))
  }

  /** What is taken for granted of the base field: Fermat's little theorem and the additivity
      of the p-th power over the pairs. */
  ghost predicate PrimeField<F(!new)>(f: Field<F>, p: nat) {
    && IsField(f) && p > 2 && p % 2 == 1
    && f.add(f.one, f.one) != f.zero
    && (forall x :: FermatAt(f, p, x))
    && (forall w, a, b :: AdditiveAt(f, p, w, a, b))
  }

  lemma PrimeFieldIsField<F(!new)>(f: Field<F>, p: nat)
    requires PrimeField(f, p)
    ensures IsField(f) && p > 0
  {}

  /** The Euler power, which tells squares from non-squares. */
  function Euler<F>(f: Field<F>, p: nat, x: F): F
    requires p > 0
  {
    Pow(Times(f), x, (p - 1) / 2)
  }

  method EulerPower<F(!new)>(f: Field<F>, p: nat, x: F) returns (r: F)
    requires IsField(f) && p > 0
    ensures r == Euler(f, p, x)
  {
    hide IsField, IsMonoid, Pow;
    TimesIsMonoid(f);
    r := SquareAndMultiply(Times(f), x, (p - 1) / 2);
  }

  lemma FermatUnit<F(!new)>(f: Field<F>, p: nat, x: F)
    requires PrimeField(f, p) && x != f.zero
    ensures Pow(Times(f), x, p - 1) == f.one
  {
    assert FermatAt(f, p, x);
    MulOne(f, x);
    MulComm(f, x, Pow(Times(f), x, p - 1));
    MulCancel(f, x, Pow(Times(f), x, p - 1), f.one);
  }

  lemma EulerOfSquare<F(!new)>(f: Field<F>, p: nat, t: F)
    requires PrimeField(f, p) && t != f.zero
    ensures Euler(f, p, f.mul(t, t)) == f.one
  {
    TimesIsMonoid(f);
    PowOne(Times(f), t);
    PowPow(Times(f), t, 2, (p - 1) / 2);
    FermatUnit(f, p, t);
  }

  /** The Euler power of anything but zero is 1 or -1. */
  lemma EulerIsSign<F(!new)>(f: Field<F>, p: nat, w: F)
    requires PrimeField(f, p) && w != f.zero && Euler(f, p, w) != f.one
    ensures Euler(f, p, w) == f.neg(f.one)
  {
    var t := Euler(f, p, w);
    TimesIsMonoid(f);
    PowAdd(Times(f), w, (p - 1) / 2, (p - 1) / 2);
    FermatUnit(f, p, w);
    var s := f.add(t, f.one);
    Distrib(f, s, t, f.one);
    Distrib(f, t, t, f.one);
    MulOne(f, t);
    MulOne(f, s);
    AddComm(f, f.one, t);
    MulComm(f, s, t);
    MulComm(f, s, f.one);
    if s != f.zero { MulCancel(f, s, t, f.one); }
    AddNeg(f, f.one);
    AddComm(f, t, f.one);
    AddCancel(f, f.one, t, f.neg(f.one));
  }

  lemma EulerOfInverse<F(!new)>(f: Field<F>, p: nat, x: F)
    requires PrimeField(f, p) && x != f.zero && Euler(f, p, x) == f.one
    ensures Euler(f, p, f.inv(x)) == f.one
  {
    TimesIsMonoid(f);
    PowOfMul(Times(f), x, f.inv(x), (p - 1) / 2);
    MulInv(f, x);
    PowUnit(Times(f), (p - 1) / 2);
    MulOne(f, Euler(f, p, f.inv(x)));
  }

  lemma RootSquared<F(!new)>(f: Field<F>, w: F)
    requires IsField(f)
    ensures MulExt(f, w, Pair(f.zero, f.one), Pair(f.zero, f.one)) == Pair(w, f.zero)
  {
    hide IsField;
    MulZero(f, f.zero);
    MulZero(f, f.one);
    MulOne(f, w);
    AddZero(f, w);
    AddZero(f, f.zero);
  }

  /** The p-th power of the adjoined root is its negative. */
  lemma RootPower<F(!new)>(f: Field<F>, p: nat, w: F)
    requires PrimeField(f, p) && w != f.zero && Euler(f, p, w) != f.one
    ensures Pow(Pairs(f, w), Pair(f.zero, f.one), p) == Pair(f.zero, f.neg(f.one))
  {
    hide IsField, IsMonoid, MulExt;
    var m, z, h := Pairs(f, w), Pair(f.zero, f.one), (p - 1) / 2;
    PairsAreMonoid(f, w);
    RootSquared(f, w);
    PowOne(m, z);
    PowPow(m, z, 2, h);
    BasePower(f, w, w, h);
    EulerIsSign(f, p, w);
    assert p == 2 * h + 1;
    MulBase(f, w, f.neg(f.one), z);
    MulZero(f, f.neg(f.one));
    MulOne(f, f.neg(f.one));
  }

  /** The p-th power conjugates. */
  lemma PowerConjugates<F(!new)>(f: Field<F>, p: nat, w: F, x: Pair<F>)
    requires PrimeField(f, p) && w != f.zero && Euler(f, p, w) != f.one
    ensures Pow(Pairs(f, w), x, p) == Pair(x.re, f.neg(x.im))
  {
    var m := Pairs(f, w);
    var rp, ip, z := Pair(x.re, f.zero), Pair(x.im, f.zero), Pair(f.zero, f.one);
    PairsAreMonoid(f, w);
    assert m.mul(ip, z) == Pair(f.zero, x.im) by {
      MulBase(f, w, x.im, z);
      MulZero(f, x.im);
      MulOne(f, x.im);
    }
    assert AddPairs(f, rp, m.mul(ip, z)) == x by { AddZero(f, x.re); AddZero(f, x.im); }
    assert AdditiveAt(f, p, w, rp, m.mul(ip, z));
    assert FermatAt(f, p, x.re) && FermatAt(f, p, x.im);
    BasePower(f, w, x.re, p);
    BasePower(f, w, x.im, p);
    PowOfMul(m, ip, z, p);
    RootPower(f, p, w);
    MulBase(f, w, x.im, Pair(f.zero, f.neg(f.one)));
    MulZero(f, x.im);
    NegMul(f, f.one, x.im);
    MulOne(f, x.im);
    AddZero(f, x.re);
    AddZero(f, f.neg(x.im));
  }

  // ---------------------------------------------------------------------------------------
  // The root
  // ---------------------------------------------------------------------------------------

  function CipollaPower<F>(f: Field<F>, p: nat, a: F, w: F): Pair<F> {
    Pow(Pairs(f, w), Pair(a, f.one), (p + 1) / 2)
  }

  /** The search may stop at w = 0; then the real part is a power of a. */
  lemma ZeroCandidate<F(!new)>(f: Field<F>, p: nat, a: F)
    requires PrimeField(f, p)
    ensures var r := CipollaPower(f, p, a, f.zero).re; f.mul(r, r) == f.mul(a, a)
  {
    hide IsField, IsMonoid;
    var m, h := Times(f), (p + 1) / 2;
    TimesIsMonoid(f);
    RealPower(f, Pair(a, f.one), h);
    PowAdd(m, a, h, h);
    assert h + h == p + 1;
    assert FermatAt(f, p, a);
  }

  lemma PowerSquared<F(!new)>(f: Field<F>, p: nat, a: F, w: F, base: F)
    requires PrimeField(f, p) && w == f.Sub(f.mul(a, a), base)
    requires w != f.zero && Euler(f, p, w) != f.one
    ensures var x := CipollaPower(f, p, a, w); Pairs(f, w).mul(x, x) == Pair(base, f.zero)
  {
    hide IsField, IsMonoid, MulExt;
    var m, y, h := Pairs(f, w), Pair(a, f.one), (p + 1) / 2;
    PairsAreMonoid(f, w);
    PowAdd(m, y, h, h);
    assert h + h == p + 1;
    PowerConjugates(f, p, w, y);
    TimesConjugate(f, a, w, base);
  }

  /** (a - sqrt(w))(a + sqrt(w)) = base. */
  lemma TimesConjugate<F(!new)>(f: Field<F>, a: F, w: F, base: F)
    requires IsField(f) && w == f.Sub(f.mul(a, a), base)
    ensures MulExt(f, w, Pair(a, f.neg(f.one)), Pair(a, f.one)) == Pair(base, f.zero)
  {
    hide IsField;
    var n := f.neg(f.one);
    MulOne(f, a);
    MulOne(f, f.mul(w, n));
    MulOne(f, w);
    NegMul(f, f.one, w);
    NegMul(f, f.one, a);
    AddNeg(f, a);
    SubIs(f, f.mul(a, a), w, base);
    SubIs(f, f.mul(a, a), base, w);
    AddComm(f, base, w);
  }

  lemma OwnNegative<F(!new)>(f: Field<F>, x: F)
    requires IsField(f) && f.add(f.one, f.one) != f.zero && x == f.neg(x)
    ensures x == f.zero
  {
    AddNeg(f, x);
    Distrib(f, x, f.one, f.one);
    MulOne(f, x);
    NoZeroDivisor(f, f.add(f.one, f.one), x);
  }

  /** For a base with Euler power 1 the real part is a square root of it. */
  lemma CipollaRoot<F(!new)>(f: Field<F>, p: nat, a: F, w: F, base: F)
    requires PrimeField(f, p) && w == f.Sub(f.mul(a, a), base)
    requires Euler(f, p, w) != f.one && Euler(f, p, base) == f.one
    ensures var r := CipollaPower(f, p, a, w).re; f.mul(r, r) == base
  {
    hide IsField, IsMonoid;
    var m, x, h := Pairs(f, w), CipollaPower(f, p, a, w), (p - 1) / 2;
    if w == f.zero {
      ZeroCandidate(f, p, a);
      SubZero(f, f.mul(a, a), base);
    } else {
      PairsAreMonoid(f, w);
      PowerSquared(f, p, a, w, base);
      PowOne(m, x);
      PowPow(m, x, 2, h);
      BasePower(f, w, base, h);
      assert p == 2 * h + 1;
      Unit(m, x);
      PowerConjugates(f, p, w, x);
      OwnNegative(f, x.im);
      MulZero(f, w);
      MulZero(f, f.zero);
      AddZero(f, f.mul(x.re, x.re));
    }
  }

  // ---------------------------------------------------------------------------------------
  // The search for a candidate
  // ---------------------------------------------------------------------------------------

  /** The k-th candidate of the search: a = g^k. */
  function Candidate<F>(f: Field<F>, g: F, base: F, k: nat): F {
    var a := Pow(Times(f), g, k); f.Sub(f.mul(a, a), base)
  }

  /** `a` is the first power of g whose candidate is not an Euler-one. */
  ghost predicate FirstCandidate<F(!new)>(f: Field<F>, p: nat, g: F, base: F, a: F, k: nat)
    requires p > 0
  {
    && a == Pow(Times(f), g, k)
    && forall j: nat | j < k :: Euler(f, p, Candidate(f, g, base, j)) == f.one
  }

  lemma StartCandidate<F(!new)>(f: Field<F>, p: nat, g: F, base: F)
    requires p > 0 && IsField(f)
    ensures FirstCandidate(f, p, g, base, f.one, 0)
    ensures Candidate(f, g, base, 0) == f.Sub(f.one, base)
  {
    hide IsField;
    MulOne(f, f.one);
  }

  lemma NextCandidate<F(!new)>(f: Field<F>, p: nat, g: F, base: F, a: F, k: nat)
    requires p > 0 && FirstCandidate(f, p, g, base, a, k)
    requires Euler(f, p, Candidate(f, g, base, k)) == f.one
    ensures FirstCandidate(f, p, g, base, f.mul(a, g), k + 1)
    ensures Candidate(f, g, base, k + 1) == f.Sub(f.mul(f.mul(a, g), f.mul(a, g)), base)
  {
    hide Euler;
  }

  /** The loop of `sqrt` that looks for a non-residue; `enough` bounds it. */
  method FindNonresidue<F(==, !new)>(f: Field<F>, p: nat, g: F, base: F, ghost enough: nat)
    returns (a: F, nonresidue: F)
    requires PrimeField(f, p) && Euler(f, p, Candidate(f, g, base, enough)) != f.one
    ensures nonresidue == f.Sub(f.mul(a, a), base) && Euler(f, p, nonresidue) != f.one
    ensures exists k: nat :: FirstCandidate(f, p, g, base, a, k)
  {
    hide IsField, IsMonoid, PrimeField, Pow, FirstCandidate, Euler, Candidate;
    PrimeFieldIsField(f, p);
    a := f.one;
    MulOne(f, f.one);
    nonresidue := f.Sub(f.one, base);
    ghost var k: nat := 0;
    StartCandidate(f, p, g, base);
    var legendre := EulerPower(f, p, nonresidue);
    while legendre == f.one
      invariant k <= enough && FirstCandidate(f, p, g, base, a, k)
      invariant nonresidue == f.Sub(f.mul(a, a), base) == Candidate(f, g, base, k)
      invariant legendre == Euler(f, p, nonresidue)
      decreases enough - k
    {
      NextCandidate(f, p, g, base, a, k);
      a := f.mul(a, g);
      k := k + 1;
      nonresidue := f.Sub(f.mul(a, a), base);
      legendre := EulerPower(f, p, nonresidue);
    }
  }
}
