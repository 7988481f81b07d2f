/** Inverse and square root in the septic extension (septic_extension.rs, `inv`, `is_square`
    and `sqrt`). */
module SepticRoot {
  import opened Arithmetic
  import opened Options
  import opened Fields
  import opened Powers
  import opened Cipolla
  import opened SepticExtension
  import opened SepticFrobenius

  // ---------------------------------------------------------------------------------------
  // The norm
  // ---------------------------------------------------------------------------------------

  /** `pow_r_1`. */
  function PowRLessOne<F>(s: Setting<F>, x: Septic<F>): Septic<F> {
    var base := Mul(s.f, s.Frobenius(x), s.DoubleFrobenius(x));
    var baseP2 := s.DoubleFrobenius(base);
    var baseP4 := s.DoubleFrobenius(baseP2);
    Mul(s.f, Mul(s.f, base, baseP2), baseP4)
  }

  /** `inv`. */
  function Inv<F>(s: Setting<F>, x: Septic<F>): Septic<F> {
    var r := PowRLessOne(s, x);
    Scale(s.f, r, s.f.inv(Mul(s.f, r, x).c0))
  }

  lemma DoubleFrobeniusRaises<F(!new)>(s: Setting<F>, p: nat, x: Septic<F>, a: nat)
    requires Granted(s, p)
    ensures s.DoubleFrobenius(s.Raise(x, a)) == s.Raise(x, a * (p * p))
  {
    hide IsField, PrimeField, Granted, Pow;
    GrantedField(s, p);
    FrobeniusIs(s, p, s.Raise(x, a));
    RaiseRaise(s, x, a, p * p);
  }

  lemma NormInBase<F(!new)>(s: Setting<F>, p: nat, x: Septic<F>)
    requires Granted(s, p)
    ensures var norm := s.Raise(x, NormLessOne(p) + 1); norm == Base(s.f, norm.c0)
  {
    hide IsField, PrimeField;
    assert NormInBaseAt(s, p, x);
  }

  lemma NormExponent(p: nat)
    ensures TripleExponent(p + p * p, p * p) == NormLessOne(p)
  {
    var e, q := p + p * p, p * p;
    assert e * (1 + q + q * q) == e + e * q + e * (q * q);
    assert e * (q * q) == e * q * q;
  }

  /** Three steps of the double Frobenius, multiplied up. */
  function Triple<F>(s: Setting<F>, y: Septic<F>): Septic<F> {
    var y2 := s.DoubleFrobenius(y);
    var y4 := s.DoubleFrobenius(y2);
    Mul(s.f, Mul(s.f, y, y2), y4)
  }

  function TripleExponent(e: nat, q: nat): nat { e + e * q + e * q * q }

  lemma TripleRaises<F(!new)>(s: Setting<F>, p: nat, x: Septic<F>, e: nat, q: nat)
    requires Granted(s, p) && q == p * p
    ensures Triple(s, s.Raise(x, e)) == s.Raise(x, TripleExponent(e, q))
  {
    hide IsField, PrimeField, Granted, TableSum, Pow, Mul;
    GrantedField(s, p);
    DoubleFrobeniusRaises(s, p, x, e);
    DoubleFrobeniusRaises(s, p, x, e * q);
    RaiseAdd(s, x, e, e * q);
    RaiseAdd(s, x, e + e * q, e * q * q);
  }

  /** `pow_r_1` raises to p + ... + p^6, so times x it is the norm. */
  lemma PowRLessOneRaises<F(!new)>(s: Setting<F>, p: nat, x: Septic<F>)
    requires Granted(s, p)
    ensures PowRLessOne(s, x) == s.Raise(x, NormLessOne(p))
    ensures Mul(s.f, PowRLessOne(s, x), x) == s.Raise(x, NormLessOne(p) + 1)
  {
    hide IsField, PrimeField, Granted, TableSum, NormLessOne, Pow, Mul, TripleExponent;
    GrantedField(s, p);
    FrobeniusIs(s, p, x);
    var e, q := p + p * p, p * p;
    RaiseAdd(s, x, p, q);
    TripleRaises(s, p, x, e, q);
    assert PowRLessOne(s, x) == Triple(s, s.Raise(x, e));
    NormExponent(p);
    RaiseOne(s, x);
    RaiseAdd(s, x, NormLessOne(p), 1);
  }

  /** The norm as a base element. */
  function Norm<F>(s: Setting<F>, x: Septic<F>): F { Mul(s.f, PowRLessOne(s, x), x).c0 }

  lemma NormIsBase<F(!new)>(s: Setting<F>, p: nat, x: Septic<F>)
    requires Granted(s, p)
    ensures s.Raise(x, NormLessOne(p) + 1) == Base(s.f, Norm(s, x))
    ensures x != s.K().zero ==> Norm(s, x) != s.f.zero
  {
    hide IsField, PrimeField, Granted, TableSum, NormLessOne, Pow, Mul, PowRLessOne;
    GrantedField(s, p);
    NormInBase(s, p, x);
    PowRLessOneRaises(s, p, x);
    if x != s.K().zero { PowNonzero(s.K(), x, NormLessOne(p) + 1); }
  }

  /** `inv` is the inverse. */
  lemma InvIsInverse<F(!new)>(s: Setting<F>, p: nat, x: Septic<F>)
    requires Granted(s, p) && x != s.K().zero
    ensures Mul(s.f, x, Inv(s, x)) == s.K().one
    ensures Inv(s, x) == s.K().inv(x)
  {
    hide IsField, PrimeField, Granted, TableSum, NormLessOne, Pow, PowRLessOne, Mul, Scale;
    GrantedField(s, p);
    var k, r, n := s.K(), PowRLessOne(s, x), Norm(s, x);
    PowRLessOneRaises(s, p, x);
    NormIsBase(s, p, x);
    ScaleIsMul(s.f, r, s.f.inv(n));
    MulComm(k, r, x);
    MulAssoc(k, x, r, Base(s.f, s.f.inv(n)));
    BaseMul(s.f, n, s.f.inv(n));
    MulInv(s.f, n);
    MulInv(k, x);
    MulCancel(k, x, Inv(s, x), k.inv(x));
  }

  // ---------------------------------------------------------------------------------------
  // The exponent chain of the square root
  // ---------------------------------------------------------------------------------------

  /** The exponent that `n_power` has reached once `i` rounds are done. */
  function Reached(i: nat): nat {
    if i == 0 then 1 else Reached(i - 1) + if i >= 23 then Pow2(i) else 0
  }

  lemma {:induction false} ReachedEarly(i: nat)
    requires i <= 22
    ensures Reached(i) == 1
  {
    if i > 0 { ReachedEarly(i - 1); }
  }

  lemma {:induction false} ReachedIs(i: nat)
    requires i >= 22
    ensures Pow2(i + 1) >= Pow2(23)
    ensures Reached(i) == 1 + Pow2(i + 1) - Pow2(23)
  {
    if i == 22 {
      ReachedEarly(22);
    } else {
      ReachedIs(i - 1);
    }
  }

  lemma Pow2Seven()
    ensures Pow2(7) == 128
  {
    assert Pow2(1) == 2 && Pow2(2) == 4 && Pow2(3) == 8 && Pow2(4) == 16;
  }

  lemma ChainReachesHalf()
    ensures Reached(29) == (P + 1) / 2
  {
    hide Pow2, Reached;
    ReachedIs(29);
    Pow2Seven();
    Pow2Sum(7, 7);
    Pow2Sum(14, 7);
    Pow2Two();
    Pow2Sum(21, 2);
    Pow2Sum(23, 7);
  }

  lemma Pow2Two()
    ensures Pow2(2) == 4
  {
    assert Pow2(1) == 2;
  }

  lemma ReachedNext(i: nat)
    requires i > 0
    ensures Pow2(i) == Pow2(i - 1) + Pow2(i - 1)
    ensures Reached(i) == Reached(i - 1) + if i >= 23 then Pow2(i) else 0
  {}

  /** The 29 squarings: n^((p+1)/2), because p = 2^31 - 2^24 + 1. */
  method HalfPower<F(!new)>(s: Setting<F>, n: Septic<F>) returns (power: Septic<F>)
    requires IsField(s.K())
    ensures power == s.Raise(n, (P + 1) / 2)
  {
    hide IsField, Pow, Mul, Pow2, Reached;
    RaiseOne(s, n);
    ChainStart();
    ChainReachesHalf();
    var iter := n;
    power := n;
    for i := 1 to 30
      invariant iter == s.Raise(n, Pow2(i - 1)) && power == s.Raise(n, Reached(i - 1))
    {
      ReachedNext(i);
      RaiseAdd(s, n, Pow2(i - 1), Pow2(i - 1));
      iter := Mul(s.f, iter, iter);
      if i >= 23 {
        RaiseAdd(s, n, Reached(i - 1), Pow2(i));
        power := Mul(s.f, power, iter);
      }
    }
  }

  lemma ChainStart()
    ensures Pow2(0) == 1 && Reached(0) == 1
  {}

  // ---------------------------------------------------------------------------------------
  // The square root
  // ---------------------------------------------------------------------------------------

  /** `denominator`, from n^((p+1)/2). */
  function Denominator<F>(s: Setting<F>, n: Septic<F>, power: Septic<F>): Septic<F> {
    var f1 := s.Frobenius(power);
    var f3 := s.DoubleFrobenius(f1);
    var f5 := s.DoubleFrobenius(f3);
    Mul(s.f, Mul(s.f, Mul(s.f, f1, f3), f5), n)
  }

  function DenominatorExponent(p: nat): nat {
    TripleExponent((p + 1) / 2 * p, p * p) + 1
  }

  lemma DoubledExponent(p: nat)
    requires p % 2 == 1
    ensures DenominatorExponent(p) + DenominatorExponent(p) == NormLessOne(p) + 1 + 1
  {
    var d, q := (p + 1) / 2 * p, p * p;
    assert 2 * ((p + 1) / 2) == p + 1;
    assert d + d == p + q by { assert 2 * d == (2 * ((p + 1) / 2)) * p; }
    assert (d + d) * q == d * q + d * q;
    assert (d + d) * q * q == d * q * q + d * q * q;
    NormExponent(p);
  }

  lemma DenominatorRaises<F(!new)>(s: Setting<F>, p: nat, n: Septic<F>)
    requires Granted(s, p)
    ensures Denominator(s, n, s.Raise(n, (p + 1) / 2)) == s.Raise(n, DenominatorExponent(p))
  {
    hide IsField, PrimeField, Granted, TableSum, Pow, Mul, TripleExponent;
    GrantedField(s, p);
    var h, q := (p + 1) / 2, p * p;
    FrobeniusIs(s, p, s.Raise(n, h));
    RaiseRaise(s, n, h, p);
    TripleRaises(s, p, n, h * p, q);
    assert Denominator(s, n, s.Raise(n, h)) == Mul(s.f, Triple(s, s.Raise(n, h * p)), n);
    RaiseOne(s, n);
    RaiseAdd(s, n, TripleExponent(h * p, q), 1);
  }

  /** denominator^2 = n times the norm of n. */
  lemma DenominatorSquared<F(!new)>(s: Setting<F>, p: nat, n: Septic<F>)
    requires Granted(s, p)
    ensures var d := Denominator(s, n, s.Raise(n, (p + 1) / 2));
      Mul(s.f, d, d) == Mul(s.f, Base(s.f, Norm(s, n)), n)
  {
    hide IsField, PrimeField, Granted, TableSum, Pow, Mul, NormLessOne, Norm, Denominator, DenominatorExponent;
    GrantedField(s, p);
    OddOrder(s, p);
    var e := DenominatorExponent(p);
    DenominatorRaises(s, p, n);
    DoubledExponent(p);
    RaiseAdd(s, n, e, e);
    RaiseOne(s, n);
    RaiseAdd(s, n, NormLessOne(p) + 1, 1);
    NormIsBase(s, p, n);
  }

  lemma OddOrder<F(!new)>(s: Setting<F>, p: nat)
    requires Granted(s, p)
    ensures p % 2 == 1
  {}

  /** A denominator and a root of 1/norm make a root of n. */
  lemma RootFromParts<F(!new)>(s: Setting<F>, p: nat, n: Septic<F>, r: F)
    requires Granted(s, p) && n != s.K().zero && s.f.mul(r, r) == s.f.inv(Norm(s, n))
    ensures var d := Denominator(s, n, s.Raise(n, (p + 1) / 2));
      Mul(s.f, Scale(s.f, d, r), Scale(s.f, d, r)) == n
  {
    hide IsField, PrimeField, Granted, TableSum, Pow, Mul, NormLessOne, Norm, Denominator, Scale;
    GrantedField(s, p);
    var d, k, v := Denominator(s, n, s.Raise(n, (p + 1) / 2)), s.K(), Norm(s, n);
    DenominatorSquared(s, p, n);
    NormIsBase(s, p, n);
    ScaleIsMul(s.f, d, r);
    TimesIsMonoid(k);
    Swap(Times(k), d, Base(s.f, r), d, Base(s.f, r));
    BaseMul(s.f, r, r);
    MulInv(s.f, v);
    BaseMul(s.f, v, s.f.inv(v));
    MulComm(k, Base(s.f, v), n);
    MulAssoc(k, n, Base(s.f, v), Base(s.f, s.f.inv(v)));
    MulOne(k, n);
  }

  /** The norm of a square is a square, so its Euler power is 1. */
  lemma SquareHasSquareNorm<F(!new)>(s: Setting<F>, p: nat, x: Septic<F>)
    requires Granted(s, p) && x != s.K().zero
    ensures Euler(s.f, p, Norm(s, Mul(s.f, x, x))) == s.f.one
  {
    hide IsField, Granted, PrimeField, TableSum, Pow, Mul, NormLessOne, Norm;
    GrantedField(s, p);
    var k, t := s.K(), Norm(s, x);
    var e := NormLessOne(p) + 1;
    NormIsBase(s, p, x);
    NormIsBase(s, p, Mul(s.f, x, x));
    TimesIsMonoid(k);
    PowOfMul(Times(k), x, x, e);
    BaseMul(s.f, t, t);
    EulerOfSquare(s.f, p, t);
  }

  // ---------------------------------------------------------------------------------------
  // The search for a non-residue ends
  // ---------------------------------------------------------------------------------------

  lemma GeneratorIsNotEulerOne<F(!new)>(f: Field<F>, p: nat, g: F)
    requires p > 2 && p % 2 == 1 && Generates(f, p, g)
    ensures Euler(f, p, g) != f.one
  {
    assert 0 < (p - 1) / 2 < p - 1;
    assert Power(f, g, (p - 1) / 2) != f.one;
  }

  lemma MinusOneSquared<F(!new)>(f: Field<F>)
    requires IsField(f)
    ensures f.mul(f.neg(f.one), f.neg(f.one)) == f.one
  {
    var n := f.neg(f.one);
    NegMul(f, f.one, n);
    MulOne(f, n);
    AddNeg(f, f.one);
    AddNeg(f, n);
    AddCancel(f, n, f.neg(n), f.one);
  }

  /** An odd power of something that is not Euler-one is not Euler-one. */
  lemma OddPowersAreNotEulerOne<F(!new)>(f: Field<F>, p: nat, g: F, j: nat)
    requires PrimeField(f, p) && g != f.zero && Euler(f, p, g) != f.one && j % 2 == 1
    ensures Euler(f, p, Power(f, g, j)) != f.one
  {
    PrimeFieldIsField(f, p);
    EulerIsSign(f, p, g);
    hide IsField, IsMonoid, PrimeField, Pow;
    var m, h, k, n := Times(f), (p - 1) / 2, j / 2, f.neg(f.one);
    TimesIsMonoid(f);
    PowPow(m, g, j, h);
    PowPow(m, g, h, j);
    assert j * h == h * j;
    assert j == 2 * k + 1;
    PowAdd(m, n, 2 * k, 1);
    PowOne(m, n);
    PowPow(m, n, 2, k);
    MinusOneSquared(f);
    PowUnit(m, k);
    MulOne(f, n);
  }

  lemma EulerOfZero<F(!new)>(f: Field<F>, p: nat)
    requires IsField(f) && p > 2 && p % 2 == 1
    ensures Euler(f, p, f.zero) != f.one
  {
    var h := (p - 1) / 2;
    assert h > 0;
    assert Pow(Times(f), f.zero, h) == f.mul(Pow(Times(f), f.zero, h - 1), f.zero);
    MulZero(f, Pow(Times(f), f.zero, h - 1));
  }

  /** An Euler-one base is an even power g^(2k) of the generator, so candidate k is zero and
      the search ends there at the latest. */
  lemma SearchEnds<F(!new)>(s: Setting<F>, p: nat, base: F) returns (k: nat)
    requires Granted(s, p) && base != s.f.zero && Euler(s.f, p, base) == s.f.one
    ensures Euler(s.f, p, Candidate(s.f, s.generator, base, k)) != s.f.one
  {
    var f, g := s.f, s.generator;
    GrantedField(s, p);
    OddOrder(s, p);
    var j := GeneratorLog(s, p, base);
    GeneratorNonzero(s, p);
    GrantedGenerates(s, p);
    hide IsField, PrimeField, Granted, TableSum, Pow, IsMonoid, Generates;
    GeneratorIsNotEulerOne(f, p, g);
    if j % 2 == 1 { OddPowersAreNotEulerOne(f, p, g, j); }
    k := j / 2;
    TimesIsMonoid(f);
    PowAdd(Times(f), g, k, k);
    assert j == k + k;
    AddNeg(f, base);
    assert Candidate(f, g, base, k) == f.zero;
    EulerOfZero(f, p);
  }

  lemma GrantedGenerates<F(!new)>(s: Setting<F>, p: nat)
    requires Granted(s, p)
    ensures Generates(s.f, p, s.generator)
  {}

  lemma GeneratorLog<F(!new)>(s: Setting<F>, p: nat, x: F) returns (j: nat)
    requires Granted(s, p) && x != s.f.zero
    ensures x == Power(s.f, s.generator, j)
  {
    hide IsField, PrimeField;
    assert PowerOfAt(s.f, s.generator, x);
    j :| x == Power(s.f, s.generator, j);
  }

  /** Minus one is a power of the generator, and not one of zero. */
  lemma GeneratorNonzero<F(!new)>(s: Setting<F>, p: nat)
    requires Granted(s, p)
    ensures s.generator != s.f.zero
  {
    var f := s.f;
    GrantedField(s, p);
    TwoNonzero(s, p);
    hide IsField, PrimeField, Granted;
    AddNeg(f, f.one);
    MinusOneSquared(f);
    MulZero(f, f.zero);
    OneNotZero(s, p);
    MulZero(f, f.neg(f.one));
    var j := GeneratorLog(s, p, f.neg(f.one));
    if j > 0 { MulZero(f, Power(f, s.generator, j - 1)); }
  }

  lemma TwoNonzero<F(!new)>(s: Setting<F>, p: nat)
    requires Granted(s, p)
    ensures s.f.add(s.f.one, s.f.one) != s.f.zero
  {}

  lemma OneNotZero<F(!new)>(s: Setting<F>, p: nat)
    requires Granted(s, p)
    ensures s.f.one != s.f.zero
  {}

  lemma InverseNonzero<F(!new)>(f: Field<F>, x: F)
    requires IsField(f) && x != f.zero
    ensures f.inv(x) != f.zero
  {
    MulInv(f, x);
    MulZero(f, x);
  }

  /** The second half of `sqrt`: Cipolla's root of 1/numerator. */
  method InverseRoot<F(==, !new)>(s: Setting<F>, numerator: F) returns (r: F)
    requires Granted(s, P) && numerator != s.f.zero && Euler(s.f, P, numerator) == s.f.one
    ensures s.f.mul(r, r) == s.f.inv(numerator)
  {
    hide IsField, Granted, PrimeField, TableSum, Pow, Euler, Candidate;
    GrantedField(s, P);
    var base := s.f.inv(numerator);
    EulerOfInverse(s.f, P, numerator);
    InverseNonzero(s.f, numerator);
    ghost var enough := SearchEnds(s, P, base);
    var a, nonresidue := FindNonresidue(s.f, P, s.generator, base, enough);
    PairsAreMonoid(s.f, nonresidue);
    var x := SquareAndMultiply(Pairs(s.f, nonresidue), Pair(a, s.f.one), (P + 1) / 2);
    CipollaRoot(s.f, P, a, nonresidue, base);
    r := x.re;
  }

  /** `is_square`: the norm, and whether a nonzero n has a square root. */
  method IsSquare<F(==, !new)>(s: Setting<F>, n: Septic<F>) returns (numerator: F, isSquare: bool)
    requires Granted(s, P)
    ensures numerator == Norm(s, n) && isSquare == (Euler(s.f, P, Norm(s, n)) == s.f.one)
    ensures n != s.K().zero ==> (isSquare <==> exists x :: Mul(s.f, x, x) == n)
  {
    hide IsField, Granted, PrimeField, TableSum, Pow, Norm, Mul, Euler;
    GrantedField(s, P);
    numerator := Norm(s, n);
    var euler := EulerPower(s.f, P, numerator);
    isSquare := euler == s.f.one;
    if n != s.K().zero { SquareIffEulerOne(s, n); }
  }

  /** A nonzero element is a square if and only if its norm is Euler-one. */
  lemma SquareIffEulerOne<F(!new)>(s: Setting<F>, n: Septic<F>)
    requires Granted(s, P) && n != s.K().zero
    ensures Euler(s.f, P, Norm(s, n)) == s.f.one <==> exists x :: Mul(s.f, x, x) == n
  {
    GrantedField(s, P);
    hide IsField, Granted, PrimeField, TableSum, Pow, Norm, Mul, Euler, Candidate, Denominator, Scale;
    if Euler(s.f, P, Norm(s, n)) == s.f.one {
      NormIsBase(s, P, n);
      var r := InverseRootExists(s, Norm(s, n));
      RootFromParts(s, P, n, r);
    } else {
      forall x ensures Mul(s.f, x, x) != n { NotASquare(s, n, x); }
    }
  }

  lemma InverseRootExists<F(!new)>(s: Setting<F>, v: F) returns (r: F)
    requires Granted(s, P) && v != s.f.zero && Euler(s.f, P, v) == s.f.one
    ensures s.f.mul(r, r) == s.f.inv(v)
  {
    GrantedField(s, P);
    hide IsField, Granted, PrimeField, TableSum, Pow, Euler;
    EulerOfInverse(s.f, P, v);
    InverseNonzero(s.f, v);
    var k := SearchEnds(s, P, s.f.inv(v));
    var a := Power(s.f, s.generator, k);
    CipollaRoot(s.f, P, a, Candidate(s.f, s.generator, s.f.inv(v), k), s.f.inv(v));
    r := CipollaPower(s.f, P, a, Candidate(s.f, s.generator, s.f.inv(v), k)).re;
  }

  /** `sqrt` returns a square root when there is one, and `None` only when there is none. */
  method Sqrt<F(==, !new)>(s: Setting<F>, n: Septic<F>) returns (r: Option<Septic<F>>)
    requires Granted(s, P)
    ensures r.Some? ==> Mul(s.f, r.value, r.value) == n
    ensures r.None? ==> forall x :: Mul(s.f, x, x) != n
  {
    hide IsField, Granted, PrimeField, TableSum, Pow, Mul, NormLessOne, Norm, Denominator, Scale, Base, Euler;
    GrantedField(s, P);
    var k := s.K();
    if n == k.zero || n == k.one {
      MulZero(k, k.zero);
      MulOne(k, k.one);
      return Some(n);
    }
    var numerator, isSquare := IsSquare(s, n);
    if !isSquare {
      forall x ensures Mul(s.f, x, x) != n { NotASquare(s, n, x); }
      return None;
    }
    var power := HalfPower(s, n);
    NormIsBase(s, P, n);
    var root := InverseRoot(s, numerator);
    RootFromParts(s, P, n, root);
    return Some(Scale(s.f, Denominator(s, n, power), root));
  }

  lemma NotASquare<F(!new)>(s: Setting<F>, n: Septic<F>, x: Septic<F>)
    requires Granted(s, P) && n != s.K().zero && Euler(s.f, P, Norm(s, n)) != s.f.one
    ensures Mul(s.f, x, x) != n
  {
    hide IsField, Granted, PrimeField, TableSum, Pow, Mul, NormLessOne, Norm, Euler;
    GrantedField(s, P);
    MulZero(s.K(), s.K().zero);
    if x != s.K().zero { SquareHasSquareNorm(s, P, x); }
  }
}
