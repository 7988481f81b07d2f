/** The two Frobenius maps of the septic extension (septic_extension.rs, `frobenius` and
    `double_frobenius`): the sums over the tables are the powers p and p^2, at every element. */
module SepticFrobenius {
  import opened Fields
  import opened Powers
  import opened Cipolla
  import opened SepticExtension

  function AddSeptic<F>(f: Field<F>, x: Septic<F>, y: Septic<F>): Septic<F> {
    Septic(f.add(x.c0, y.c0), f.add(x.c1, y.c1), f.add(x.c2, y.c2), f.add(x.c3, y.c3),
           f.add(x.c4, y.c4), f.add(x.c5, y.c5), f.add(x.c6, y.c6))
  }

  function NegSeptic<F>(f: Field<F>, x: Septic<F>): Septic<F> {
    Septic(f.neg(x.c0), f.neg(x.c1), f.neg(x.c2), f.neg(x.c3), f.neg(x.c4), f.neg(x.c5),
           f.neg(x.c6))
  }

  /** `+= s` for a base element. */
  function AddBase<F>(f: Field<F>, x: Septic<F>, s: F): Septic<F> { x.(c0 := f.add(x.c0, s)) }

  /** The sum both maps compute from their table. */
  function TableSum<F>(f: Field<F>, table: nat -> Septic<F>, x: Septic<F>): Septic<F> {
    var r0 := AddBase(f, Base(f, f.zero), x.c0);
    var r1 := AddSeptic(f, r0, Scale(f, table(1), x.c1));
    var r2 := AddSeptic(f, r1, Scale(f, table(2), x.c2));
    var r3 := AddSeptic(f, r2, Scale(f, table(3), x.c3));
    var r4 := AddSeptic(f, r3, Scale(f, table(4), x.c4));
    var r5 := AddSeptic(f, r4, Scale(f, table(5), x.c5));
    AddSeptic(f, r5, Scale(f, table(6), x.c6))
  }

  /** The base field, some inverse function of the extension, the tables of z^(i p) and
      z^(i p^2), and the generator of the base field. */
  datatype Setting<!F> = Setting(f: Field<F>, inverse: Septic<F> -> Septic<F>, zPowP: nat -> Septic<F>,
                                 zPowP2: nat -> Septic<F>, generator: F)
  {
    /** The extension, with the multiplication of the code. */
    function K(): Field<Septic<F>> {
      Field(Base(f, f.zero), Base(f, f.one), (x, y) => AddSeptic(f, x, y), x => NegSeptic(f, x),
            (x, y) => Mul(f, x, y), inverse)
    }

    function Raise(x: Septic<F>, n: nat): Septic<F> { Pow(Times(K()), x, n) }

    function Frobenius(x: Septic<F>): Septic<F> { TableSum(f, zPowP, x) }

    function DoubleFrobenius(x: Septic<F>): Septic<F> { TableSum(f, zPowP2, x) }
  }

  /** p + p^2 + ... + p^6, grouped as the code multiplies. */
  function NormLessOne(p: nat): nat { (p + p * p) * (1 + p * p + p * p * (p * p)) }

  /** The table holds the powers z^(i q). */
  ghost predicate IsTable<F>(s: Setting<F>, table: nat -> Septic<F>, q: nat) {
    forall i: nat | 1 <= i <= 6 :: EntryAt(s, table, q, i)
  }

  ghost predicate EntryAt<F>(s: Setting<F>, table: nat -> Septic<F>, q: nat, i: nat) {
    table(i) == s.Raise(Z(s.f), i * q)
  }

  /** In characteristic p the p-th power is additive. */
  ghost predicate PowerAddsAt<F>(s: Setting<F>, p: nat, x: Septic<F>, y: Septic<F>) {
    s.Raise(AddSeptic(s.f, x, y), p) == AddSeptic(s.f, s.Raise(x, p), s.Raise(y, p))
  }

  ghost predicate NormInBaseAt<F>(s: Setting<F>, p: nat, x: Septic<F>) {
    var norm := s.Raise(x, NormLessOne(p) + 1); norm == Base(s.f, norm.c0)
  }

  ghost predicate PowerOfAt<F>(f: Field<F>, g: F, x: F) {
    x != f.zero ==> exists k: nat :: x == Power(f, g, k)
  }

  /** A generator of the multiplicative group: every nonzero element is a power of it, and no
      power below p - 1 is one. */
  ghost predicate Generates<F(!new)>(f: Field<F>, p: nat, g: F) {
    && (forall x :: PowerOfAt(f, g, x))
    && (forall n: nat | 0 < n < p - 1 :: Power(f, g, n) != f.one)
  }

  /** What is taken for granted: the two fields, the numbers in the two tables, that the p-th
      power is additive, that norms lie in the base field, and that the generator is one. */
  ghost predicate Granted<F(!new)>(s: Setting<F>, p: nat) {
    && PrimeField(s.f, p)
    && IsField(s.K())
    && IsTable(s, s.zPowP, p) && IsTable(s, s.zPowP2, p * p)
    && (forall x, y :: PowerAddsAt(s, p, x, y))
    && (forall x :: NormInBaseAt(s, p, x))
    && Generates(s.f, p, s.generator)
  }

  lemma GrantedField<F(!new)>(s: Setting<F>, p: nat)
    requires Granted(s, p)
    ensures IsField(s.K()) && IsField(s.f) && PrimeField(s.f, p) && p > 2
  {}

  lemma RaiseAdd<F(!new)>(s: Setting<F>, x: Septic<F>, a: nat, b: nat)
    requires IsField(s.K())
    ensures Mul(s.f, s.Raise(x, a), s.Raise(x, b)) == s.Raise(x, a + b)
  {
    TimesIsMonoid(s.K());
    PowAdd(Times(s.K()), x, a, b);
  }

  lemma RaiseRaise<F(!new)>(s: Setting<F>, x: Septic<F>, a: nat, b: nat)
    requires IsField(s.K())
    ensures s.Raise(s.Raise(x, a), b) == s.Raise(x, a * b)
  {
    TimesIsMonoid(s.K());
    PowPow(Times(s.K()), x, a, b);
  }

  lemma RaiseOne<F(!new)>(s: Setting<F>, x: Septic<F>)
    requires IsField(s.K())
    ensures s.Raise(x, 1) == x
  {
    TimesIsMonoid(s.K());
    PowOne(Times(s.K()), x);
  }

  // ---------------------------------------------------------------------------------------
  // Powers of z and of base elements
  // ---------------------------------------------------------------------------------------

  /** s z^i, coefficient by coefficient. */
  function Monomial<F>(f: Field<F>, i: nat, s: F): Septic<F>
    requires i < 7
  {
    FromCoeffs(seq(7, k => if k == i then s else f.zero))
  }

  lemma {:induction false} PowersOfZ<F(!new)>(s: Setting<F>, i: nat)
    requires IsField(s.K()) && IsField(s.f) && i < 7
    ensures s.Raise(Z(s.f), i) == Monomial(s.f, i, s.f.one)
  {
    hide IsField, Mul;
    if i > 0 {
      PowersOfZ(s, i - 1);
      MulByZ(s.f, Monomial(s.f, i - 1, s.f.one));
    }
  }

  lemma MonomialIs<F(!new)>(s: Setting<F>, i: nat, c: F)
    requires IsField(s.K()) && IsField(s.f) && i < 7
    ensures Monomial(s.f, i, c) == Mul(s.f, s.Raise(Z(s.f), i), Base(s.f, c))
  {
    hide IsField, Mul, Pow;
    PowersOfZ(s, i);
    ScaleIsMul(s.f, s.Raise(Z(s.f), i), c);
    MulZero(s.f, c);
    MulOne(s.f, c);
  }

  lemma {:induction false} BaseRaises<F(!new)>(s: Setting<F>, c: F, n: nat)
    requires IsField(s.K()) && IsField(s.f)
    ensures s.Raise(Base(s.f, c), n) == Base(s.f, Power(s.f, c, n))
  {
    hide IsField, Mul;
    if n > 0 {
      BaseRaises(s, c, n - 1);
      BaseMul(s.f, Power(s.f, c, n - 1), c);
    }
  }

  /** What the power q has to do for a table of z^(i q) to compute it. */
  ghost predicate Fixes<F>(s: Setting<F>, q: nat, c: F) { Power(s.f, c, q) == c }

  ghost predicate Adds<F>(s: Setting<F>, q: nat, x: Septic<F>, y: Septic<F>) {
    s.Raise(AddSeptic(s.f, x, y), q) == AddSeptic(s.f, s.Raise(x, q), s.Raise(y, q))
  }

  ghost predicate IsFrobenius<F(!new)>(s: Setting<F>, q: nat) {
    (forall c :: Fixes(s, q, c)) && forall x, y :: Adds(s, q, x, y)
  }

  /** (c z^i)^q = c z^(i q). */
  lemma MonomialRaises<F(!new)>(s: Setting<F>, q: nat, i: nat, c: F)
    requires IsField(s.K()) && IsField(s.f) && i < 7 && IsFrobenius(s, q)
    ensures s.Raise(Monomial(s.f, i, c), q) == Scale(s.f, s.Raise(Z(s.f), i * q), c)
  {
    assert Fixes(s, q, c);
    hide IsField, Mul, Pow, IsFrobenius, Scale, IsMonoid;
    MonomialIs(s, i, c);
    TimesIsMonoid(s.K());
    PowOfMul(Times(s.K()), s.Raise(Z(s.f), i), Base(s.f, c), q);
    RaiseRaise(s, Z(s.f), i, q);
    BaseRaises(s, c, q);
    ScaleIsMul(s.f, s.Raise(Z(s.f), i * q), c);
  }

  // ---------------------------------------------------------------------------------------
  // The sum over the table
  // ---------------------------------------------------------------------------------------

  /** The first n coefficients. */
  function Head<F>(f: Field<F>, x: Septic<F>, n: nat): Septic<F> {
    FromCoeffs(seq(7, k requires 0 <= k < 7 => if k < n then Coeffs(x)[k] else f.zero))
  }

  lemma HeadNext<F(!new)>(f: Field<F>, x: Septic<F>, n: nat)
    requires IsField(f) && n < 7
    ensures Head(f, x, n + 1) == AddSeptic(f, Head(f, x, n), Monomial(f, n, Coeffs(x)[n]))
  {
    hide IsField;
    AddZero(f, f.zero);
    forall k | 0 <= k < 7 ensures f.add(Coeffs(x)[k], f.zero) == Coeffs(x)[k] == f.add(f.zero, Coeffs(x)[k]) {
      AddZero(f, Coeffs(x)[k]);
    }
    var a, b, c := Head(f, x, n), Monomial(f, n, Coeffs(x)[n]), Head(f, x, n + 1);
    forall k | 0 <= k < 7 ensures Coeffs(c)[k] == f.add(Coeffs(a)[k], Coeffs(b)[k]) {}
    AddCoeffs(f, a, b);
    assert Coeffs(c) == Coeffs(AddSeptic(f, a, b));
  }

  lemma HeadOne<F>(f: Field<F>, x: Septic<F>)
    ensures Head(f, x, 1) == Base(f, x.c0)
  {
    var h := Head(f, x, 1);
    assert h.c0 == Coeffs(x)[0] && h.c1 == f.zero && h.c2 == f.zero && h.c3 == f.zero;
    assert h.c4 == f.zero && h.c5 == f.zero && h.c6 == f.zero;
  }

  lemma AddCoeffs<F>(f: Field<F>, a: Septic<F>, b: Septic<F>)
    ensures forall k | 0 <= k < 7 :: Coeffs(AddSeptic(f, a, b))[k] == f.add(Coeffs(a)[k], Coeffs(b)[k])
  {}

  /** The running sum after n terms. */
  function Partial<F>(f: Field<F>, table: nat -> Septic<F>, x: Septic<F>, n: nat): Septic<F>
    requires 1 <= n <= 7
  {
    if n == 1 then AddBase(f, Base(f, f.zero), x.c0)
    else AddSeptic(f, Partial(f, table, x, n - 1), Scale(f, table(n - 1), Coeffs(x)[n - 1]))
  }

  lemma PartialAll<F>(f: Field<F>, table: nat -> Septic<F>, x: Septic<F>)
    ensures TableSum(f, table, x) == Partial(f, table, x, 7)
  {
    hide AddSeptic, Scale, AddBase;
    assert Partial(f, table, x, 2) == AddSeptic(f, Partial(f, table, x, 1), Scale(f, table(1), x.c1));
    assert Partial(f, table, x, 3) == AddSeptic(f, Partial(f, table, x, 2), Scale(f, table(2), x.c2));
    assert Partial(f, table, x, 4) == AddSeptic(f, Partial(f, table, x, 3), Scale(f, table(3), x.c3));
    assert Partial(f, table, x, 5) == AddSeptic(f, Partial(f, table, x, 4), Scale(f, table(4), x.c4));
    assert Partial(f, table, x, 6) == AddSeptic(f, Partial(f, table, x, 5), Scale(f, table(5), x.c5));
    assert Partial(f, table, x, 7) == AddSeptic(f, Partial(f, table, x, 6), Scale(f, table(6), x.c6));
  }

  lemma {:induction false} PartialRaises<F(!new)>(s: Setting<F>, table: nat -> Septic<F>, q: nat,
                                                  x: Septic<F>, n: nat)
    requires IsField(s.K()) && IsField(s.f) && IsFrobenius(s, q) && 1 <= n <= 7
    requires IsTable(s, table, q)
    ensures Partial(s.f, table, x, n) == s.Raise(Head(s.f, x, n), q)
  {
    hide IsField, Mul, Pow, Scale, AddSeptic;
    if n == 1 {
      assert Fixes(s, q, x.c0);
      hide IsFrobenius;
      HeadOne(s.f, x);
      BaseRaises(s, x.c0, q);
      AddZero(s.f, x.c0);
    } else {
      PartialRaises(s, table, q, x, n - 1);
      var a, b := Head(s.f, x, n - 1), Monomial(s.f, n - 1, Coeffs(x)[n - 1]);
      assert Adds(s, q, a, b) && EntryAt(s, table, q, n - 1);
      HeadNext(s.f, x, n - 1);
      MonomialRaises(s, q, n - 1, Coeffs(x)[n - 1]);
    }
  }

  lemma TableRaises<F(!new)>(s: Setting<F>, table: nat -> Septic<F>, q: nat, x: Septic<F>)
    requires IsField(s.K()) && IsField(s.f) && IsFrobenius(s, q)
    requires IsTable(s, table, q)
    ensures TableSum(s.f, table, x) == s.Raise(x, q)
  {
    hide IsField, IsFrobenius, TableSum, Partial, Pow, IsTable;
    PartialAll(s.f, table, x);
    PartialRaises(s, table, q, x, 7);
    assert Coeffs(Head(s.f, x, 7)) == Coeffs(x);
  }

  // ---------------------------------------------------------------------------------------
  // The two maps
  // ---------------------------------------------------------------------------------------

  lemma PowerIsFrobenius<F(!new)>(s: Setting<F>, p: nat)
    requires Granted(s, p)
    ensures IsFrobenius(s, p)
  {
    hide IsField, Pow;
    forall c ensures Fixes(s, p, c) { assert FermatAt(s.f, p, c); }
    forall x, y ensures Adds(s, p, x, y) { assert PowerAddsAt(s, p, x, y); }
  }

  lemma DoubleIsFrobenius<F(!new)>(s: Setting<F>, p: nat)
    requires IsField(s.K()) && IsField(s.f) && IsFrobenius(s, p)
    ensures IsFrobenius(s, p * p)
  {
    hide IsField, Pow, AddSeptic, IsMonoid;
    forall c ensures Fixes(s, p * p, c) {
      assert Fixes(s, p, c);
      TimesIsMonoid(s.f);
      PowPow(Times(s.f), c, p, p);
    }
    forall x, y ensures Adds(s, p * p, x, y) {
      assert Adds(s, p, x, y) && Adds(s, p, s.Raise(x, p), s.Raise(y, p));
      RaiseRaise(s, x, p, p);
      RaiseRaise(s, y, p, p);
      RaiseRaise(s, AddSeptic(s.f, x, y), p, p);
    }
  }

  lemma Tables<F(!new)>(s: Setting<F>, p: nat)
    requires Granted(s, p)
    ensures IsTable(s, s.zPowP, p) && IsTable(s, s.zPowP2, p * p)
  {
    hide IsField, PrimeField, IsTable;
  }

  /** `frobenius` raises to p and `double_frobenius` to p^2, at every element. */
  lemma FrobeniusIs<F(!new)>(s: Setting<F>, p: nat, x: Septic<F>)
    requires Granted(s, p)
    ensures s.Frobenius(x) == s.Raise(x, p) && s.DoubleFrobenius(x) == s.Raise(x, p * p)
  {
    hide Granted, IsField, PrimeField, Pow, IsFrobenius, TableSum, IsTable;
    GrantedField(s, p);
    PowerIsFrobenius(s, p);
    DoubleIsFrobenius(s, p);
    Tables(s, p);
    TableRaises(s, s.zPowP, p, x);
    TableRaises(s, s.zPowP2, p * p, x);
  }
}
