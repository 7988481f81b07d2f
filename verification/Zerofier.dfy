/** The periodic table of Z_H(X) = X^n - 1 on a coset (crates/stark/src/zerofier_coset.rs). */
module Zerofier {
  import opened Arithmetic
  import opened Fields
  import opened Powers

  /** The two-adic generators up to the field's two-adicity `top`: `w(k)` generates the group
      of order 2^k, and squaring it gives the one below. */
  ghost predicate TwoAdic<F(!new)>(f: Field<F>, w: nat -> F, top: nat) {
    w(0) == f.one && forall k: nat | k < top :: f.mul(w(k + 1), w(k + 1)) == w(k)
  }

  datatype Table<!F> = Table(logN: nat, rateBits: nat, shift: F, evals: seq<F>, inverses: seq<F>)

  /** `new`; `batch_multiplicative_inverse` inverts entry by entry. */
  function New<F>(f: Field<F>, w: nat -> F, logN: nat, rateBits: nat, shift: F): (t: Table<F>)
    ensures |t.evals| == |t.inverses| == Pow2(rateBits)
  {
    var shiftPowN := Power(f, shift, Pow2(logN));
    var rate := Pow2(rateBits);
    var evals := seq(rate, i requires 0 <= i < rate =>
      f.Sub(f.mul(shiftPowN, Power(f, w(rateBits), i)), f.one));
    Table(logN, rateBits, shift, evals, seq(rate, i requires 0 <= i < rate => f.inv(evals[i])))
  }

  lemma {:induction false} Pow2Positive(n: nat)
    ensures Pow2(n) > 0
  {
    if n > 0 { Pow2Positive(n - 1); }
  }

  /** `eval`: masking with 2^rateBits - 1 is reducing modulo 2^rateBits. */
  function Eval<F>(t: Table<F>, i: nat): F
    requires |t.evals| == Pow2(t.rateBits)
  {
    Pow2Positive(t.rateBits);
    t.evals[i % Pow2(t.rateBits)]
  }

  function EvalInverse<F>(t: Table<F>, i: nat): F
    requires |t.inverses| == Pow2(t.rateBits)
  {
    Pow2Positive(t.rateBits);
    t.inverses[i % Pow2(t.rateBits)]
  }

  /** Z_H at a point, by definition. */
  function ZH<F>(f: Field<F>, logN: nat, x: F): F { f.Sub(Power(f, x, Pow2(logN)), f.one) }

  /** The i-th point of the coset s K. */
  function CosetPoint<F>(f: Field<F>, w: nat -> F, t: Table<F>, i: nat): F {
    f.mul(t.shift, Power(f, w(t.logN + t.rateBits), i))
  }

  // ---------------------------------------------------------------------------------------
  // The table is the definition
  // ---------------------------------------------------------------------------------------

  /** The generator of order 2^(a+b), to the power 2^a, is the one of order 2^b. */
  lemma {:induction false} GeneratorPower<F(!new)>(f: Field<F>, w: nat -> F, top: nat, a: nat, b: nat)
    requires IsField(f) && TwoAdic(f, w, top) && a + b <= top
    ensures Power(f, w(a + b), Pow2(a)) == w(b)
  {
    TimesIsMonoid(f);
    if a == 0 {
      PowOne(Times(f), w(b));
    } else {
      GeneratorPower(f, w, top, a - 1, b);
      PowOne(Times(f), w(a + b));
      PowPow(Times(f), w(a + b), 2, Pow2(a - 1));
      assert w((a - 1 + b) + 1) == w(a + b);
      assert f.mul(w(a + b), w(a + b)) == w(a - 1 + b);
    }
  }

  /** Powers of the rate's generator repeat with period 2^rateBits. */
  lemma PeriodicPower<F(!new)>(f: Field<F>, w: nat -> F, top: nat, r: nat, i: nat)
    requires IsField(f) && TwoAdic(f, w, top) && r <= top
    ensures Pow2(r) > 0 && Power(f, w(r), i) == Power(f, w(r), i % Pow2(r))
  {
    hide IsField, IsMonoid, TwoAdic, Pow, Pow2;
    Pow2Positive(r);
    GeneratorPower(f, w, top, r, 0);
    FirstGenerator(f, w, top);
    assert w(r + 0) == w(r);
    FullTurns(f, w(r), Pow2(r), i / Pow2(r), i % Pow2(r));
  }

  lemma FirstGenerator<F(!new)>(f: Field<F>, w: nat -> F, top: nat)
    requires TwoAdic(f, w, top)
    ensures w(0) == f.one
  {}

  /** Full turns of an element of order dividing n do nothing. */
  lemma FullTurns<F(!new)>(f: Field<F>, x: F, n: nat, q: nat, r: nat)
    requires IsField(f) && Power(f, x, n) == f.one
    ensures Power(f, x, n * q + r) == Power(f, x, r)
  {
    hide IsField, IsMonoid, Pow;
    TimesIsMonoid(f);
    PowPow(Times(f), x, n, q);
    PowUnit(Times(f), q);
    PowAdd(Times(f), x, n * q, r);
    MulOne(f, Power(f, x, r));
  }

  /** (s w^i)^n = s^n v^(i mod rate). */
  lemma PointPower<F(!new)>(f: Field<F>, w: nat -> F, top: nat, logN: nat, rateBits: nat, shift: F,
                            i: nat)
    requires IsField(f) && TwoAdic(f, w, top) && logN + rateBits <= top
    ensures Pow2(rateBits) > 0
    ensures Power(f, f.mul(shift, Power(f, w(logN + rateBits), i)), Pow2(logN))
         == f.mul(Power(f, shift, Pow2(logN)), Power(f, w(rateBits), i % Pow2(rateBits)))
  {
    var m, n, g := Times(f), Pow2(logN), w(logN + rateBits);
    TimesIsMonoid(f);
    PowOfMul(m, shift, Power(f, g, i), n);
    PowPow(m, g, i, n);
    PowPow(m, g, n, i);
    assert i * n == n * i;
    GeneratorPower(f, w, top, logN, rateBits);
    PeriodicPower(f, w, top, rateBits, i);
  }

  /** For every i, `eval(i)` is Z_H at s w^i, and `eval_inverse(i)` its inverse. */
  lemma TableIsZerofier<F(!new)>(f: Field<F>, w: nat -> F, top: nat, logN: nat, rateBits: nat,
                                 shift: F, i: nat)
    requires IsField(f) && TwoAdic(f, w, top) && logN + rateBits <= top
    ensures var t := New(f, w, logN, rateBits, shift); var z := ZH(f, logN, CosetPoint(f, w, t, i));
      && Eval(t, i) == z
      && (z != f.zero ==> f.mul(z, EvalInverse(t, i)) == f.one)
  {
    hide IsField, TwoAdic, Pow;
    var t := New(f, w, logN, rateBits, shift);
    PointPower(f, w, top, logN, rateBits, shift, i);
    var z := ZH(f, logN, CosetPoint(f, w, t, i));
    if z != f.zero { MulInv(f, z); }
  }

  // ---------------------------------------------------------------------------------------
  // The Lagrange basis
  // ---------------------------------------------------------------------------------------

  /** `lagrange_basis_unnormalized`: the table, repeated, over the distances to the target. */
  function LagrangeBasis<F>(f: Field<F>, w: nat -> F, t: Table<F>, i: nat): (r: seq<F>)
    requires |t.evals| == Pow2(t.rateBits)
    ensures |r| == Pow2(t.logN + t.rateBits)
  {
    var target := Power(f, w(t.logN), i);
    seq(Pow2(t.logN + t.rateBits), j requires 0 <= j < Pow2(t.logN + t.rateBits) =>
      f.mul(Eval(t, j), f.inv(f.Sub(CosetPoint(f, w, t, j), target))))
  }

  /** Entry j times (s w^j - g_H^i) is Z_H at s w^j, off the target point. */
  lemma LagrangeEntry<F(!new)>(f: Field<F>, w: nat -> F, top: nat, logN: nat, rateBits: nat,
                               shift: F, i: nat, j: nat)
    requires IsField(f) && TwoAdic(f, w, top) && logN + rateBits <= top && j < Pow2(logN + rateBits)
    ensures var t := New(f, w, logN, rateBits, shift);
      var x, target := CosetPoint(f, w, t, j), Power(f, w(logN), i);
      && (x != target ==>
            f.mul(LagrangeBasis(f, w, t, i)[j], f.Sub(x, target)) == ZH(f, logN, x))
      && (ZH(f, logN, x) != f.zero ==> x != target)
  {
    hide IsField, TwoAdic, Pow;
    var t := New(f, w, logN, rateBits, shift);
    var x, target := CosetPoint(f, w, t, j), Power(f, w(logN), i);
    TableIsZerofier(f, w, top, logN, rateBits, shift, j);
    TargetIsRoot(f, w, top, logN, i);
    SubZero(f, x, target);
    if x != target {
      var d := f.Sub(x, target);
      MulAssoc(f, Eval(t, j), f.inv(d), d);
      MulInv(f, d);
      MulOne(f, Eval(t, j));
    }
  }

  /** The targets are the roots of Z_H, so off H no denominator is zero. */
  lemma TargetIsRoot<F(!new)>(f: Field<F>, w: nat -> F, top: nat, logN: nat, i: nat)
    requires IsField(f) && TwoAdic(f, w, top) && logN <= top
    ensures ZH(f, logN, Power(f, w(logN), i)) == f.zero
  {
    var m, n := Times(f), Pow2(logN);
    TimesIsMonoid(f);
    PowPow(m, w(logN), i, n);
    PowPow(m, w(logN), n, i);
    assert i * n == n * i;
    GeneratorPower(f, w, top, logN, 0);
    assert w(logN + 0) == w(logN);
    PowUnit(m, i);
    AddNeg(f, f.one);
  }
}
