/** Polynomials over a field as coefficient lists, lowest first: how many roots one can have,
    and what a sum of fractions that vanishes often says. */
module Polynomials {
  import opened Collections
  import opened Fields
  import opened Powers

  function Value<F>(f: Field<F>, p: seq<F>, x: F): F {
    if p == [] then f.zero else f.add(p[0], f.mul(x, Value(f, p[1..], x)))
  }

  // ---------------------------------------------------------------------------------------
  // Roots
  // ---------------------------------------------------------------------------------------

  /** The quotient of p(X) - p(r) by X - r. */
  function Quotient<F>(f: Field<F>, p: seq<F>, r: F): (q: seq<F>)
    ensures |q| == if p == [] then 0 else |p| - 1
  {
    if |p| <= 1 then [] else [Value(f, p[1..], r)] + Quotient(f, p[1..], r)
  }

  /** x v - r u = (x - r)(u + x t) when v - u = (x - r) t. */
  lemma QuotientStep<F(!new)>(f: Field<F>, x: F, r: F, v: F, u: F, t: F)
    requires IsField(f) && f.Sub(v, u) == f.mul(f.Sub(x, r), t)
    ensures f.Sub(f.mul(x, v), f.mul(r, u)) == f.mul(f.Sub(x, r), f.add(u, f.mul(x, t)))
  {
    hide IsField;
    var d := f.Sub(x, r);
    MulSub(f, x, v, u);
    MulSub(f, u, x, r);
    Telescope(f, f.mul(x, v), f.mul(x, u), f.mul(r, u));
    MulAssoc(f, x, d, t);
    MulComm(f, x, d);
    MulAssoc(f, d, x, t);
    Distrib(f, d, u, f.mul(x, t));
    AddComm(f, f.mul(d, f.mul(x, t)), f.mul(d, u));
  }

  lemma {:induction false} QuotientIs<F(!new)>(f: Field<F>, p: seq<F>, r: F, x: F)
    requires IsField(f)
    ensures f.Sub(Value(f, p, x), Value(f, p, r)) == f.mul(f.Sub(x, r), Value(f, Quotient(f, p, r), x))
  {
    hide IsField;
    var d := f.Sub(x, r);
    if |p| == 0 {
      AddNeg(f, f.zero);
      MulZero(f, d);
    } else {
      var a, u, v := p[0], Value(f, p[1..], r), Value(f, p[1..], x);
      AddComm(f, a, f.mul(x, v));
      AddComm(f, a, f.mul(r, u));
      SubCommon(f, f.mul(x, v), f.mul(r, u), a);
      if |p| == 1 {
        MulZero(f, x);
        MulZero(f, r);
        AddNeg(f, f.zero);
        MulZero(f, d);
      } else {
        var q := Quotient(f, p[1..], r);
        QuotientIs(f, p[1..], r, x);
        QuotientStep(f, x, r, v, u, Value(f, q, x));
        assert Quotient(f, p, r)[1..] == q;
      }
    }
  }

  lemma {:induction false} ZeroValue<F(!new)>(f: Field<F>, p: seq<F>, x: F)
    requires IsField(f) && AllZero(f, p)
    ensures Value(f, p, x) == f.zero
  {
    if p != [] {
      ZeroValue(f, p[1..], x);
      MulZero(f, x);
      AddZero(f, f.zero);
    }
  }

  lemma {:induction false} ZeroQuotient<F(!new)>(f: Field<F>, p: seq<F>, r: F)
    requires IsField(f) && p != [] && AllZero(f, Quotient(f, p, r))
    ensures AllZero(f, p[1..])
  {
    if |p| > 1 {
      var q, s := Quotient(f, p, r), p[1..];
      assert q == [Value(f, s, r)] + Quotient(f, s, r);
      assert forall i | 0 <= i < |q| - 1 :: Quotient(f, s, r)[i] == q[i + 1];
      ZeroQuotient(f, s, r);
      ZeroValue(f, s[1..], r);
      MulZero(f, r);
      AddZero(f, s[0]);
      assert q[0] == s[0];
      forall i | 0 <= i < |s| ensures s[i] == f.zero { if i > 0 { assert s[1..][i - 1] == f.zero; } }
    }
  }

  /** A polynomial with at least as many roots as coefficients has no nonzero coefficient. */
  lemma {:induction false} ManyRootsZero<F(!new)>(f: Field<F>, p: seq<F>, roots: seq<F>)
    requires IsField(f) && |p| <= |roots| && Distinct(roots)
    requires forall i | 0 <= i < |roots| :: Value(f, p, roots[i]) == f.zero
    ensures AllZero(f, p)
    decreases |roots|
  {
    if p != [] {
      hide IsField, Value, Quotient;
      var k := |roots| - 1;
      var r, rest := roots[k], roots[..k];
      forall i | 0 <= i < |rest| ensures Value(f, Quotient(f, p, r), rest[i]) == f.zero {
        RootOfQuotient(f, p, r, rest[i]);
      }
      ManyRootsZero(f, Quotient(f, p, r), rest);
      ZeroQuotient(f, p, r);
      ConstantValue(f, p, r);
      forall i | 0 <= i < |p| ensures p[i] == f.zero { if i > 0 { assert p[1..][i - 1] == f.zero; } }
    }
  }

  lemma ConstantValue<F(!new)>(f: Field<F>, p: seq<F>, x: F)
    requires IsField(f) && p != [] && AllZero(f, p[1..])
    ensures Value(f, p, x) == p[0]
  {
    ZeroValue(f, p[1..], x);
    MulZero(f, x);
    AddZero(f, p[0]);
  }

  lemma RootOfQuotient<F(!new)>(f: Field<F>, p: seq<F>, r: F, s: F)
    requires IsField(f) && r != s && Value(f, p, r) == f.zero && Value(f, p, s) == f.zero
    ensures Value(f, Quotient(f, p, r), s) == f.zero
  {
    hide IsField, Value, Quotient;
    QuotientIs(f, p, r, s);
    AddNeg(f, f.zero);
    SubZero(f, s, r);
    NoZeroDivisor(f, f.Sub(s, r), Value(f, Quotient(f, p, r), s));
  }

  // ---------------------------------------------------------------------------------------
  // Building polynomials
  // ---------------------------------------------------------------------------------------

  /** (X + c) p. */
  function Linear<F>(f: Field<F>, p: seq<F>, c: F): (q: seq<F>)
    ensures |q| == |p| + 1
  {
    if p == [] then [f.zero]
    else
      var q := Linear(f, p[1..], c);
      [f.mul(c, p[0]), f.add(p[0], q[0])] + q[1..]
  }

  lemma {:induction false} LinearValue<F(!new)>(f: Field<F>, p: seq<F>, c: F, x: F)
    requires IsField(f)
    ensures Value(f, Linear(f, p, c), x) == f.mul(f.add(x, c), Value(f, p, x))
  {
    hide IsField;
    var s := f.add(x, c);
    if p == [] {
      var z := [f.zero];
      assert z[1..] == [];
      MulZero(f, x);
      MulZero(f, s);
      AddZero(f, f.zero);
    } else {
      var a, q, v := p[0], Linear(f, p[1..], c), Value(f, p[1..], x);
      LinearValue(f, p[1..], c, x);
      LinearHead(f, p, c, x);
      // c a + x (a + s v) = (c a + x a) + x (s v) = s a + s (x v).
      Distrib(f, x, a, f.mul(s, v));
      AddAssoc(f, f.mul(c, a), f.mul(x, a), f.mul(x, f.mul(s, v)));
      Distrib(f, a, x, c);
      AddComm(f, f.mul(c, a), f.mul(x, a));
      MulAssoc(f, x, s, v);
      MulComm(f, x, s);
      MulAssoc(f, s, x, v);
      Distrib(f, s, a, f.mul(x, v));
    }
  }

  lemma LinearHead<F(!new)>(f: Field<F>, p: seq<F>, c: F, x: F)
    requires IsField(f) && p != []
    ensures Value(f, Linear(f, p, c), x)
         == f.add(f.mul(c, p[0]), f.mul(x, f.add(p[0], Value(f, Linear(f, p[1..], c), x))))
  {
    hide IsField;
    var q := Linear(f, p[1..], c);
    var tail := [f.add(p[0], q[0])] + q[1..];
    assert Linear(f, p, c)[1..] == tail;
    assert tail[1..] == q[1..];
    AddAssoc(f, p[0], q[0], f.mul(x, Value(f, q[1..], x)));
  }

  /** p + n q. */
  function Combine<F>(f: Field<F>, p: seq<F>, n: F, q: seq<F>): (r: seq<F>)
    requires |p| == |q|
    ensures |r| == |p|
  {
    if p == [] then [] else [f.add(p[0], f.mul(n, q[0]))] + Combine(f, p[1..], n, q[1..])
  }

  lemma {:induction false} CombineValue<F(!new)>(f: Field<F>, p: seq<F>, n: F, q: seq<F>, x: F)
    requires IsField(f) && |p| == |q|
    ensures Value(f, Combine(f, p, n, q), x) == f.add(Value(f, p, x), f.mul(n, Value(f, q, x)))
  {
    hide IsField;
    if p == [] {
      MulZero(f, n);
      AddZero(f, f.zero);
    } else {
      CombineValue(f, p[1..], n, q[1..], x);
      var v, w := Value(f, p[1..], x), Value(f, q[1..], x);
      assert Combine(f, p, n, q)[1..] == Combine(f, p[1..], n, q[1..]);
      Distrib(f, x, v, f.mul(n, w));
      MulAssoc(f, x, n, w);
      MulComm(f, x, n);
      MulAssoc(f, n, x, w);
      Distrib(f, n, q[0], f.mul(x, w));
      AddSwap(f, p[0], f.mul(n, q[0]), f.mul(x, v), f.mul(n, f.mul(x, w)));
    }
  }

  /** p - q, the shorter one continued with zeros. */
  function Minus<F>(f: Field<F>, p: seq<F>, q: seq<F>): (r: seq<F>)
    ensures |r| == if |p| < |q| then |q| else |p|
    decreases |p| + |q|
  {
    if p == [] && q == [] then []
    else if p == [] then [f.neg(q[0])] + Minus(f, [], q[1..])
    else if q == [] then [p[0]] + Minus(f, p[1..], [])
    else [f.Sub(p[0], q[0])] + Minus(f, p[1..], q[1..])
  }

  lemma {:induction false} MinusValue<F(!new)>(f: Field<F>, p: seq<F>, q: seq<F>, x: F)
    requires IsField(f)
    ensures Value(f, Minus(f, p, q), x) == f.Sub(Value(f, p, x), Value(f, q, x))
    decreases |p| + |q|
  {
    hide IsField;
    if p == [] && q == [] {
      AddNeg(f, f.zero);
    } else {
      var s, t := if p == [] then [] else p[1..], if q == [] then [] else q[1..];
      var a, b := if p == [] then f.zero else p[0], if q == [] then f.zero else q[0];
      var v, w := Value(f, s, x), Value(f, t, x);
      MinusValue(f, s, t, x);
      MulZero(f, x);
      AddZero(f, f.zero);
      AddZero(f, f.neg(b));
      NegZero(f);
      AddZero(f, a);
      assert Minus(f, p, q)[1..] == Minus(f, s, t);
      assert Minus(f, p, q)[0] == f.Sub(a, b);
      assert Value(f, p, x) == f.add(a, f.mul(x, v)) && Value(f, q, x) == f.add(b, f.mul(x, w));
      MulSub(f, x, v, w);
      SubPairs(f, a, f.mul(x, v), b, f.mul(x, w));
    }
  }

  lemma NegZero<F(!new)>(f: Field<F>)
    requires IsField(f)
    ensures f.neg(f.zero) == f.zero
  {
    AddNeg(f, f.zero);
    AddZero(f, f.neg(f.zero));
  }

  /** Adding d to coefficient k adds d x^k to the value. */
  lemma {:induction false} ValueBump<F(!new)>(f: Field<F>, p: seq<F>, k: nat, d: F, x: F)
    requires IsField(f) && k < |p|
    ensures Value(f, p[k := f.add(p[k], d)], x) == f.add(Value(f, p, x), f.mul(d, Power(f, x, k)))
  {
    hide IsField;
    var q := p[k := f.add(p[k], d)];
    var v := Value(f, p[1..], x);
    if k == 0 {
      assert q[1..] == p[1..];
      MulOne(f, d);
      AddAssoc(f, p[0], d, f.mul(x, v));
      AddComm(f, d, f.mul(x, v));
      AddAssoc(f, p[0], f.mul(x, v), d);
    } else {
      assert q[1..] == p[1..][k - 1 := f.add(p[1..][k - 1], d)];
      ValueBump(f, p[1..], k - 1, d, x);
      var u := Power(f, x, k - 1);
      Distrib(f, x, v, f.mul(d, u));
      MulComm(f, x, f.mul(d, u));
      MulAssoc(f, d, u, x);
      AddAssoc(f, p[0], f.mul(x, v), f.mul(d, f.mul(u, x)));
    }
  }

  // ---------------------------------------------------------------------------------------
  // Sums of fractions
  // ---------------------------------------------------------------------------------------

  /** n_0 / (x + c_0) + n_1 / (x + c_1) + ... */
  function Fractional<F>(f: Field<F>, ns: seq<F>, cs: seq<F>, x: F): F
    requires |ns| == |cs|
  {
    if ns == [] then f.zero
    else
      var k := |ns| - 1;
      f.add(Fractional(f, ns[..k], cs[..k], x), f.Div(ns[k], f.add(x, cs[k])))
  }

  /** (X + c_0)(X + c_1)... */
  function Denominator<F>(f: Field<F>, cs: seq<F>): (p: seq<F>)
    ensures |p| == |cs| + 1
  {
    if cs == [] then [f.one] else Linear(f, Denominator(f, cs[..|cs| - 1]), cs[|cs| - 1])
  }

  /** The fractions over their common denominator. */
  function Numerator<F>(f: Field<F>, ns: seq<F>, cs: seq<F>): (p: seq<F>)
    requires |ns| == |cs|
    ensures |p| == |cs|
  {
    if ns == [] then []
    else
      var k := |ns| - 1;
      Combine(f, Linear(f, Numerator(f, ns[..k], cs[..k]), cs[k]), ns[k], Denominator(f, cs[..k]))
  }

  ghost predicate Defined<F>(f: Field<F>, cs: seq<F>, x: F) {
    forall i | 0 <= i < |cs| :: f.add(x, cs[i]) != f.zero
  }

  lemma {:induction false} DenominatorNonzero<F(!new)>(f: Field<F>, cs: seq<F>, x: F)
    requires IsField(f) && Defined(f, cs, x)
    ensures Value(f, Denominator(f, cs), x) != f.zero
  {
    hide IsField;
    if cs == [] {
      var one := [f.one];
      assert one[1..] == [];
      MulZero(f, x);
      AddZero(f, f.one);
      OneIsNotZero(f);
    } else {
      hide Value;
      var k := |cs| - 1;
      DenominatorNonzero(f, cs[..k], x);
      LinearValue(f, Denominator(f, cs[..k]), cs[k], x);
      NoZeroDivisor(f, f.add(x, cs[k]), Value(f, Denominator(f, cs[..k]), x));
    }
  }

  lemma OneIsNotZero<F(!new)>(f: Field<F>)
    requires IsField(f)
    ensures f.one != f.zero
  {}

  /** s (d v) + n d = (s d)(v + n / s). */
  lemma CommonDenominator<F(!new)>(f: Field<F>, s: F, d: F, v: F, n: F)
    requires IsField(f) && s != f.zero
    ensures f.add(f.mul(s, f.mul(d, v)), f.mul(n, d)) == f.mul(f.mul(s, d), f.add(v, f.Div(n, s)))
  {
    hide IsField;
    var sd := f.mul(s, d);
    Distrib(f, sd, v, f.Div(n, s));
    MulAssoc(f, s, d, v);
    MulComm(f, s, d);
    MulComm(f, n, f.inv(s));
    MulAssoc(f, d, s, f.mul(f.inv(s), n));
    MulAssoc(f, s, f.inv(s), n);
    MulInv(f, s);
    MulOne(f, n);
    MulComm(f, d, n);
  }

  lemma {:induction false} NumeratorValue<F(!new)>(f: Field<F>, ns: seq<F>, cs: seq<F>, x: F)
    requires IsField(f) && |ns| == |cs| && Defined(f, cs, x)
    ensures Value(f, Numerator(f, ns, cs), x)
         == f.mul(Value(f, Denominator(f, cs), x), Fractional(f, ns, cs, x))
  {
    hide IsField, Value;
    if ns == [] {
      ValueOfNone(f, x);
      MulZero(f, Value(f, Denominator(f, cs), x));
    } else {
      var k := |ns| - 1;
      var num, den, s := Numerator(f, ns[..k], cs[..k]), Denominator(f, cs[..k]), f.add(x, cs[k]);
      NumeratorValue(f, ns[..k], cs[..k], x);
      CombineValue(f, Linear(f, num, cs[k]), ns[k], den, x);
      LinearValue(f, num, cs[k], x);
      LinearValue(f, den, cs[k], x);
      CommonDenominator(f, s, Value(f, den, x), Fractional(f, ns[..k], cs[..k], x), ns[k]);
    }
  }

  lemma ValueOfNone<F>(f: Field<F>, x: F)
    ensures Value(f, [], x) == f.zero
  {}

  /** At minus the last place only the last numerator is left. */
  lemma LastNumerator<F(!new)>(f: Field<F>, ns: seq<F>, cs: seq<F>)
    requires IsField(f) && |ns| == |cs| > 0 && Distinct(cs)
    requires Value(f, Numerator(f, ns, cs), f.neg(cs[|cs| - 1])) == f.zero
    ensures ns[|ns| - 1] == f.zero
  {
    hide IsField, Value;
    var k := |ns| - 1;
    var x := f.neg(cs[k]);
    var num, den := Numerator(f, ns[..k], cs[..k]), Denominator(f, cs[..k]);
    CombineValue(f, Linear(f, num, cs[k]), ns[k], den, x);
    LinearValue(f, num, cs[k], x);
    AddNeg(f, cs[k]);
    MulZero(f, Value(f, num, x));
    AddZero(f, f.mul(ns[k], Value(f, den, x)));
    forall i | 0 <= i < k ensures f.add(x, cs[..k][i]) != f.zero {
      AddComm(f, x, cs[i]);
      SubZero(f, cs[i], cs[k]);
    }
    DenominatorNonzero(f, cs[..k], x);
    NoZeroDivisor(f, ns[k], Value(f, den, x));
  }

  /** A sum of n fractions with different places that vanishes at n different arguments has
      no nonzero numerator. */
  lemma {:induction false} VanishingFractions<F(!new)>(f: Field<F>, ns: seq<F>, cs: seq<F>, xs: seq<F>)
    requires IsField(f) && |ns| == |cs| <= |xs| && Distinct(cs) && Distinct(xs)
    requires forall j | 0 <= j < |xs| :: Defined(f, cs, xs[j]) && Fractional(f, ns, cs, xs[j]) == f.zero
    ensures forall i | 0 <= i < |ns| :: ns[i] == f.zero
  {
    hide IsField, Value, Numerator, Denominator, Distinct;
    if ns != [] {
      var k := |ns| - 1;
      forall j | 0 <= j < |xs| ensures Value(f, Numerator(f, ns, cs), xs[j]) == f.zero {
        NumeratorValue(f, ns, cs, xs[j]);
        MulZero(f, Value(f, Denominator(f, cs), xs[j]));
      }
      ManyRootsZero(f, Numerator(f, ns, cs), xs);
      ZeroValue(f, Numerator(f, ns, cs), f.neg(cs[k]));
      LastNumerator(f, ns, cs);
      DistinctFront(cs);
      forall j | 0 <= j < |xs|
        ensures Defined(f, cs[..k], xs[j]) && Fractional(f, ns[..k], cs[..k], xs[j]) == f.zero
      {
        assert Defined(f, cs, xs[j]);
        MulZero(f, f.inv(f.add(xs[j], cs[k])));
        AddZero(f, Fractional(f, ns[..k], cs[..k], xs[j]));
      }
      VanishingFractions(f, ns[..k], cs[..k], xs);
      forall i | 0 <= i < k ensures ns[i] == f.zero { assert ns[..k][i] == f.zero; }
    }
  }

  lemma DistinctFront<F>(cs: seq<F>)
    requires cs != [] && Distinct(cs)
    ensures Distinct(cs[..|cs| - 1])
  {}
}
