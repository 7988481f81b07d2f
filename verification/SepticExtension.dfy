/** Arithmetic of F[z]/(z^7 + 2z - 8) (crates/stark/src/septic_extension.rs). */
module SepticExtension {
  import opened Fields
  import opened Powers

  datatype Septic<F> = Septic(c0: F, c1: F, c2: F, c3: F, c4: F, c5: F, c6: F)

  function Coeffs<F>(x: Septic<F>): (r: seq<F>)
    ensures |r| == 7
  {
    [x.c0, x.c1, x.c2, x.c3, x.c4, x.c5, x.c6]
  }

  function FromCoeffs<F>(s: seq<F>): (r: Septic<F>)
    requires |s| == 7
    ensures Coeffs(r) == s
  {
    Septic(s[0], s[1], s[2], s[3], s[4], s[5], s[6])
  }

  /** A base field element as an extension element. */
  function Base<F>(f: Field<F>, s: F): Septic<F> {
    Septic(s, f.zero, f.zero, f.zero, f.zero, f.zero, f.zero)
  }

  // ---------------------------------------------------------------------------------------
  // Multiplication
  // ---------------------------------------------------------------------------------------

  /** Coefficient `k` of the product of the first `i` coefficients of `a` with `b`. */
  function Convolved<F>(f: Field<F>, a: seq<F>, b: seq<F>, k: nat, i: nat): F
    requires |a| == 7 && |b| == 7 && i <= 7
  {
    if i == 0 then f.zero
    else if 0 <= k - (i - 1) < 7 then
      f.add(Convolved(f, a, b, k, i - 1), f.mul(a[i - 1], b[k - (i - 1)]))
    else Convolved(f, a, b, k, i - 1)
  }

  /** Coefficient `k` after the powers below `i` have been replaced, with z^7 = 8 - 2z. */
  function Reduced<F>(f: Field<F>, r: seq<F>, k: nat, i: nat): F
    requires |r| == 13 && k < 7 <= i <= 13
  {
    var x := if 1 <= k && k + 6 < i then f.Sub(r[k], f.mul(r[k + 6], FromNat(f, 2))) else r[k];
    if k + 7 < i then f.add(x, f.mul(r[k + 7], FromNat(f, 8))) else x
  }

  function Product13<F>(f: Field<F>, a: seq<F>, b: seq<F>): (r: seq<F>)
    requires |a| == 7 && |b| == 7
    ensures |r| == 13
  {
    seq(13, k requires 0 <= k < 13 => Convolved(f, a, b, k, 7))
  }

  function Reduce<F>(f: Field<F>, r: seq<F>): (s: seq<F>)
    requires |r| == 13
    ensures |s| == 7
  {
    seq(7, k requires 0 <= k < 7 => Reduced(f, r, k, 13))
  }

  function Mul<F>(f: Field<F>, x: Septic<F>, y: Septic<F>): Septic<F> {
    FromCoeffs(Reduce(f, Product13(f, Coeffs(x), Coeffs(y))))
  }

  /** `Mul::mul`, first part: two nested loops over a 13-element buffer. */
  method Convolve<F(!new)>(f: Field<F>, a: seq<F>, b: seq<F>) returns (r: seq<F>)
    requires |a| == 7 && |b| == 7
    ensures r == Product13(f, a, b)
  {
    hide Buffer, Product13;
    var res := new F[13](_ => f.zero);
    BufferStart(f, a, b, res[..]);
    for i := 0 to 7
      invariant res[..] == Buffer(f, a, b, i, 0)
    {
      for j := 0 to 7
        invariant res[..] == Buffer(f, a, b, i, j)
      {
        BufferStep(f, a, b, i, j);
        res[i + j] := f.add(res[..][i + j], f.mul(a[i], b[j]));
      }
      BufferRow(f, a, b, i);
    }
    BufferEnd(f, a, b);
    r := res[..];
  }

  /** `Mul::mul`: the product, then the reduction loop. */
  method Multiply<F(!new)>(f: Field<F>, x: Septic<F>, y: Septic<F>) returns (z: Septic<F>)
    ensures z == Mul(f, x, y)
  {
    hide Product13, Head, Coeffs;
    var r := Convolve(f, Coeffs(x), Coeffs(y));
    var ret := new F[7](i requires 0 <= i < 7 => r[i]);
    HeadStart(f, r, ret[..]);
    for i := 7 to 13
      invariant ret[..] == Head(f, r, i)
    {
      HeadStep(f, r, i);
      ret[i - 7] := f.add(ret[..][i - 7], f.mul(r[i], FromNat(f, 8)));
      ret[i - 6] := f.Sub(ret[..][i - 6], f.mul(r[i], FromNat(f, 2)));
    }
    HeadEnd(f, r);
    z := FromCoeffs(ret[..]);
  }

  /** The seven coefficients once the powers below `i` have been replaced. */
  function Head<F>(f: Field<F>, r: seq<F>, i: nat): (s: seq<F>)
    requires |r| == 13 && 7 <= i <= 13
    ensures |s| == 7
  {
    seq(7, k requires 0 <= k < 7 => Reduced(f, r, k, i))
  }

  lemma HeadStart<F>(f: Field<F>, r: seq<F>, s: seq<F>)
    requires |r| == 13 && |s| == 7 && forall k | 0 <= k < 7 :: s[k] == r[k]
    ensures s == Head(f, r, 7)
  {}

  lemma HeadStep<F>(f: Field<F>, r: seq<F>, i: nat)
    requires |r| == 13 && 7 <= i < 13
    ensures var s := Head(f, r, i);
      Head(f, r, i + 1)
      == s[i - 7 := f.add(s[i - 7], f.mul(r[i], FromNat(f, 8)))]
          [i - 6 := f.Sub(s[i - 6], f.mul(r[i], FromNat(f, 2)))]
  {
    hide FromNat;
  }

  lemma HeadEnd<F>(f: Field<F>, r: seq<F>)
    requires |r| == 13
    ensures Head(f, r, 13) == Reduce(f, r)
  {}

  // ---------------------------------------------------------------------------------------
  // Multiplication is multiplication modulo z^7 + 2z - 8
  // ---------------------------------------------------------------------------------------

  /** s[0] + s[1] z + s[2] z^2 + ... */
  function Evaluate<F>(f: Field<F>, s: seq<F>, z: F): F {
    if s == [] then f.zero
    else
      var k := |s| - 1;
      f.add(Evaluate(f, s[..k], z), f.mul(s[k], Power(f, z, k)))
  }

  ghost predicate IsRoot<F>(f: Field<F>, z: F) {
    Power(f, z, 7) == f.Sub(FromNat(f, 8), f.mul(FromNat(f, 2), z))
  }

  /** Adding `d` to one coefficient adds d z^k to the value. */
  lemma {:induction false} EvaluateBump<F(!new)>(f: Field<F>, s: seq<F>, z: F, k: nat, d: F)
    requires IsField(f) && k < |s|
    ensures Evaluate(f, s[k := f.add(s[k], d)], z)
         == f.add(Evaluate(f, s, z), f.mul(d, Power(f, z, k)))
  {
    hide IsField, Pow;
    var n := |s| - 1;
    var t := s[k := f.add(s[k], d)];
    var e, u := Evaluate(f, s[..n], z), f.mul(d, Power(f, z, k));
    if k == n {
      assert t[..n] == s[..n];
      Distrib(f, Power(f, z, k), s[k], d);
      AddAssoc(f, e, f.mul(s[k], Power(f, z, k)), u);
    } else {
      EvaluateBump(f, s[..n], z, k, d);
      assert t[..n] == s[..n][k := f.add(s[..n][k], d)];
      var l := f.mul(s[n], Power(f, z, n));
      AddAssoc(f, e, u, l);
      AddComm(f, u, l);
      AddAssoc(f, e, l, u);
    }
  }

  lemma PowerSum<F(!new)>(f: Field<F>, z: F, i: nat, j: nat)
    requires IsField(f)
    ensures f.mul(Power(f, z, i), Power(f, z, j)) == Power(f, z, i + j)
  {
    TimesIsMonoid(f);
    PowAdd(Times(f), z, i, j);
  }

  function Cell<F>(f: Field<F>, a: seq<F>, b: seq<F>, i: nat, j: nat, k: nat): F
    requires |a| == 7 && |b| == 7 && i + (if j > 0 then 1 else 0) <= 7 && j <= 7
  {
    Convolved(f, a, b, k, if i <= k < i + j then i + 1 else i)
  }

  /** The buffer after `i` rows and `j` entries of row `i`. */
  function Buffer<F>(f: Field<F>, a: seq<F>, b: seq<F>, i: nat, j: nat): (r: seq<F>)
    requires |a| == 7 && |b| == 7 && i + (if j > 0 then 1 else 0) <= 7 && j <= 7
    ensures |r| == 13
  {
    seq(13, k requires 0 <= k < 13 => Cell(f, a, b, i, j, k))
  }

  /** One step of the inner loop adds a_i b_j z^(i+j). */
  lemma BufferStep<F(!new)>(f: Field<F>, a: seq<F>, b: seq<F>, i: nat, j: nat)
    requires |a| == 7 && |b| == 7 && i < 7 && j < 7
    ensures var r := Buffer(f, a, b, i, j);
      Buffer(f, a, b, i, j + 1) == r[i + j := f.add(r[i + j], f.mul(a[i], b[j]))]
  {
    var r, s := Buffer(f, a, b, i, j), Buffer(f, a, b, i, j + 1);
    var t := r[i + j := f.add(r[i + j], f.mul(a[i], b[j]))];
    forall k: nat | k < 13 ensures s[k] == t[k] {
      assert r[k] == Cell(f, a, b, i, j, k) && s[k] == Cell(f, a, b, i, j + 1, k);
    }
  }

  lemma BufferRow<F(!new)>(f: Field<F>, a: seq<F>, b: seq<F>, i: nat)
    requires |a| == 7 && |b| == 7 && i < 7
    ensures Buffer(f, a, b, i, 7) == Buffer(f, a, b, i + 1, 0)
  {
    var r, s := Buffer(f, a, b, i, 7), Buffer(f, a, b, i + 1, 0);
    forall k: nat | k < 13 ensures r[k] == s[k] {
      assert r[k] == Cell(f, a, b, i, 7, k) && s[k] == Cell(f, a, b, i + 1, 0, k);
    }
  }

  lemma BufferStart<F>(f: Field<F>, a: seq<F>, b: seq<F>, r: seq<F>)
    requires |a| == 7 && |b| == 7 && |r| == 13 && forall k | 0 <= k < 13 :: r[k] == f.zero
    ensures r == Buffer(f, a, b, 0, 0)
  {
    var s := Buffer(f, a, b, 0, 0);
    forall k: nat | k < 13 ensures r[k] == s[k] { assert s[k] == Cell(f, a, b, 0, 0, k); }
  }

  lemma BufferEnd<F>(f: Field<F>, a: seq<F>, b: seq<F>)
    requires |a| == 7 && |b| == 7
    ensures Buffer(f, a, b, 7, 0) == Product13(f, a, b)
  {
    var r, s := Buffer(f, a, b, 7, 0), Product13(f, a, b);
    forall k: nat | k < 13 ensures r[k] == s[k] { assert r[k] == Cell(f, a, b, 7, 0, k); }
  }

  /** a_i z^i * (b_j z^j) = (a_i b_j) z^(i+j). */
  lemma Monomials<F(!new)>(f: Field<F>, a: F, zi: F, b: F, zj: F)
    requires IsField(f)
    ensures f.mul(f.mul(a, zi), f.mul(b, zj)) == f.mul(f.mul(a, b), f.mul(zi, zj))
  {
    TimesIsMonoid(f);
    Swap(Times(f), a, zi, b, zj);
  }

  lemma {:induction false} RowValue<F(!new)>(f: Field<F>, a: seq<F>, b: seq<F>, z: F, i: nat, j: nat)
    requires IsField(f) && |a| == 7 && |b| == 7 && i < 7 && j <= 7
    ensures Evaluate(f, Buffer(f, a, b, i, j), z)
         == f.add(Evaluate(f, Buffer(f, a, b, i, 0), z),
                  f.mul(f.mul(a[i], Power(f, z, i)), Evaluate(f, b[..j], z)))
  {
    hide IsField, Buffer, Pow, Convolved;
    var t := f.mul(a[i], Power(f, z, i));
    var start := Evaluate(f, Buffer(f, a, b, i, 0), z);
    if j == 0 {
      MulZero(f, t);
      AddZero(f, start);
    } else {
      RowValue(f, a, b, z, i, j - 1);
      BufferStep(f, a, b, i, j - 1);
      EvaluateBump(f, Buffer(f, a, b, i, j - 1), z, i + j - 1, f.mul(a[i], b[j - 1]));
      Monomials(f, a[i], Power(f, z, i), b[j - 1], Power(f, z, j - 1));
      PowerSum(f, z, i, j - 1);
      assert b[..j][..j - 1] == b[..j - 1];
      var v, w := Evaluate(f, b[..j - 1], z), f.mul(b[j - 1], Power(f, z, j - 1));
      Distrib(f, t, v, w);
      AddAssoc(f, start, f.mul(t, v), f.mul(t, w));
    }
  }

  lemma {:induction false} ZeroValue<F(!new)>(f: Field<F>, s: seq<F>, z: F)
    requires IsField(f) && forall i | 0 <= i < |s| :: s[i] == f.zero
    ensures Evaluate(f, s, z) == f.zero
  {
    if s != [] {
      ZeroValue(f, s[..|s| - 1], z);
      MulZero(f, Power(f, z, |s| - 1));
      AddZero(f, f.zero);
    }
  }

  /** The first loop computes the product of the polynomials. */
  lemma {:induction false} RowsValue<F(!new)>(f: Field<F>, a: seq<F>, b: seq<F>, z: F, i: nat)
    requires IsField(f) && |a| == 7 && |b| == 7 && i <= 7
    ensures Evaluate(f, Buffer(f, a, b, i, 0), z)
         == f.mul(Evaluate(f, a[..i], z), Evaluate(f, b, z))
  {
    hide IsField, Pow;
    var eb := Evaluate(f, b, z);
    if i == 0 {
      var r := seq(13, _ => f.zero);
      BufferStart(f, a, b, r);
      ZeroValue(f, r, z);
      MulZero(f, eb);
    } else {
      RowsValue(f, a, b, z, i - 1);
      BufferRow(f, a, b, i - 1);
      RowValue(f, a, b, z, i - 1, 7);
      assert b[..7] == b;
      assert a[..i][..i - 1] == a[..i - 1];
      Distrib(f, eb, Evaluate(f, a[..i - 1], z), f.mul(a[i - 1], Power(f, z, i - 1)));
    }
  }

  /** The coefficients once the powers 7 .. i have been folded back, the others still there. */
  function Folded<F>(f: Field<F>, r: seq<F>, i: nat): (s: seq<F>)
    requires |r| == 13 && 7 <= i <= 13
    ensures |s| == 13
  {
    seq(13, k requires 0 <= k < 13 =>
      if k < 7 then Reduced(f, r, k, i) else if k < i then f.zero else r[k])
  }

  /** x z^i = (8x) z^(i-7) - (2x) z^(i-6) at a root. */
  lemma FoldPower<F(!new)>(f: Field<F>, x: F, z: F, i: nat)
    requires IsField(f) && IsRoot(f, z) && i >= 7
    ensures f.mul(x, Power(f, z, i))
         == f.add(f.mul(f.mul(x, FromNat(f, 8)), Power(f, z, i - 7)),
                  f.mul(f.neg(f.mul(x, FromNat(f, 2))), Power(f, z, i - 6)))
  {
    hide IsField, Pow, FromNat;
    var q, e, t := Power(f, z, i - 7), FromNat(f, 8), FromNat(f, 2);
    PowerSum(f, z, 7, i - 7);
    MulAssoc(f, x, Power(f, z, 7), q);
    Distrib(f, x, e, f.neg(f.mul(t, z)));
    NegMul(f, f.mul(t, z), x);
    MulAssoc(f, x, t, z);
    NegMul(f, f.mul(x, t), z);
    Distrib(f, q, f.mul(x, e), f.mul(f.neg(f.mul(x, t)), z));
    MulAssoc(f, f.neg(f.mul(x, t)), z, q);
    PowerOne(f, z);
    PowerSum(f, z, 1, i - 7);
  }

  lemma PowerOne<F(!new)>(f: Field<F>, z: F)
    requires IsField(f)
    ensures Power(f, z, 1) == z
  {
    TimesIsMonoid(f);
    PowOne(Times(f), z);
  }

  /** The three places one step of the second loop touches. */
  lemma FoldedStep<F(!new)>(f: Field<F>, r: seq<F>, i: nat)
    requires |r| == 13 && 7 <= i < 13
    ensures var s := Folded(f, r, i);
      && s[i] == r[i]
      && Folded(f, r, i + 1)
         == s[i - 7 := f.add(s[i - 7], f.mul(r[i], FromNat(f, 8)))]
             [i - 6 := f.add(s[i - 6], f.neg(f.mul(r[i], FromNat(f, 2))))]
             [i := f.zero]
  {
    hide FromNat;
  }

  lemma FoldKeepsValue<F(!new)>(f: Field<F>, r: seq<F>, z: F, i: nat)
    requires IsField(f) && IsRoot(f, z) && |r| == 13 && 7 <= i < 13
    ensures Evaluate(f, Folded(f, r, i + 1), z) == Evaluate(f, Folded(f, r, i), z)
  {
    hide IsField, IsRoot, Pow, FromNat, Reduced, Folded, Evaluate;
    var s, x := Folded(f, r, i), r[i];
    var d8, d2 := f.mul(x, FromNat(f, 8)), f.neg(f.mul(x, FromNat(f, 2)));
    FoldedStep(f, r, i);
    var s1 := s[i - 7 := f.add(s[i - 7], d8)];
    var s2 := s1[i - 6 := f.add(s1[i - 6], d2)];
    EvaluateBump(f, s, z, i - 7, d8);
    EvaluateBump(f, s1, z, i - 6, d2);
    EvaluateBump(f, s2, z, i, f.neg(x));
    AddNeg(f, x);
    FoldPower(f, x, z, i);
    NegMul(f, x, Power(f, z, i));
    var v, a, b := Evaluate(f, s, z), f.mul(d8, Power(f, z, i - 7)), f.mul(d2, Power(f, z, i - 6));
    AddAssoc(f, v, a, b);
    AddAssoc(f, v, f.add(a, b), f.neg(f.add(a, b)));
    AddNeg(f, f.add(a, b));
    AddZero(f, v);
  }

  lemma {:induction false} FoldAllKeepsValue<F(!new)>(f: Field<F>, r: seq<F>, z: F, i: nat)
    requires IsField(f) && IsRoot(f, z) && |r| == 13 && 7 <= i <= 13
    ensures Evaluate(f, Folded(f, r, i), z) == Evaluate(f, r, z)
  {
    if i == 7 {
      assert Folded(f, r, 7) == r;
    } else {
      FoldAllKeepsValue(f, r, z, i - 1);
      FoldKeepsValue(f, r, z, i - 1);
    }
  }

  lemma {:induction false} TrailingZeros<F(!new)>(f: Field<F>, s: seq<F>, n: nat, z: F)
    requires IsField(f) && n <= |s| && forall i | n <= i < |s| :: s[i] == f.zero
    ensures Evaluate(f, s, z) == Evaluate(f, s[..n], z)
  {
    hide IsField, Pow;
    if |s| == n {
      assert s[..n] == s;
    } else {
      var k := |s| - 1;
      TrailingZeros(f, s[..k], n, z);
      assert s[..k][..n] == s[..n];
      MulZero(f, Power(f, z, k));
      AddZero(f, Evaluate(f, s[..n], z));
    }
  }

  /** At every root of z^7 + 2z - 8, in every field, the product evaluates to the product of
      the values: `mul` multiplies modulo that polynomial. */
  lemma MulIsModular<F(!new)>(f: Field<F>, x: Septic<F>, y: Septic<F>, z: F)
    requires IsField(f) && IsRoot(f, z)
    ensures Evaluate(f, Coeffs(Mul(f, x, y)), z)
         == f.mul(Evaluate(f, Coeffs(x), z), Evaluate(f, Coeffs(y), z))
  {
    hide IsField, IsRoot, Pow, FromNat, Evaluate, Convolved, Reduced, Power;
    var a, b := Coeffs(x), Coeffs(y);
    var r := Product13(f, a, b);
    BufferEnd(f, a, b);
    RowsValue(f, a, b, z, 7);
    assert a[..7] == a;
    FoldAllKeepsValue(f, r, z, 13);
    TrailingZeros(f, Folded(f, r, 13), 7, z);
    assert Folded(f, r, 13)[..7] == Reduce(f, r);
  }

  /** A homomorphism of the coefficients into a larger field, where the polynomial has roots. */
  ghost predicate HomAt<F, H>(f: Field<F>, h: Field<H>, e: F -> H, x: F, y: F) {
    && e(f.add(x, y)) == h.add(e(x), e(y)) && e(f.mul(x, y)) == h.mul(e(x), e(y))
    && e(f.neg(x)) == h.neg(e(x))
  }

  ghost predicate IsHom<F(!new), H(!new)>(f: Field<F>, h: Field<H>, e: F -> H) {
    e(f.zero) == h.zero && e(f.one) == h.one && forall x, y :: HomAt(f, h, e, x, y)
  }

  function Mapped<F, H>(e: F -> H, x: Septic<F>): Septic<H> {
    Septic(e(x.c0), e(x.c1), e(x.c2), e(x.c3), e(x.c4), e(x.c5), e(x.c6))
  }

  lemma {:induction false} HomFromNat<F(!new), H(!new)>(f: Field<F>, h: Field<H>, e: F -> H, n: nat)
    requires IsHom(f, h, e)
    ensures e(FromNat(f, n)) == FromNat(h, n)
  {
    if n > 0 {
      HomFromNat(f, h, e, n - 1);
      assert HomAt(f, h, e, FromNat(f, n - 1), f.one);
    }
  }

  lemma {:induction false} HomConvolved<F(!new), H(!new)>(f: Field<F>, h: Field<H>, e: F -> H,
                                                          x: Septic<F>, y: Septic<F>, k: nat, i: nat)
    requires IsHom(f, h, e) && i <= 7
    ensures e(Convolved(f, Coeffs(x), Coeffs(y), k, i))
         == Convolved(h, Coeffs(Mapped(e, x)), Coeffs(Mapped(e, y)), k, i)
  {
    if i > 0 {
      HomConvolved(f, h, e, x, y, k, i - 1);
      if 0 <= k - (i - 1) < 7 {
        var a, b := Coeffs(x)[i - 1], Coeffs(y)[k - (i - 1)];
        assert HomAt(f, h, e, a, b);
        assert HomAt(f, h, e, Convolved(f, Coeffs(x), Coeffs(y), k, i - 1), f.mul(a, b));
        assert Coeffs(Mapped(e, x))[i - 1] == e(a) && Coeffs(Mapped(e, y))[k - (i - 1)] == e(b);
      }
    }
  }

  lemma HomReduced<F(!new), H(!new)>(f: Field<F>, h: Field<H>, e: F -> H, r: seq<F>, q: seq<H>,
                                     k: nat)
    requires IsHom(f, h, e) && |r| == |q| == 13 && k < 7
    requires forall j | 0 <= j < 13 :: e(r[j]) == q[j]
    ensures e(Reduced(f, r, k, 13)) == Reduced(h, q, k, 13)
  {
    hide FromNat;
    HomFromNat(f, h, e, 2);
    HomFromNat(f, h, e, 8);
    var x := r[k];
    if 1 <= k {
      var d := f.mul(r[k + 6], FromNat(f, 2));
      assert HomAt(f, h, e, r[k + 6], FromNat(f, 2));
      assert HomAt(f, h, e, d, d);
      assert HomAt(f, h, e, x, f.neg(d));
      x := f.Sub(x, d);
    }
    if k < 6 {
      assert HomAt(f, h, e, r[k + 7], FromNat(f, 8));
      assert HomAt(f, h, e, x, f.mul(r[k + 7], FromNat(f, 8)));
    }
  }

  /** Multiplication commutes with a homomorphism of the coefficients. */
  lemma HomMul<F(!new), H(!new)>(f: Field<F>, h: Field<H>, e: F -> H, x: Septic<F>, y: Septic<F>)
    requires IsHom(f, h, e)
    ensures Mapped(e, Mul(f, x, y)) == Mul(h, Mapped(e, x), Mapped(e, y))
  {
    hide IsHom, Reduced, Convolved;
    var r := Product13(f, Coeffs(x), Coeffs(y));
    var q := Product13(h, Coeffs(Mapped(e, x)), Coeffs(Mapped(e, y)));
    forall k: nat | k < 13 ensures e(r[k]) == q[k] { HomConvolved(f, h, e, x, y, k, 7); }
    forall k: nat | k < 7 ensures e(Reduce(f, r)[k]) == Reduce(h, q)[k] {
      HomReduced(f, h, e, r, q, k);
    }
  }

  /** The same at the roots in any field that the coefficients map into, such as the field
      with p^7 elements for coefficients in the field with p. */
  lemma MulIsModularAbove<F(!new), H(!new)>(f: Field<F>, h: Field<H>, e: F -> H, x: Septic<F>,
                                            y: Septic<F>, z: H)
    requires IsHom(f, h, e) && IsField(h) && IsRoot(h, z)
    ensures Evaluate(h, Coeffs(Mapped(e, Mul(f, x, y))), z)
         == h.mul(Evaluate(h, Coeffs(Mapped(e, x)), z), Evaluate(h, Coeffs(Mapped(e, y)), z))
  {
    hide IsHom, IsField, IsRoot, Evaluate, Coeffs, Mul, Mapped;
    HomMul(f, h, e, x, y);
    MulIsModular(h, Mapped(e, x), Mapped(e, y), z);
  }

  // ---------------------------------------------------------------------------------------
  // Multiplication by a base element
  // ---------------------------------------------------------------------------------------

  /** `Mul<F>`: coefficient-wise. */
  function Scale<F>(f: Field<F>, x: Septic<F>, s: F): Septic<F> {
    Septic(f.mul(x.c0, s), f.mul(x.c1, s), f.mul(x.c2, s), f.mul(x.c3, s), f.mul(x.c4, s),
           f.mul(x.c5, s), f.mul(x.c6, s))
  }

  lemma {:induction false} ConvolvedWithBase<F(!new)>(f: Field<F>, a: seq<F>, s: F, k: nat, i: nat)
    requires IsField(f) && |a| == 7 && i <= 7
    ensures Convolved(f, a, Coeffs(Base(f, s)), k, i) == if k < i then f.mul(a[k], s) else f.zero
  {
    hide IsField;
    if i > 0 {
      ConvolvedWithBase(f, a, s, k, i - 1);
      MulZero(f, a[i - 1]);
      AddZero(f, f.zero);
      AddZero(f, f.mul(a[i - 1], s));
      if k < i - 1 { AddZero(f, f.mul(a[k], s)); }
    }
  }

  lemma ReducedShort<F(!new)>(f: Field<F>, r: seq<F>, k: nat)
    requires IsField(f) && |r| == 13 && k < 7 && forall j | 7 <= j < 13 :: r[j] == f.zero
    ensures Reduced(f, r, k, 13) == r[k]
  {
    hide IsField, FromNat;
    MulZero(f, FromNat(f, 2));
    MulZero(f, FromNat(f, 8));
    AddNeg(f, f.zero);
    AddZero(f, f.neg(f.zero));
    AddZero(f, r[k]);
  }

  /** Scaling is multiplying by the element in the base field. */
  lemma ScaleIsMul<F(!new)>(f: Field<F>, x: Septic<F>, s: F)
    requires IsField(f)
    ensures Mul(f, x, Base(f, s)) == Scale(f, x, s)
  {
    hide IsField, Reduced, Convolved;
    var a := Coeffs(x);
    var r := Product13(f, a, Coeffs(Base(f, s)));
    forall k: nat | k < 13 ensures r[k] == if k < 7 then f.mul(a[k], s) else f.zero {
      ConvolvedWithBase(f, a, s, k, 7);
    }
    forall k: nat | k < 7 ensures Reduce(f, r)[k] == f.mul(a[k], s) { ReducedShort(f, r, k); }
    assert Coeffs(Mul(f, x, Base(f, s))) == Coeffs(Scale(f, x, s));
  }

  lemma BaseMul<F(!new)>(f: Field<F>, s: F, t: F)
    requires IsField(f)
    ensures Mul(f, Base(f, s), Base(f, t)) == Base(f, f.mul(s, t))
  {
    ScaleIsMul(f, Base(f, s), t);
    MulZero(f, t);
  }

  // ---------------------------------------------------------------------------------------
  // Multiplication by z
  // ---------------------------------------------------------------------------------------

  function Z<F>(f: Field<F>): Septic<F> { Base(f, f.zero).(c1 := f.one) }

  lemma {:induction false} ConvolvedWithZ<F(!new)>(f: Field<F>, a: seq<F>, k: nat, i: nat)
    requires IsField(f) && |a| == 7 && i <= 7
    ensures Convolved(f, a, Coeffs(Z(f)), k, i) == if 1 <= k <= i then a[k - 1] else f.zero
  {
    hide IsField;
    if i > 0 {
      ConvolvedWithZ(f, a, k, i - 1);
      MulZero(f, a[i - 1]);
      MulOne(f, a[i - 1]);
      AddZero(f, f.zero);
      AddZero(f, a[i - 1]);
      if 1 <= k < i { AddZero(f, a[k - 1]); }
    }
  }

  /** Below degree 6, multiplying by z shifts. */
  lemma MulByZ<F(!new)>(f: Field<F>, x: Septic<F>)
    requires IsField(f) && x.c6 == f.zero
    ensures Mul(f, x, Z(f)) == Septic(f.zero, x.c0, x.c1, x.c2, x.c3, x.c4, x.c5)
  {
    hide IsField, Reduced, Convolved;
    var a := Coeffs(x);
    var r := Product13(f, a, Coeffs(Z(f)));
    forall k: nat | k < 13 ensures r[k] == if 1 <= k < 7 then a[k - 1] else f.zero {
      ConvolvedWithZ(f, a, k, 7);
    }
    forall k: nat | k < 7 ensures Reduce(f, r)[k] == r[k] { ReducedShort(f, r, k); }
    assert Coeffs(Mul(f, x, Z(f))) == r[..7];
  }
}
