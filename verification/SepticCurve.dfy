/** Lifting an x-coordinate to the septic curve y^2 = x^3 + 3z x - 3, and the sign that tells
    sends from receives (septic_curve.rs, `lift_x`; septic_extension.rs, `is_receive` ...). */
module SepticCurve {
  import opened Arithmetic
  import opened Options
  import opened Fields
  import opened Powers
  import opened SepticExtension
  import opened SepticFrobenius
  import opened SepticRoot
  import EllipticCurve

  type Point<F> = EllipticCurve.Point<Septic<F>>

  /** a = 3z and b = 3. */
  function TheCurve<F>(s: Setting<F>): EllipticCurve.Curve<Septic<F>> {
    var three, o := FromNat(s.f, 3), s.f.zero;
    EllipticCurve.Curve(s.K(), Septic(o, three, o, o, o, o, o), Base(s.f, three))
  }

  /** On y^2 = x^3 + 3z x - 3, with z the generator of the extension. */
  ghost predicate OnCurve<F>(s: Setting<F>, p: Point<F>) {
    var k, three := s.K(), FromNat(s.K(), 3);
    k.mul(p.y, p.y)
    == k.Sub(k.add(k.mul(k.mul(p.x, p.x), p.x), k.mul(p.x, k.mul(three, Z(s.f)))), three)
  }

  lemma {:induction false} NumeralsAreBase<F(!new)>(s: Setting<F>, n: nat)
    requires IsField(s.f)
    ensures FromNat(s.K(), n) == Base(s.f, FromNat(s.f, n))
  {
    if n > 0 {
      NumeralsAreBase(s, n - 1);
      AddZero(s.f, s.f.zero);
    }
  }

  lemma ThreeZ<F(!new)>(s: Setting<F>)
    requires IsField(s.f) && IsField(s.K())
    ensures TheCurve(s).a == s.K().mul(FromNat(s.K(), 3), Z(s.f))
    ensures TheCurve(s).b == FromNat(s.K(), 3)
  {
    hide IsField, Mul, FromNat;
    var k, three := s.K(), FromNat(s.f, 3);
    NumeralsAreBase(s, 3);
    MulComm(k, FromNat(k, 3), Z(s.f));
    ScaleIsMul(s.f, Z(s.f), three);
    MulZero(s.f, three);
    MulOne(s.f, three);
  }

  lemma CurveIs<F(!new)>(s: Setting<F>, p: Point<F>)
    requires IsField(s.f) && IsField(s.K())
    ensures TheCurve(s).On(p) <==> OnCurve(s, p)
  {
    hide IsField, Mul, FromNat;
    ThreeZ(s);
    CurveField(s);
    hide TheCurve;
  }

  // ---------------------------------------------------------------------------------------
  // The curve at the roots of z^7 + 2z - 8
  // ---------------------------------------------------------------------------------------

  /** The value of an element at z, its coefficients mapped by e. */
  function ValueAt<F, H>(h: Field<H>, e: F -> H, x: Septic<F>, z: H): H {
    Evaluate(h, Coeffs(Mapped(e, x)), z)
  }

  lemma {:induction false} EvaluateSum<H(!new)>(h: Field<H>, p: seq<H>, q: seq<H>, r: seq<H>, z: H)
    requires IsField(h) && |p| == |q| == |r| && forall i | 0 <= i < |p| :: r[i] == h.add(p[i], q[i])
    ensures Evaluate(h, r, z) == h.add(Evaluate(h, p, z), Evaluate(h, q, z))
  {
    hide IsField, Pow;
    if p == [] {
      AddZero(h, h.zero);
    } else {
      var k := |p| - 1;
      var u := Power(h, z, k);
      EvaluateSum(h, p[..k], q[..k], r[..k], z);
      Distrib(h, u, p[k], q[k]);
      AddSwap(h, Evaluate(h, p[..k], z), Evaluate(h, q[..k], z), h.mul(p[k], u), h.mul(q[k], u));
    }
  }

  lemma SumAt<F(!new), H(!new)>(f: Field<F>, h: Field<H>, e: F -> H, x: Septic<F>, y: Septic<F>, z: H)
    requires IsHom(f, h, e) && IsField(h)
    ensures ValueAt(h, e, AddSeptic(f, x, y), z) == h.add(ValueAt(h, e, x, z), ValueAt(h, e, y, z))
  {
    hide IsField, Evaluate;
    assert HomAt(f, h, e, x.c0, y.c0) && HomAt(f, h, e, x.c1, y.c1) && HomAt(f, h, e, x.c2, y.c2);
    assert HomAt(f, h, e, x.c3, y.c3) && HomAt(f, h, e, x.c4, y.c4) && HomAt(f, h, e, x.c5, y.c5);
    assert HomAt(f, h, e, x.c6, y.c6);
    EvaluateSum(h, Coeffs(Mapped(e, x)), Coeffs(Mapped(e, y)), Coeffs(Mapped(e, AddSeptic(f, x, y))), z);
  }

  lemma NegAt<F(!new), H(!new)>(f: Field<F>, h: Field<H>, e: F -> H, x: Septic<F>, z: H)
    requires IsHom(f, h, e) && IsField(h)
    ensures ValueAt(h, e, NegSeptic(f, x), z) == h.neg(ValueAt(h, e, x, z))
  {
    hide IsField, Evaluate;
    var n := NegSeptic(f, x);
    assert HomAt(f, h, e, x.c0, x.c0) && HomAt(f, h, e, x.c1, x.c1) && HomAt(f, h, e, x.c2, x.c2);
    assert HomAt(f, h, e, x.c3, x.c3) && HomAt(f, h, e, x.c4, x.c4) && HomAt(f, h, e, x.c5, x.c5);
    assert HomAt(f, h, e, x.c6, x.c6);
    forall c ensures h.add(c, h.neg(c)) == h.zero { AddNeg(h, c); }
    var zeros := seq(7, _ => h.zero);
    EvaluateSum(h, Coeffs(Mapped(e, x)), Coeffs(Mapped(e, n)), zeros, z);
    ZeroEvaluates(h, z);
    var v := ValueAt(h, e, x, z);
    AddNeg(h, v);
    AddCancel(h, v, ValueAt(h, e, n, z), h.neg(v));
  }

  lemma ZeroEvaluates<H(!new)>(h: Field<H>, z: H)
    requires IsField(h)
    ensures Evaluate(h, seq(7, _ => h.zero), z) == h.zero
  {
    SepticExtension.ZeroValue(h, seq(7, _ => h.zero), z);
  }

  lemma BaseAt<F(!new), H(!new)>(f: Field<F>, h: Field<H>, e: F -> H, c: F, z: H)
    requires IsHom(f, h, e) && IsField(h)
    ensures ValueAt(h, e, Base(f, c), z) == e(c)
  {
    hide IsField, Pow;
    var p := Coeffs(Mapped(e, Base(f, c)));
    TrailingZeros(h, p, 1, z);
    assert p[..1] == [e(c)] && [e(c)][..0] == [];
    AddZero(h, h.mul(e(c), Power(h, z, 0)));
    PowerZero(h, z);
    MulOne(h, e(c));
  }

  lemma ZAt<F(!new), H(!new)>(f: Field<F>, h: Field<H>, e: F -> H, z: H)
    requires IsHom(f, h, e) && IsField(h)
    ensures ValueAt(h, e, Z(f), z) == z
  {
    hide IsField, Pow;
    var p := Coeffs(Mapped(e, Z(f)));
    TrailingZeros(h, p, 2, z);
    var one, two := [h.zero], [h.zero, h.one];
    assert p[..2] == two && two[..1] == one && one[..0] == [];
    assert Evaluate(h, one, z) == h.add(Evaluate(h, [], z), h.mul(h.zero, Power(h, z, 0)));
    assert Evaluate(h, two, z) == h.add(Evaluate(h, one, z), h.mul(h.one, Power(h, z, 1)));
    MulZero(h, Power(h, z, 0));
    AddZero(h, h.zero);
    PowerOne(h, z);
    MulOne(h, z);
    AddZero(h, z);
  }

  lemma PowerZero<H>(h: Field<H>, z: H)
    ensures Power(h, z, 0) == h.one
  {}

  lemma ProductAt<F(!new), H(!new)>(f: Field<F>, h: Field<H>, e: F -> H, x: Septic<F>, y: Septic<F>, z: H)
    requires IsHom(f, h, e) && IsField(h) && IsRoot(h, z)
    ensures ValueAt(h, e, Mul(f, x, y), z) == h.mul(ValueAt(h, e, x, z), ValueAt(h, e, y, z))
  {
    MulIsModularAbove(f, h, e, x, y, z);
  }

  lemma NumeralAt<F(!new), H(!new)>(s: Setting<F>, h: Field<H>, e: F -> H, n: nat, z: H)
    requires IsHom(s.f, h, e) && IsField(h) && IsField(s.f)
    ensures ValueAt(h, e, FromNat(s.K(), n), z) == FromNat(h, n)
  {
    hide IsField, IsHom;
    NumeralsAreBase(s, n);
    BaseAt(s.f, h, e, FromNat(s.f, n), z);
    HomFromNat(s.f, h, e, n);
  }

  /** v^3 + 3 z v - 3. */
  function CurveValue<H>(h: Field<H>, v: H, z: H): H {
    var three := FromNat(h, 3);
    h.Sub(h.add(h.mul(h.mul(v, v), v), h.mul(v, h.mul(three, z))), three)
  }

  /** At every root of z^7 + 2z - 8, in every field above, a point of the curve satisfies
      w^2 = v^3 + 3 z v - 3 with v and w the values of x and y. */
  lemma CurveAtRoots<F(!new), H(!new)>(s: Setting<F>, h: Field<H>, e: F -> H, p: Point<F>, z: H)
    requires IsHom(s.f, h, e) && IsField(h) && IsField(s.f) && IsRoot(h, z) && OnCurve(s, p)
    ensures var v, w := ValueAt(h, e, p.x, z), ValueAt(h, e, p.y, z); h.mul(w, w) == CurveValue(h, v, z)
  {
    hide IsField, IsHom, IsRoot, ValueAt, Mul, FromNat, AddSeptic, NegSeptic, Z;
    var f, k := s.f, s.K();
    var three := FromNat(k, 3);
    var x, xx, a := p.x, Mul(f, p.x, p.x), Mul(f, three, Z(f));
    ProductAt(f, h, e, p.y, p.y, z);
    ProductAt(f, h, e, x, x, z);
    ProductAt(f, h, e, xx, x, z);
    ProductAt(f, h, e, three, Z(f), z);
    ProductAt(f, h, e, x, a, z);
    ZAt(f, h, e, z);
    NumeralAt(s, h, e, 3, z);
    SumAt(f, h, e, Mul(f, xx, x), Mul(f, x, a), z);
    NegAt(f, h, e, three, z);
    SumAt(f, h, e, AddSeptic(f, Mul(f, xx, x), Mul(f, x, a)), NegSeptic(f, three), z);
  }

  // ---------------------------------------------------------------------------------------
  // Signs
  // ---------------------------------------------------------------------------------------

  ghost predicate CanonicalAt<F>(f: Field<F>, canonical: F -> nat, x: F, y: F) {
    && canonical(x) < P
    && canonical(f.add(x, y)) == (canonical(x) + canonical(y)) % P
    && canonical(f.mul(x, y)) == (canonical(x) * canonical(y)) % P
    && (canonical(x) == canonical(y) ==> x == y)
  }

  /** The canonical representative: the base field is the integers modulo p. */
  ghost predicate IsCanonical<F(!new)>(f: Field<F>, canonical: F -> nat) {
    canonical(f.one) == 1 && forall x, y :: CanonicalAt(f, canonical, x, y)
  }

  lemma CanonicalZero<F(!new)>(f: Field<F>, canonical: F -> nat)
    requires IsField(f) && IsCanonical(f, canonical)
    ensures canonical(f.zero) == 0
  {
    hide IsField;
    assert CanonicalAt(f, canonical, f.zero, f.zero);
    AddZero(f, f.zero);
  }

  /** Opposites add up to p. */
  lemma CanonicalNeg<F(!new)>(f: Field<F>, canonical: F -> nat, x: F)
    requires IsField(f) && IsCanonical(f, canonical)
    ensures canonical(x) < P
    ensures canonical(f.neg(x)) == if canonical(x) == 0 then 0 else P - canonical(x)
  {
    hide IsField;
    CanonicalZero(f, canonical);
    assert CanonicalAt(f, canonical, x, f.neg(x)) && CanonicalAt(f, canonical, f.neg(x), x);
    AddNeg(f, x);
  }

  lemma {:induction false} CanonicalNumeral<F(!new)>(f: Field<F>, canonical: F -> nat, n: nat)
    requires IsField(f) && IsCanonical(f, canonical)
    ensures canonical(FromNat(f, n)) == n % P
  {
    hide IsField;
    if n == 0 {
      CanonicalZero(f, canonical);
    } else {
      CanonicalNumeral(f, canonical, n - 1);
      assert CanonicalAt(f, canonical, FromNat(f, n - 1), f.one);
    }
  }

  predicate IsReceive<F>(canonical: F -> nat, y: Septic<F>) {
    1 <= canonical(y.c6) <= (P - 1) / 2
  }

  predicate IsSend<F>(canonical: F -> nat, y: Septic<F>) {
    (P + 1) / 2 <= canonical(y.c6) <= P - 1
  }

  predicate IsException<F>(canonical: F -> nat, y: Septic<F>) { canonical(y.c6) == 0 }

  /** A receive is what is smaller than its opposite, a send what is larger, and an exception
      has no last coefficient. */
  lemma SignIs<F(!new)>(s: Setting<F>, canonical: F -> nat, y: Septic<F>)
    requires IsField(s.f) && IsCanonical(s.f, canonical)
    ensures IsReceive(canonical, y) <==> canonical(y.c6) < canonical(s.K().neg(y).c6)
    ensures IsSend(canonical, y) <==> canonical(y.c6) > canonical(s.K().neg(y).c6)
    ensures IsException(canonical, y) <==> y.c6 == s.f.zero
  {
    hide IsField;
    CanonicalNeg(s.f, canonical, y.c6);
    CanonicalZero(s.f, canonical);
    assert CanonicalAt(s.f, canonical, y.c6, s.f.zero);
  }

  /** Every element is exactly one of the three, and negation swaps sends and receives. */
  lemma NegationSwaps<F(!new)>(s: Setting<F>, canonical: F -> nat, y: Septic<F>)
    requires IsField(s.f) && IsCanonical(s.f, canonical)
    ensures IsReceive(canonical, s.K().neg(y)) <==> IsSend(canonical, y)
    ensures IsSend(canonical, s.K().neg(y)) <==> IsReceive(canonical, y)
    ensures IsException(canonical, s.K().neg(y)) <==> IsException(canonical, y)
    ensures IsReceive(canonical, y) || IsSend(canonical, y) || IsException(canonical, y)
    ensures !(IsReceive(canonical, y) && IsSend(canonical, y))
  {
    hide IsField, IsCanonical;
    CanonicalNeg(s.f, canonical, y.c6);
  }

  // ---------------------------------------------------------------------------------------
  // Lifting
  // ---------------------------------------------------------------------------------------

  /** The x-coordinate tried with an offset: m's last coefficient times 256 plus the offset. */
  function Trial<F>(s: Setting<F>, m: Septic<F>, offset: nat): Septic<F> {
    m.(c6 := s.f.add(s.f.mul(m.c6, FromNat(s.f, 256)), FromNat(s.f, offset)))
  }

  /** `x` is m with its last coefficient c replaced by 256 c + offset, as integers modulo p. */
  ghost predicate IsTrial<F>(canonical: F -> nat, m: Septic<F>, offset: nat, x: Septic<F>) {
    && x == m.(c6 := x.c6)
    && canonical(x.c6) == (256 * canonical(m.c6) + offset) % P
  }

  lemma TrialIs<F(!new)>(s: Setting<F>, canonical: F -> nat, m: Septic<F>, offset: nat, x: Septic<F>)
    requires IsField(s.f) && IsCanonical(s.f, canonical) && offset < 256
    ensures IsTrial(canonical, m, offset, x) <==> x == Trial(s, m, offset)
  {
    hide IsField, Trial;
    TrialCanonical(s, canonical, m, offset);
    TrialKeeps(s, m, offset);
    assert CanonicalAt(s.f, canonical, x.c6, Trial(s, m, offset).c6);
  }

  lemma TrialKeeps<F>(s: Setting<F>, m: Septic<F>, offset: nat)
    ensures Trial(s, m, offset) == m.(c6 := Trial(s, m, offset).c6)
  {}

  lemma TrialCanonical<F(!new)>(s: Setting<F>, canonical: F -> nat, m: Septic<F>, offset: nat)
    requires IsField(s.f) && IsCanonical(s.f, canonical) && offset < 256
    ensures canonical(Trial(s, m, offset).c6) == (256 * canonical(m.c6) + offset) % P
  {
    hide IsField, FromNat, IsCanonical;
    var f, c, t := s.f, FromNat(s.f, 256), FromNat(s.f, offset);
    CanonicalNumeral(f, canonical, 256);
    CanonicalNumeral(f, canonical, offset);
    SmallMod(256);
    SmallMod(offset);
    CanonicalOps(f, canonical, m.c6, c);
    CanonicalOps(f, canonical, f.mul(m.c6, c), t);
    ModSum(canonical(m.c6) * 256, offset);
  }

  lemma CanonicalOps<F(!new)>(f: Field<F>, canonical: F -> nat, x: F, y: F)
    requires IsCanonical(f, canonical)
    ensures canonical(f.add(x, y)) == (canonical(x) + canonical(y)) % P
    ensures canonical(f.mul(x, y)) == (canonical(x) * canonical(y)) % P
  {
    assert CanonicalAt(f, canonical, x, y);
  }

  lemma SmallMod(n: nat)
    requires n < P
    ensures n % P == n
  {
    DivisionIs(0, n, P);
  }

  lemma ModSum(a: nat, b: nat)
    requires b < P
    ensures (a % P + b) % P == (a + b) % P
  {
    var q := a / P;
    var r := a % P + b;
    assert a + b == r + P * q;
    if r < P { DivisionIs(q, r, P); } else { DivisionIs(q + 1, r - P, P); }
  }

  /** Some point with this x has a sign. */
  ghost predicate Liftable<F(!new)>(s: Setting<F>, canonical: F -> nat, x: Septic<F>) {
    exists p: Point<F> :: p.x == x && OnCurve(s, p) && !IsException(canonical, p.y)
  }

  /** The only receive on the curve with its x. */
  ghost predicate TheReceive<F(!new)>(s: Setting<F>, canonical: F -> nat, p: Point<F>) {
    && OnCurve(s, p) && IsReceive(canonical, p.y)
    && forall q: Point<F> | OnCurve(s, q) && q.x == p.x && IsReceive(canonical, q.y) :: q == p
  }

  /** Two points with one x have the same or opposite y. */
  lemma SameX<F(!new)>(s: Setting<F>, p: Point<F>, q: Point<F>)
    requires IsField(s.K()) && OnCurve(s, p) && OnCurve(s, q) && p.x == q.x
    ensures q.y == p.y || q.y == s.K().neg(p.y)
  {
    hide Mul;
    EllipticCurve.RootsAreOpposite(s.K(), q.y, p.y);
  }

  lemma ReceiveIsUnique<F(!new)>(s: Setting<F>, canonical: F -> nat, p: Point<F>)
    requires IsField(s.K()) && IsField(s.f) && IsCanonical(s.f, canonical)
    requires OnCurve(s, p) && IsReceive(canonical, p.y)
    ensures TheReceive(s, canonical, p)
  {
    hide IsField, IsCanonical, OnCurve;
    forall q: Point<F> | OnCurve(s, q) && q.x == p.x && IsReceive(canonical, q.y)
      ensures q == p
    {
      SameX(s, p, q);
      NegationSwaps(s, canonical, p.y);
    }
  }

  lemma NotLiftable<F(!new)>(s: Setting<F>, canonical: F -> nat, p: Point<F>)
    requires IsField(s.K()) && IsField(s.f) && IsCanonical(s.f, canonical)
    requires OnCurve(s, p) && IsException(canonical, p.y)
    ensures !Liftable(s, canonical, p.x)
  {
    hide IsField, IsCanonical, OnCurve;
    forall q: Point<F> | q.x == p.x && OnCurve(s, q) ensures IsException(canonical, q.y) {
      SameX(s, p, q);
      NegationSwaps(s, canonical, p.y);
    }
  }

  lemma NoPoint<F(!new)>(s: Setting<F>, canonical: F -> nat, x: Septic<F>)
    requires IsField(s.K()) && IsField(s.f)
    requires forall y :: Mul(s.f, y, y) != TheCurve(s).Formula(x)
    ensures !Liftable(s, canonical, x)
  {
    hide Mul, IsField, OnCurve;
    forall q: Point<F> | q.x == x ensures !OnCurve(s, q) {
      CurveIs(s, q);
      assert Mul(s.f, q.y, q.y) != TheCurve(s).Formula(x);
    }
  }

  /** One round of `lift_x`. */
  method TryOffset<F(==, !new)>(s: Setting<F>, canonical: F -> nat, x: Septic<F>)
    returns (r: Option<Point<F>>)
    requires Granted(s, P) && IsCanonical(s.f, canonical)
    ensures r.Some? <==> Liftable(s, canonical, x)
    ensures r.Some? ==> r.value.x == x && TheReceive(s, canonical, r.value)
  {
    hide Granted, IsField, IsCanonical, TheReceive, Liftable, Mul, TheCurve, OnCurve;
    GrantedField(s, P);
    var curve := TheCurve(s);
    CurveField(s);
    var root := Sqrt(s, curve.Formula(x));
    if root.None? {
      NoPoint(s, canonical, x);
      return None;
    }
    var y := root.value;
    var p := EllipticCurve.Point(x, y);
    CurveIs(s, p);
    NegationSwaps(s, canonical, y);
    if IsException(canonical, y) {
      NotLiftable(s, canonical, p);
      return None;
    }
    LiftableBy(s, canonical, p);
    if IsSend(canonical, y) {
      EllipticCurve.NegOnCurve(curve, p);
      p := EllipticCurve.Neg(s.K(), p);
      CurveIs(s, p);
    }
    ReceiveIsUnique(s, canonical, p);
    return Some(p);
  }

  lemma CurveField<F(!new)>(s: Setting<F>)
    ensures TheCurve(s).k == s.K()
  {}

  lemma LiftableBy<F(!new)>(s: Setting<F>, canonical: F -> nat, p: Point<F>)
    requires OnCurve(s, p) && !IsException(canonical, p.y)
    ensures Liftable(s, canonical, p.x)
  {}

  /** No x tried with the offset lifts. */
  ghost predicate Unliftable<F(!new)>(s: Setting<F>, canonical: F -> nat, m: Septic<F>, offset: nat) {
    forall x | IsTrial(canonical, m, offset, x) :: !Liftable(s, canonical, x)
  }

  /** `lift_x`: the first of 256 offsets whose x lifts, with its receive point; `None` is the
      panic after the last. */
  method LiftX<F(==, !new)>(s: Setting<F>, canonical: F -> nat, m: Septic<F>)
    returns (r: Option<(Point<F>, nat)>)
    requires Granted(s, P) && IsCanonical(s.f, canonical)
    ensures r.Some? ==>
      var (p, offset) := r.value;
      && offset <= 255 && IsTrial(canonical, m, offset, p.x) && TheReceive(s, canonical, p)
      && forall o: nat | o < offset :: Unliftable(s, canonical, m, o)
    ensures r.None? ==> forall o: nat | o <= 255 :: Unliftable(s, canonical, m, o)
  {
    hide Granted, IsField, IsCanonical, TheReceive, Liftable, Trial, IsTrial;
    GrantedField(s, P);
    for offset := 0 to 256
      invariant forall o: nat | o < offset :: Unliftable(s, canonical, m, o)
    {
      var x := Trial(s, m, offset);
      forall y ensures IsTrial(canonical, m, offset, y) <==> y == x { TrialIs(s, canonical, m, offset, y); }
      var p := TryOffset(s, canonical, x);
      if p.Some? { return Some((p.value, offset)); }
    }
    return None;
  }
}
