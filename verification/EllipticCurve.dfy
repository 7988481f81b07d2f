/** Points on y^2 = x^3 + a x - b over a field (crates/stark/src/septic_curve.rs, where the
    field is the septic extension, a = 3z and b = 3). */
module EllipticCurve {
  import opened Fields
  import opened Powers

  datatype Point<E> = Point(x: E, y: E)

  datatype Curve<!E> = Curve(k: Field<E>, a: E, b: E)
  {
    /** `curve_formula`. */
    function Formula(x: E): E {
      k.Sub(k.add(k.mul(k.mul(x, x), x), k.mul(x, a)), b)
    }

    /** `check_on_point`. */
    ghost predicate On(p: Point<E>) { k.mul(p.y, p.y) == Formula(p.x) }
  }

  /** `neg`. */
  function Neg<E>(k: Field<E>, p: Point<E>): Point<E> { Point(p.x, k.neg(p.y)) }

  /** The third point on the line through (x1, y1) with the given slope, mirrored. */
  function Mirrored<E>(k: Field<E>, slope: E, p: Point<E>, x2: E): Point<E> {
    var x3 := k.Sub(k.Sub(k.mul(slope, slope), p.x), x2);
    Point(x3, k.Sub(k.mul(slope, k.Sub(p.x, x3)), p.y))
  }

  /** `add_incomplete`. */
  function AddIncomplete<E>(k: Field<E>, p: Point<E>, q: Point<E>): Point<E> {
    Mirrored(k, k.Div(k.Sub(q.y, p.y), k.Sub(q.x, p.x)), p, q.x)
  }

  function Twice<E>(k: Field<E>, x: E): E { k.add(x, x) }

  /** `double`. */
  function Double<E>(c: Curve<E>, p: Point<E>): Point<E> {
    var k, xx := c.k, c.k.mul(p.x, p.x);
    var slope := k.Div(k.add(k.add(Twice(k, xx), xx), c.a), Twice(k, p.y));
    var x3 := k.Sub(k.mul(slope, slope), Twice(k, p.x));
    Point(x3, k.Sub(k.mul(slope, k.Sub(p.x, x3)), p.y))
  }

  // ---------------------------------------------------------------------------------------
  // Polynomials by Horner's rule
  // ---------------------------------------------------------------------------------------

  /** One step of Horner's rule, at two arguments. */
  lemma HornerDiff<E(!new)>(k: Field<E>, rt: E, ru: E, t: E, u: E, c: E)
    requires IsField(k)
    ensures k.Sub(k.add(k.mul(rt, t), c), k.add(k.mul(ru, u), c))
         == k.add(k.mul(k.Sub(t, u), rt), k.mul(k.Sub(rt, ru), u))
  {
    SubCommon(k, k.mul(rt, t), k.mul(ru, u), c);
    MulSub(k, rt, t, u);
    MulComm(k, rt, k.Sub(t, u));
    MulSub(k, u, rt, ru);
    Telescope(k, k.mul(rt, t), k.mul(rt, u), k.mul(ru, u));
  }

  /** One step of Horner's rule, for two polynomials. */
  lemma HornerSub<E(!new)>(k: Field<E>, r: E, q: E, t: E, c: E, d: E)
    requires IsField(k)
    ensures k.Sub(k.add(k.mul(r, t), c), k.add(k.mul(q, t), d))
         == k.add(k.mul(k.Sub(r, q), t), k.Sub(c, d))
  {
    SubPairs(k, k.mul(r, t), c, k.mul(q, t), d);
    MulSub(k, t, r, q);
  }

  // ---------------------------------------------------------------------------------------
  // A monic cubic with two known roots
  // ---------------------------------------------------------------------------------------

  /** ((t - s) t + c) t + e. */
  datatype Cubic<!E> = Cubic(k: Field<E>, s: E, c: E, e: E)
  {
    function A(t: E): E { k.Sub(t, s) }
    function B(t: E): E { k.add(k.mul(A(t), t), c) }
    function G(t: E): E { k.add(k.mul(B(t), t), e) }
    /** The difference quotient of G. */
    function Q(t: E, u: E): E { k.add(B(t), k.mul(k.add(A(t), u), u)) }
  }

  lemma DiffA<E(!new)>(g: Cubic<E>, t: E, u: E)
    requires IsField(g.k)
    ensures g.k.Sub(g.A(t), g.A(u)) == g.k.Sub(t, u)
  {
    SubCommon(g.k, t, u, g.k.neg(g.s));
  }

  lemma DiffB<E(!new)>(g: Cubic<E>, t: E, u: E)
    requires IsField(g.k)
    ensures g.k.Sub(g.B(t), g.B(u)) == g.k.mul(g.k.Sub(t, u), g.k.add(g.A(t), u))
  {
    HornerDiff(g.k, g.A(t), g.A(u), t, u, g.c);
    DiffA(g, t, u);
    Distrib(g.k, g.k.Sub(t, u), g.A(t), u);
  }

  lemma DiffG<E(!new)>(g: Cubic<E>, t: E, u: E)
    requires IsField(g.k)
    ensures g.k.Sub(g.G(t), g.G(u)) == g.k.mul(g.k.Sub(t, u), g.Q(t, u))
  {
    hide IsField;
    var d, x := g.k.Sub(t, u), g.k.add(g.A(t), u);
    HornerDiff(g.k, g.B(t), g.B(u), t, u, g.e);
    DiffB(g, t, u);
    MulAssoc(g.k, d, x, u);
    Distrib(g.k, d, g.B(t), g.k.mul(x, u));
  }

  lemma DiffQ<E(!new)>(g: Cubic<E>, t: E, w: E, u: E)
    requires IsField(g.k)
    ensures g.k.Sub(g.Q(t, u), g.Q(w, u))
         == g.k.mul(g.k.Sub(t, w), g.k.add(g.k.add(g.A(t), w), u))
  {
    hide IsField;
    var k, d := g.k, g.k.Sub(t, w);
    SubPairs(k, g.B(t), k.mul(k.add(g.A(t), u), u), g.B(w), k.mul(k.add(g.A(w), u), u));
    DiffB(g, t, w);
    MulSub(k, u, k.add(g.A(t), u), k.add(g.A(w), u));
    SubCommon(k, g.A(t), g.A(w), u);
    DiffA(g, t, w);
    Distrib(k, d, k.add(g.A(t), w), u);
  }

  /** A root, and a second one (or the same once more), give the third. */
  lemma ThirdRoot<E(!new)>(g: Cubic<E>, x1: E, x2: E)
    requires IsField(g.k) && g.G(x1) == g.k.zero && g.Q(x2, x1) == g.k.zero
    ensures g.G(g.k.Sub(g.k.Sub(g.s, x1), x2)) == g.k.zero
  {
    hide IsField;
    var k, x3 := g.k, g.k.Sub(g.k.Sub(g.s, x1), x2);
    assert k.add(k.add(g.A(x3), x2), x1) == k.zero by { RootsSum(k, g.s, x1, x2); }
    DiffQ(g, x3, x2, x1);
    MulZero(k, k.Sub(x3, x2));
    SubZero(k, g.Q(x3, x1), g.Q(x2, x1));
    DiffG(g, x3, x1);
    MulZero(k, k.Sub(x3, x1));
    SubZero(k, g.G(x3), g.G(x1));
  }

  /** ((s - x1 - x2) - s + x2) + x1 = 0. */
  lemma RootsSum<E(!new)>(k: Field<E>, s: E, x1: E, x2: E)
    requires IsField(k)
    ensures k.add(k.add(k.Sub(k.Sub(k.Sub(s, x1), x2), s), x2), x1) == k.zero
  {
    hide IsField;
    var u := k.Sub(s, x1);
    var x3 := k.Sub(u, x2);
    SubIs(k, u, x2, x3);
    SubIs(k, s, x1, u);
    AddAssoc(k, x3, k.neg(s), x2);
    AddComm(k, k.neg(s), x2);
    AddAssoc(k, x3, x2, k.neg(s));
    AddComm(k, x3, x2);
    AddAssoc(k, u, k.neg(s), x1);
    AddComm(k, k.neg(s), x1);
    AddAssoc(k, u, x1, k.neg(s));
    AddComm(k, u, x1);
    AddNeg(k, s);
  }

  // ---------------------------------------------------------------------------------------
  // The curve minus the square of a line
  // ---------------------------------------------------------------------------------------

  function Line<E>(k: Field<E>, slope: E, m: E, t: E): E { k.add(k.mul(slope, t), m) }

  function Chord<E>(c: Curve<E>, slope: E, m: E): Cubic<E> {
    var k := c.k;
    Cubic(k, k.mul(slope, slope), k.Sub(c.a, Twice(k, k.mul(slope, m))),
          k.Sub(k.neg(c.b), k.mul(m, m)))
  }

  /** (l t + m)^2 = (l^2 t + 2 l m) t + m^2. */
  lemma LineSquared<E(!new)>(k: Field<E>, l: E, m: E, t: E)
    requires IsField(k)
    ensures k.mul(Line(k, l, m, t), Line(k, l, m, t))
         == k.add(k.mul(k.add(k.mul(k.mul(l, l), t), Twice(k, k.mul(l, m))), t), k.mul(m, m))
  {
    hide IsField;
    var lt, lm, u := k.mul(l, t), k.mul(l, m), Line(k, l, m, t);
    Distrib(k, u, lt, m);
    Distrib(k, lt, lt, m);
    Distrib(k, m, lt, m);
    TimesIsMonoid(k);
    Swap(Times(k), l, t, l, t);
    MulAssoc(k, k.mul(l, l), t, t);
    MulAssoc(k, l, t, m);
    MulComm(k, t, m);
    MulAssoc(k, l, m, t);
    MulComm(k, m, lt);
    var lmt, llt := k.mul(lm, t), k.mul(k.mul(k.mul(l, l), t), t);
    AddAssoc(k, llt, lmt, k.add(lmt, k.mul(m, m)));
    AddAssoc(k, lmt, lmt, k.mul(m, m));
    AddAssoc(k, llt, k.add(lmt, lmt), k.mul(m, m));
    Distrib(k, t, lm, lm);
    Distrib(k, t, k.mul(k.mul(l, l), t), Twice(k, lm));
  }

  lemma FormulaHorner<E(!new)>(c: Curve<E>, t: E)
    requires IsField(c.k)
    ensures c.Formula(t) == c.k.add(c.k.mul(c.k.add(c.k.mul(t, t), c.a), t), c.k.neg(c.b))
  {
    Distrib(c.k, t, c.k.mul(t, t), c.a);
    MulComm(c.k, t, c.a);
  }

  lemma ChordIs<E(!new)>(c: Curve<E>, l: E, m: E, t: E)
    requires IsField(c.k)
    ensures Chord(c, l, m).G(t)
         == c.k.Sub(c.Formula(t), c.k.mul(Line(c.k, l, m, t), Line(c.k, l, m, t)))
  {
    hide IsField;
    var k := c.k;
    var ll, lm2 := k.mul(l, l), Twice(k, k.mul(l, m));
    FormulaHorner(c, t);
    LineSquared(k, l, m, t);
    HornerSub(k, k.add(k.mul(t, t), c.a), k.add(k.mul(ll, t), lm2), t, k.neg(c.b), k.mul(m, m));
    HornerSub(k, t, ll, t, c.a, lm2);
  }

  /** On the curve and on the line, up to sign, is a root of the chord. */
  lemma RootIsOnCurve<E(!new)>(c: Curve<E>, l: E, m: E, p: Point<E>)
    requires IsField(c.k) && c.k.mul(p.y, p.y) == c.k.mul(Line(c.k, l, m, p.x), Line(c.k, l, m, p.x))
    ensures Chord(c, l, m).G(p.x) == c.k.zero <==> c.On(p)
  {
    ChordIs(c, l, m, p.x);
    SubZero(c.k, c.Formula(p.x), c.k.mul(p.y, p.y));
  }

  // ---------------------------------------------------------------------------------------
  // The sum is on the curve
  // ---------------------------------------------------------------------------------------

  function Intercept<E>(k: Field<E>, slope: E, p: Point<E>): E { k.Sub(p.y, k.mul(slope, p.x)) }

  /** The line through p, at t: y + slope (t - x). */
  lemma LineThrough<E(!new)>(k: Field<E>, slope: E, p: Point<E>, t: E)
    requires IsField(k)
    ensures Line(k, slope, Intercept(k, slope, p), t) == k.add(p.y, k.mul(slope, k.Sub(t, p.x)))
  {
    hide IsField;
    var lt, lx := k.mul(slope, t), k.mul(slope, p.x);
    MulSub(k, slope, t, p.x);
    AddComm(k, lt, k.Sub(p.y, lx));
    AddAssoc(k, p.y, k.neg(lx), lt);
    AddComm(k, k.neg(lx), lt);
  }

  lemma NegSquared<E(!new)>(k: Field<E>, x: E)
    requires IsField(k)
    ensures k.mul(k.neg(x), k.neg(x)) == k.mul(x, x)
  {
    NegMul(k, x, k.neg(x));
    NegMul(k, x, x);
    NegNeg(k, k.mul(x, x));
  }

  /** -(a - b) = b - a. */
  lemma NegSub<E(!new)>(k: Field<E>, a: E, b: E)
    requires IsField(k)
    ensures k.neg(k.Sub(a, b)) == k.Sub(b, a)
  {
    NegAdd(k, a, k.neg(b));
    NegNeg(k, b);
    AddComm(k, k.neg(a), b);
  }

  /** The mirrored point has minus the line's value as its y. */
  lemma MirroredOnLine<E(!new)>(k: Field<E>, slope: E, p: Point<E>, x2: E)
    requires IsField(k)
    ensures var r, m := Mirrored(k, slope, p, x2), Intercept(k, slope, p);
      k.mul(r.y, r.y) == k.mul(Line(k, slope, m, r.x), Line(k, slope, m, r.x))
  {
    hide IsField;
    var r := Mirrored(k, slope, p, x2);
    LineThrough(k, slope, p, r.x);
    var d := k.Sub(p.x, r.x);
    NegSub(k, p.x, r.x);
    NegMul(k, d, slope);
    var v := k.mul(slope, d);
    NegSub(k, v, p.y);
    NegSquared(k, k.Sub(v, p.y));
  }

  /** With a second root, or a double one, at x2, the mirrored point is on the curve. */
  lemma MirroredOnCurve<E(!new)>(c: Curve<E>, slope: E, p: Point<E>, x2: E)
    requires IsField(c.k) && c.On(p)
    requires Chord(c, slope, Intercept(c.k, slope, p)).Q(x2, p.x) == c.k.zero
    ensures c.On(Mirrored(c.k, slope, p, x2))
  {
    hide IsField, Chord, Line;
    var k, m, r := c.k, Intercept(c.k, slope, p), Mirrored(c.k, slope, p, x2);
    LineThrough(k, slope, p, p.x);
    AddNeg(k, p.x);
    MulZero(k, slope);
    AddZero(k, p.y);
    RootIsOnCurve(c, slope, m, p);
    ChordFields(c, slope, m);
    ThirdRoot(Chord(c, slope, m), p.x, x2);
    MirroredOnLine(k, slope, p, x2);
    RootIsOnCurve(c, slope, m, r);
  }

  lemma ChordFields<E(!new)>(c: Curve<E>, slope: E, m: E)
    ensures Chord(c, slope, m).k == c.k && Chord(c, slope, m).s == c.k.mul(slope, slope)
  {}

  lemma DivMul<E(!new)>(k: Field<E>, x: E, y: E)
    requires IsField(k) && y != k.zero
    ensures k.mul(k.Div(x, y), y) == x
  {
    MulAssoc(k, x, k.inv(y), y);
    MulInv(k, y);
    MulOne(k, x);
  }

  /** The sum of two points of the curve with different x is on the curve. */
  lemma SumOnCurve<E(!new)>(c: Curve<E>, p: Point<E>, q: Point<E>)
    requires IsField(c.k) && c.On(p) && c.On(q) && p.x != q.x
    ensures c.On(AddIncomplete(c.k, p, q))
  {
    hide IsField, Chord, Line;
    var k := c.k;
    var d, e := k.Sub(q.x, p.x), k.Sub(q.y, p.y);
    var l := k.Div(e, d);
    var m := Intercept(k, l, p);
    var g := Chord(c, l, m);
    ChordFields(c, l, m);
    SubZero(k, q.x, p.x);
    DivMul(k, e, d);
    LineThrough(k, l, p, p.x);
    AddNeg(k, p.x);
    MulZero(k, l);
    AddZero(k, p.y);
    RootIsOnCurve(c, l, m, p);
    LineThrough(k, l, p, q.x);
    SubIs(k, q.y, p.y, e);
    RootIsOnCurve(c, l, m, q);
    DiffG(g, q.x, p.x);
    SubZero(k, g.G(q.x), g.G(p.x));
    NoZeroDivisor(k, d, g.Q(q.x, p.x));
    MirroredOnCurve(c, l, p, q.x);
  }

  /** `neg` stays on the curve. */
  lemma NegOnCurve<E(!new)>(c: Curve<E>, p: Point<E>)
    requires IsField(c.k)
    ensures c.On(Neg(c.k, p)) <==> c.On(p)
  {
    NegSquared(c.k, p.y);
  }

  // ---------------------------------------------------------------------------------------
  // Doubling
  // ---------------------------------------------------------------------------------------

  /** (a - b) - c = a - (b + c). */
  lemma SubSub<E(!new)>(k: Field<E>, a: E, b: E, c: E)
    requires IsField(k)
    ensures k.Sub(k.Sub(a, b), c) == k.Sub(a, k.add(b, c))
  {
    NegAdd(k, b, c);
    AddAssoc(k, a, k.neg(b), k.neg(c));
  }

  lemma DoubleIsMirrored<E(!new)>(c: Curve<E>, p: Point<E>)
    requires IsField(c.k)
    ensures var xx := c.k.mul(p.x, p.x);
      Double(c, p) == Mirrored(c.k, c.k.Div(c.k.add(c.k.add(Twice(c.k, xx), xx), c.a),
                                            Twice(c.k, p.y)), p, p.x)
  {
    hide IsField;
    var k, xx := c.k, c.k.mul(p.x, p.x);
    var l := k.Div(k.add(k.add(Twice(k, xx), xx), c.a), Twice(k, p.y));
    SubSub(k, k.mul(l, l), p.x, p.x);
  }

  /** Q(x, x) = (3 x^2 + a) - 2 l (l x + m). */
  lemma DoubleQuotient<E(!new)>(c: Curve<E>, l: E, m: E, x: E)
    requires IsField(c.k)
    ensures var k := c.k; var xx := k.mul(x, x);
      Chord(c, l, m).Q(x, x)
      == k.Sub(k.add(k.add(Twice(k, xx), xx), c.a), k.mul(l, Twice(k, Line(k, l, m, x))))
  {
    hide IsField;
    var k := c.k;
    var s, xx, lm2 := k.mul(l, l), k.mul(x, x), Twice(k, k.mul(l, m));
    var sx := k.mul(s, x);
    // A(x) x = xx - sx and (A(x) + x) x = (xx - sx) + xx.
    MulSub(k, x, x, s);
    Distrib(k, x, k.Sub(x, s), x);
    var v := k.Sub(xx, sx);
    // Q = (v + (a - lm2)) + (v + xx) = ((v + v) + xx) + (a - lm2).
    var w := k.Sub(c.a, lm2);
    AddSwap(k, v, w, v, xx);
    AddComm(k, w, xx);
    AddAssoc(k, k.add(v, v), xx, w);
    // v + v = (xx + xx) - (sx + sx).
    SubPairs(k, xx, xx, sx, sx);
    SubShift(k, Twice(k, xx), Twice(k, sx), xx);
    SubPairs(k, k.add(Twice(k, xx), xx), c.a, Twice(k, sx), lm2);
    // 2 sx + 2 lm = l (2 (l x + m)).
    MulAssoc(k, l, l, x);
    var lx := k.mul(l, x);
    AddSwap(k, lx, m, lx, m);
    Distrib(k, l, lx, m);
    Distrib(k, l, Line(k, l, m, x), Line(k, l, m, x));
    AddSwap(k, sx, k.mul(l, m), sx, k.mul(l, m));
  }

  /** (a - b) + c = (a + c) - b. */
  lemma SubShift<E(!new)>(k: Field<E>, a: E, b: E, c: E)
    requires IsField(k)
    ensures k.add(k.Sub(a, b), c) == k.Sub(k.add(a, c), b)
  {
    AddAssoc(k, a, k.neg(b), c);
    AddComm(k, k.neg(b), c);
    AddAssoc(k, a, c, k.neg(b));
  }

  /** Twice a point of the curve is on the curve, when 2y has an inverse. */
  lemma DoubleOnCurve<E(!new)>(c: Curve<E>, p: Point<E>)
    requires IsField(c.k) && c.On(p) && Twice(c.k, p.y) != c.k.zero
    ensures c.On(Double(c, p))
  {
    hide IsField, Chord, Line;
    var k, xx := c.k, c.k.mul(p.x, p.x);
    var n := k.add(k.add(Twice(k, xx), xx), c.a);
    var l := k.Div(n, Twice(k, p.y));
    DoubleIsMirrored(c, p);
    DoubleQuotient(c, l, Intercept(k, l, p), p.x);
    LineThrough(k, l, p, p.x);
    AddNeg(k, p.x);
    MulZero(k, l);
    AddZero(k, p.y);
    DivMul(k, n, Twice(k, p.y));
    AddNeg(k, n);
    MirroredOnCurve(c, l, p, p.x);
  }

  // ---------------------------------------------------------------------------------------
  // The checkers
  // ---------------------------------------------------------------------------------------

  /** `sum_checker_x`. */
  function SumCheckerX<E>(k: Field<E>, p1: Point<E>, p2: Point<E>, p3: Point<E>): E {
    var d, e := k.Sub(p2.x, p1.x), k.Sub(p2.y, p1.y);
    k.Sub(k.mul(k.add(k.add(p1.x, p2.x), p3.x), k.mul(d, d)), k.mul(e, e))
  }

  /** `sum_checker_y`. */
  function SumCheckerY<E>(k: Field<E>, p1: Point<E>, p2: Point<E>, p3: Point<E>): E {
    k.Sub(k.mul(k.add(p1.y, p3.y), k.Sub(p2.x, p1.x)),
          k.mul(k.Sub(p2.y, p1.y), k.Sub(p1.x, p3.x)))
  }

  /** x d = y d says x = y. */
  lemma CancelRight<E(!new)>(k: Field<E>, x: E, y: E, d: E)
    requires IsField(k) && d != k.zero
    ensures k.mul(x, d) == k.mul(y, d) <==> x == y
  {
    MulComm(k, x, d);
    MulComm(k, y, d);
    if k.mul(x, d) == k.mul(y, d) { MulCancel(k, d, x, y); }
  }

  lemma CheckerXExact<E(!new)>(k: Field<E>, p1: Point<E>, p2: Point<E>, p3: Point<E>)
    requires IsField(k) && p1.x != p2.x
    ensures SumCheckerX(k, p1, p2, p3) == k.zero <==> p3.x == AddIncomplete(k, p1, p2).x
  {
    hide IsField;
    var d, e := k.Sub(p2.x, p1.x), k.Sub(p2.y, p1.y);
    var l, sum := k.Div(e, d), k.add(k.add(p1.x, p2.x), p3.x);
    SubZero(k, p2.x, p1.x);
    DivMul(k, e, d);
    TimesIsMonoid(k);
    Swap(Times(k), l, d, l, d);
    NoZeroDivisor(k, d, d);
    SubZero(k, k.mul(sum, k.mul(d, d)), k.mul(e, e));
    CancelRight(k, sum, k.mul(l, l), k.mul(d, d));
    SubSub(k, k.mul(l, l), p1.x, p2.x);
    SubIs(k, k.mul(l, l), k.add(p1.x, p2.x), p3.x);
  }

  lemma CheckerYExact<E(!new)>(k: Field<E>, p1: Point<E>, p2: Point<E>, p3: Point<E>)
    requires IsField(k) && p1.x != p2.x && p3.x == AddIncomplete(k, p1, p2).x
    ensures SumCheckerY(k, p1, p2, p3) == k.zero <==> p3.y == AddIncomplete(k, p1, p2).y
  {
    hide IsField;
    var d, e, u := k.Sub(p2.x, p1.x), k.Sub(p2.y, p1.y), k.Sub(p1.x, p3.x);
    var l := k.Div(e, d);
    SubZero(k, p2.x, p1.x);
    DivMul(k, e, d);
    MulAssoc(k, l, d, u);
    MulComm(k, d, u);
    MulAssoc(k, l, u, d);
    SubZero(k, k.mul(k.add(p1.y, p3.y), d), k.mul(e, u));
    CancelRight(k, k.add(p1.y, p3.y), k.mul(l, u), d);
    SubIs(k, k.mul(l, u), p1.y, p3.y);
  }

  /** Both checkers are zero exactly at the sum. */
  lemma CheckersExact<E(!new)>(k: Field<E>, p1: Point<E>, p2: Point<E>, p3: Point<E>)
    requires IsField(k) && p1.x != p2.x
    ensures SumCheckerX(k, p1, p2, p3) == k.zero && SumCheckerY(k, p1, p2, p3) == k.zero
            <==> p3 == AddIncomplete(k, p1, p2)
  {
    hide IsField, SumCheckerX, SumCheckerY, AddIncomplete;
    CheckerXExact(k, p1, p2, p3);
    if p3.x == AddIncomplete(k, p1, p2).x { CheckerYExact(k, p1, p2, p3); }
  }

  /** The double, without a division: r is the double exactly when it satisfies the tangent's
      two polynomial equations. */
  lemma DoubleExact<E(!new)>(c: Curve<E>, p: Point<E>, r: Point<E>)
    requires IsField(c.k) && Twice(c.k, p.y) != c.k.zero
    ensures var k := c.k;
      var d, xx := Twice(k, p.y), k.mul(p.x, p.x);
      var e := k.add(k.add(Twice(k, xx), xx), c.a);
      r == Double(c, p) <==>
        && k.mul(k.add(Twice(k, p.x), r.x), k.mul(d, d)) == k.mul(e, e)
        && k.mul(k.add(p.y, r.y), d) == k.mul(e, k.Sub(p.x, r.x))
  {
    hide IsField, Twice;
    var k := c.k;
    var d, xx, x2 := Twice(k, p.y), k.mul(p.x, p.x), Twice(k, p.x);
    var e := k.add(k.add(Twice(k, xx), xx), c.a);
    var l, u := k.Div(e, d), k.Sub(p.x, r.x);
    DivMul(k, e, d);
    TimesIsMonoid(k);
    Swap(Times(k), l, d, l, d);
    NoZeroDivisor(k, d, d);
    CancelRight(k, k.add(x2, r.x), k.mul(l, l), k.mul(d, d));
    SubIs(k, k.mul(l, l), x2, r.x);
    MulAssoc(k, l, d, u);
    MulComm(k, d, u);
    MulAssoc(k, l, u, d);
    CancelRight(k, k.add(p.y, r.y), k.mul(l, u), d);
    SubIs(k, k.mul(l, u), p.y, r.y);
  }

  // ---------------------------------------------------------------------------------------
  // Complete addition
  // ---------------------------------------------------------------------------------------

  /** `SepticCurveComplete`. */
  datatype Complete<E> = Infinity | Affine(point: Point<E>)

  /** `SepticCurveComplete::add`. */
  function Add<E(==)>(c: Curve<E>, p: Complete<E>, q: Complete<E>): Complete<E> {
    if p.Infinity? then q
    else if q.Infinity? then p
    else if p.point.x != q.point.x then Affine(AddIncomplete(c.k, p.point, q.point))
    else if p.point.y == q.point.y then Affine(Double(c, p.point))
    else Infinity
  }

  ghost predicate OnComplete<E>(c: Curve<E>, p: Complete<E>) { p.Affine? ==> c.On(p.point) }

  /** Equal squares come from equal or opposite elements. */
  lemma RootsAreOpposite<E(!new)>(k: Field<E>, x: E, y: E)
    requires IsField(k) && k.mul(x, x) == k.mul(y, y)
    ensures x == y || x == k.neg(y)
  {
    hide IsField;
    // (x - y)(x + y) = x x - y y.
    var s := k.add(x, y);
    MulSub(k, s, x, y);
    Distrib(k, x, x, y);
    Distrib(k, y, x, y);
    MulComm(k, x, y);
    AddComm(k, k.mul(x, y), k.mul(y, y));
    SubCommon(k, k.mul(x, x), k.mul(y, y), k.mul(x, y));
    SubZero(k, k.mul(x, x), k.mul(y, y));
    NoZeroDivisor(k, k.Sub(x, y), s);
    SubZero(k, x, y);
    if s == k.zero {
      AddNeg(k, y);
      AddComm(k, x, y);
      AddCancel(k, y, x, k.neg(y));
    }
  }

  /** Complete addition stays on the curve, and is infinity for two points exactly when they
      are opposite; only doubling a point that is its own opposite divides by zero. */
  lemma AddOnCurve<E(!new)>(c: Curve<E>, p: Complete<E>, q: Complete<E>)
    requires IsField(c.k) && OnComplete(c, p) && OnComplete(c, q)
    requires p == q && p.Affine? ==> Twice(c.k, p.point.y) != c.k.zero
    ensures OnComplete(c, Add(c, p, q))
    ensures p.Affine? && q.Affine? ==> (Add(c, p, q) == Infinity <==> q.point == Neg(c.k, p.point))
  {
    hide IsField, AddIncomplete, Double;
    if p.Affine? && q.Affine? {
      var k := c.k;
      if p.point.x != q.point.x { SumOnCurve(c, p.point, q.point); }
      else {
        RootsAreOpposite(k, q.point.y, p.point.y);
        if p == q {
          DoubleOnCurve(c, p.point);
          AddNeg(k, p.point.y);
        }
      }
    }
  }

  /** What complete addition returns: infinity is neutral; points with different x give the
      point at which both checkers vanish; a point and itself give the point that satisfies
      the tangent's equations. */
  lemma AddExactly<E(!new)>(c: Curve<E>, p: Complete<E>, q: Complete<E>)
    requires IsField(c.k)
    ensures Add(c, Infinity, q) == q && Add(c, p, Infinity) == p
    ensures p.Affine? && q.Affine? && p.point.x != q.point.x ==>
      var r := Add(c, p, q);
      && r.Affine?
      && SumCheckerX(c.k, p.point, q.point, r.point) == c.k.zero
      && SumCheckerY(c.k, p.point, q.point, r.point) == c.k.zero
    ensures p.Affine? && p == q && Twice(c.k, p.point.y) != c.k.zero ==>
      var r, k := Add(c, p, q), c.k;
      var d, xx := Twice(k, p.point.y), k.mul(p.point.x, p.point.x);
      var e := k.add(k.add(Twice(k, xx), xx), c.a);
      && r.Affine?
      && k.mul(k.add(Twice(k, p.point.x), r.point.x), k.mul(d, d)) == k.mul(e, e)
      && k.mul(k.add(p.point.y, r.point.y), d) == k.mul(e, k.Sub(p.point.x, r.point.x))
    ensures p.Affine? && q.Affine? && p.point.x == q.point.x && p.point.y != q.point.y ==> Add(c, p, q) == Infinity
  {
    hide IsField, AddIncomplete, Double, SumCheckerX, SumCheckerY, Twice;
    if p.Affine? && q.Affine? && p.point.x != q.point.x {
      CheckersExact(c.k, p.point, q.point, AddIncomplete(c.k, p.point, q.point));
    }
    if p.Affine? && p == q && Twice(c.k, p.point.y) != c.k.zero {
      DoubleExact(c, p.point, Double(c, p.point));
    }
  }
}
