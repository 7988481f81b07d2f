/** What the simplifier finds, by shape alone and in both directions: which products are guards
    and which constraints are rewritten. */
module PicusExact {
  import opened Options
  import opened PicusLang
  import opened PicusGuards
  import opened PicusUses
  import opened PicusRewrite

  // ---------------------------------------------------------------------------------------
  // Guards
  // ---------------------------------------------------------------------------------------

  /** A product of known guards, ones, and complements of guards other than one. */
  predicate IsProduct(e: Expr, known: set<nat>) {
    || e == Const(1)
    || (e.Var? && e.id in known)
    || (e.Mul? && IsProduct(e.left, known) && IsProduct(e.right, known))
    || (e.Sub? && e.left == Const(1) && IsComplemented(e.right, known))
    || (e.Neg? && e.inner.Sub? && e.inner.right == Const(1) && IsComplemented(e.inner.left, known))
  }

  predicate IsComplemented(g: Expr, known: set<nat>) {
    g != Const(1) && GuardShape(g) && Vars(g) <= known
  }

  /** Made of ones only, 1 - 0 and -(0 - 1) included. */
  predicate IsOne(e: Expr) {
    || e == Const(1) || e == Sub(Const(1), Const(0)) || e == Neg(Sub(Const(0), Const(1)))
    || (e.Mul? && IsOne(e.left) && IsOne(e.right))
  }

  lemma {:induction false} GuardCountIs(e: Expr, known: set<nat>)
    ensures GuardFactorCount(e, known).Some? <==> IsProduct(e, known)
    ensures IsProduct(e, known) ==> (GuardFactorCount(e, known).value == 0 <==> IsOne(e))
  {
    if e.Mul? {
      GuardCountIs(e.left, known);
      GuardCountIs(e.right, known);
    } else if e.Sub? && e.left == Const(1) {
      BooleanGuardIs(e.right, known);
    } else if e.Neg? && e.inner.Sub? && e.inner.right == Const(1) {
      BooleanGuardIs(e.inner.left, known);
    }
  }

  /** A guard is such a product that is not made of ones only. */
  lemma GuardExactly(e: Expr, known: set<nat>)
    ensures IsGuard(e, known) <==> IsProduct(e, known) && !IsOne(e)
  {
    GuardCountIs(e, known);
  }

  // ---------------------------------------------------------------------------------------
  // Rewriting
  // ---------------------------------------------------------------------------------------

  predicate Times(e: Expr, g: Expr, f: Expr) { e == Mul(g, f) || e == Mul(f, g) }

  /** `c` is a guard g times a bit constraint on x, or times a range constraint on x with its
      bound plain or times the same guard; `bare` is the constraint without the guard. */
  predicate GuardedShape(c: Constraint, bare: Constraint, g: Expr, x: nat, n: nat, known: set<nat>) {
    && IsProduct(g, known) && !IsOne(g)
    && (|| (&& bare == Eq(Mul(Var(x), Sub(Var(x), Const(1)))) && c.Eq?
            && (|| Times(c.e, g, Mul(Var(x), Sub(Var(x), Const(1))))
                || Times(c.e, g, Mul(Sub(Var(x), Const(1)), Var(x)))))
        || (bare == Leq(Var(x), Const(n)) && c.Leq? && Times(c.l, g, Var(x)) && BoundShape(c.r, g, n))
        || (bare == Lt(Var(x), Const(n)) && c.Lt? && Times(c.l, g, Var(x)) && BoundShape(c.r, g, n)))
  }

  predicate BoundShape(r: Expr, g: Expr, n: nat) { r == Const(n) || Times(r, g, Const(n)) }

  lemma BitIsNoGuard(b: Expr, x: nat, known: set<nat>)
    requires b == Mul(Var(x), Sub(Var(x), Const(1))) || b == Mul(Sub(Var(x), Const(1)), Var(x))
    ensures !IsGuard(b, known) && MatchBit(b) == Some(x)
  {
    assert GuardFactorCount(Sub(Var(x), Const(1)), known).None?;
  }

  /** Every guarded constraint on a dominated variable that is not itself a guard is rewritten
      to the constraint without its guard. */
  lemma GuardedIsRewritten(c: Constraint, bare: Constraint, g: Expr, x: nat, n: nat, known: set<nat>,
                           dominated: set<nat>)
    requires GuardedShape(c, bare, g, x, n, known) && x in dominated && (c.Eq? || x !in known)
    ensures Normalize(c, known, dominated) == bare
  {
    if c.Eq? {
      var b := Sub(Var(x), Const(1));
      GuardedBit(c.e, g, if Times(c.e, g, Mul(Var(x), b)) then Mul(Var(x), b) else Mul(b, Var(x)), x, known);
    } else {
      GuardedRange(c.l, c.r, g, x, n, known, dominated);
    }
  }

  lemma GuardedBit(e: Expr, g: Expr, b: Expr, x: nat, known: set<nat>)
    requires IsProduct(g, known) && !IsOne(g) && Times(e, g, b)
    requires b == Mul(Var(x), Sub(Var(x), Const(1))) || b == Mul(Sub(Var(x), Const(1)), Var(x))
    ensures MatchGuardedBit(e, known) == Some(x)
  {
    GuardExactly(g, known);
    BitIsNoGuard(b, x, known);
    hide IsGuard, IsProduct, IsOne, MatchBit;
  }

  lemma GuardedRange(l: Expr, r: Expr, g: Expr, x: nat, n: nat, known: set<nat>, dominated: set<nat>)
    requires IsProduct(g, known) && !IsOne(g) && Times(l, g, Var(x)) && BoundShape(r, g, n)
    requires x in dominated && x !in known
    ensures StripComparison(l, r, known, dominated) == Some((x, n))
  {
    GuardExactly(g, known);
    assert !IsGuard(Var(x), known) && !IsGuard(Const(n), known);
    hide IsGuard, IsProduct, IsOne;
  }

  /** And nothing else is rewritten. */
  lemma OnlyGuardedIsRewritten(c: Constraint, known: set<nat>, dominated: set<nat>)
    requires Normalize(c, known, dominated) != c
    ensures exists g, x, n :: GuardedShape(c, Normalize(c, known, dominated), g, x, n, known) && x in dominated
  {
    hide Normalize, IsGuard, GuardedShape;
    var bare := Normalize(c, known, dominated);
    var g, x := RewriteIsStripping(c, known, dominated);
    var n := StrippedHasShape(c, bare, g, x, known);
    assert GuardedShape(c, bare, g, x, n, known);
  }

  lemma StrippedHasShape(c: Constraint, bare: Constraint, g: Expr, x: nat, known: set<nat>) returns (n: nat)
    requires Stripped(c, bare, g, x, known)
    ensures GuardedShape(c, bare, g, x, n, known)
  {
    GuardExactly(g, known);
    hide IsGuard, IsProduct, IsOne;
    if c.Eq? {
      var b :| IsBitOf(b, x) && (c.e == Mul(g, b) || c.e == Mul(b, g));
      MatchBitIs(Eq(b), x);
      n := 0;
    } else {
      n :| StrippedBound(c.r, g, n) && (bare == Leq(Var(x), Const(n)) || bare == Lt(Var(x), Const(n)));
    }
  }

  /** In a round: every guarded constraint on a dominated variable loses its guard. */
  lemma RoundStripsAll(m: Module, m': Module, known: set<nat>, c: Constraint, bare: Constraint, g: Expr, x: nat, n: nat)
    requires Round(m, m', known) && c in m.constraints && GuardedShape(c, bare, g, x, n, known)
    requires x in DominatedVars(m, InterfaceVars(m), known)
    ensures bare in m'.constraints
  {
    var d := DominatedVars(m, InterfaceVars(m), known);
    ShapeIsStripped(c, bare, g, x, n, known);
    DominatedIsNotGuard(m, c, bare, g, x, known);
    hide DominatedVars, Normalize, Stripped, GuardedShape, RoundOf, IsKnownGuards, InterfaceVars;
    GuardedIsRewritten(c, bare, g, x, n, known, d);
    RoundMembers(m, m', known);
  }

  lemma ShapeIsStripped(c: Constraint, bare: Constraint, g: Expr, x: nat, n: nat, known: set<nat>)
    requires GuardedShape(c, bare, g, x, n, known)
    ensures Stripped(c, bare, g, x, known)
  {
    GuardExactly(g, known);
    hide IsGuard, IsProduct, IsOne;
    if c.Eq? {
      var b := if Times(c.e, g, Mul(Var(x), Sub(Var(x), Const(1)))) then Mul(Var(x), Sub(Var(x), Const(1)))
               else Mul(Sub(Var(x), Const(1)), Var(x));
      assert IsBitOf(b, x) && (c.e == Mul(g, b) || c.e == Mul(b, g));
    } else {
      assert StrippedBound(c.r, g, n);
    }
  }
}
