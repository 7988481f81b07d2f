/** Inference of boolean guards (`collect_known_guard_vars` and its matchers). */
module PicusGuards {
  import opened Options
  import opened Arithmetic
  import opened PicusLang
  import opened Collections

  function AsVar(e: Expr): Option<nat> {
    if e.Var? then Some(e.id) else None
  }

  predicate IsVarMinusOne(e: Expr, x: nat) {
    e.Sub? && e.left == Var(x) && e.right == Const(1)
  }

  /** `x * (x - 1)` or `(x - 1) * x`. */
  function MatchBit(e: Expr): Option<nat> {
    if !e.Mul? then None
    else if e.left.Var? && IsVarMinusOne(e.right, e.left.id) then Some(e.left.id)
    else if e.right.Var? && IsVarMinusOne(e.left, e.right.id) then Some(e.right.id)
    else None
  }

  predicate IsBooleanGuard(e: Expr, known: set<nat>) {
    match e
    case Const(c) => c == 0 || c == 1
    case Var(x) => x in known
    case Mul(a, b) => IsBooleanGuard(a, known) && IsBooleanGuard(b, known)
    case Sub(a, b) => a == Const(1) && IsBooleanGuard(b, known)
    case Neg(a) => a.Sub? && a.right == Const(1) && IsBooleanGuard(a.left, known)
    case _ => false
  }

  /** The count of a complemented factor. */
  function ComplementCount(e: Expr, known: set<nat>, inner: Option<nat>): Option<nat> {
    if e == Const(0) then Some(0)
    else if e == Const(1) then None
    else if IsBooleanGuard(e, known) then
      Some(if inner.Some? && inner.value > 1 then inner.value else 1)
    else None
  }

  /** Number of known guards multiplied in a guard product, if it is one. */
  function GuardFactorCount(e: Expr, known: set<nat>): Option<nat> {
    match e
    case Const(c) => if c == 1 then Some(0) else None
    case Var(x) => if x in known then Some(1) else None
    case Mul(a, b) =>
      var ca, cb := GuardFactorCount(a, known), GuardFactorCount(b, known);
      if ca.Some? && cb.Some? then Some(ca.value + cb.value) else None
    case Sub(a, b) =>
      if a == Const(1) then ComplementCount(b, known, GuardFactorCount(b, known)) else None
    case Neg(a) =>
      if a.Sub? && a.right == Const(1) then ComplementCount(a.left, known, GuardFactorCount(a.left, known))
      else None
    case _ => None
  }

  predicate IsGuard(e: Expr, known: set<nat>) {
    var c := GuardFactorCount(e, known);
    c.Some? && c.value > 0
  }

  function MatchGuardDefinition(e: Expr, known: set<nat>): Option<nat> {
    if !e.Sub? then None
    else if e.left.Var? && IsBooleanGuard(e.right, known) then Some(e.left.id)
    else if e.right.Var? && IsBooleanGuard(e.left, known) then Some(e.right.id)
    else None
  }

  function Infer(c: Constraint, known: set<nat>): Option<nat> {
    if !c.Eq? then None
    else if MatchBit(c.e).Some? then MatchBit(c.e)
    else MatchGuardDefinition(c.e, known)
  }

  // ----- The guards are the least set closed under inference -----

  predicate Closed(cs: seq<Constraint>, known: set<nat>) {
    forall c | c in cs :: Infer(c, known).Some? ==> Infer(c, known).value in known
  }

  ghost predicate IsKnownGuards(cs: seq<Constraint>, known: set<nat>) {
    Closed(cs, known) && forall k: set<nat> | Closed(cs, k) :: known <= k
  }

  lemma {:induction false} BooleanGuardMonotone(e: Expr, k: set<nat>, k': set<nat>)
    requires k <= k' && IsBooleanGuard(e, k)
    ensures IsBooleanGuard(e, k')
  {
    match e
    case Const(_) =>
    case Var(_) =>
    case Mul(a, b) => BooleanGuardMonotone(a, k, k'); BooleanGuardMonotone(b, k, k');
    case Sub(_, b) => BooleanGuardMonotone(b, k, k');
    case Neg(a) => BooleanGuardMonotone(a.left, k, k');
  }

  /** What a smaller set infers, every larger closed set already contains. */
  lemma InferMonotone(c: Constraint, k: set<nat>, k': set<nat>)
    requires k <= k' && Infer(c, k).Some?
    requires Infer(c, k').Some? ==> Infer(c, k').value in k'
    ensures Infer(c, k).value in k'
  {
    if MatchBit(c.e).None? {
      var e := c.e;
      if e.left.Var? && IsBooleanGuard(e.right, k) {
        BooleanGuardMonotone(e.right, k, k');
      } else {
        BooleanGuardMonotone(e.left, k, k');
        if e.left.Var? && IsBooleanGuard(e.right, k') {
          assert e.right.Var?;
        }
      }
    }
  }

  // ----- Known guards are the derivable ones -----

  /** Built from 0, 1 and variables by products and by complements 1 - g and -(g - 1). */
  predicate GuardShape(e: Expr) {
    || e == Const(0) || e == Const(1) || e.Var?
    || (e.Mul? && GuardShape(e.left) && GuardShape(e.right))
    || (e.Sub? && e.left == Const(1) && GuardShape(e.right))
    || (e.Neg? && e.inner.Sub? && e.inner.right == Const(1) && GuardShape(e.inner.left))
  }

  /** x (x - 1) = 0, in either order. */
  predicate BitShape(c: Constraint, x: nat) {
    || c == Eq(Mul(Var(x), Sub(Var(x), Const(1))))
    || c == Eq(Mul(Sub(Var(x), Const(1)), Var(x)))
  }

  /** x - g = 0 or g - x = 0. */
  predicate AliasShape(c: Constraint, x: nat, g: Expr) {
    GuardShape(g) && (c == Eq(Sub(Var(x), g)) || c == Eq(Sub(g, Var(x))))
  }

  /** A derivation of at most n steps: a bit constraint on x, or an alias of a guard all of
      whose variables are derived. */
  ghost predicate Derived(cs: seq<Constraint>, x: nat, n: nat)
    decreases n, 0
  {
    n > 0 && exists c | c in cs ::
      BitShape(c, x) || exists g :: AliasShape(c, x, g) && VarsDerived(cs, Vars(g), n - 1)
  }

  ghost predicate VarsDerived(cs: seq<Constraint>, xs: set<nat>, n: nat)
    decreases n, 1
  {
    forall y | y in xs :: Derived(cs, y, n)
  }

  ghost predicate Derivable(cs: seq<Constraint>, x: nat) { exists n: nat :: Derived(cs, x, n) }

  lemma {:induction false} BooleanGuardIs(e: Expr, known: set<nat>)
    ensures IsBooleanGuard(e, known) <==> GuardShape(e) && Vars(e) <= known
  {
    if e.Mul? {
      BooleanGuardIs(e.left, known);
      BooleanGuardIs(e.right, known);
    } else if e.Sub? && e.left == Const(1) {
      BooleanGuardIs(e.right, known);
      assert Vars(e.left) == {};
    } else if e.Neg? && e.inner.Sub? && e.inner.right == Const(1) {
      BooleanGuardIs(e.inner.left, known);
      assert Vars(e.inner.right) == {} && Vars(e) == Vars(e.inner) == Vars(e.inner.left) + Vars(e.inner.right);
    }
  }

  lemma MatchBitIs(c: Constraint, x: nat)
    requires c.Eq?
    ensures MatchBit(c.e) == Some(x) <==> BitShape(c, x)
  {
  }

  /** What one constraint infers from a set: only what the shapes give. */
  lemma InferIs(c: Constraint, k: set<nat>)
    requires Infer(c, k).Some?
    ensures
      var x := Infer(c, k).value;
      BitShape(c, x) || exists g :: AliasShape(c, x, g) && Vars(g) <= k
  {
    var x := Infer(c, k).value;
    if MatchBit(c.e).Some? {
      MatchBitIs(c, x);
    } else {
      BooleanGuardIs(c.e.left, k);
      BooleanGuardIs(c.e.right, k);
      var g := if c.e.left.Var? && IsBooleanGuard(c.e.right, k) then c.e.right else c.e.left;
      assert AliasShape(c, x, g) && Vars(g) <= k;
    }
  }

  /** And a closed set has everything the shapes give. */
  lemma ClosedHas(cs: seq<Constraint>, k: set<nat>, c: Constraint, x: nat, g: Expr)
    requires Closed(cs, k) && c in cs
    requires BitShape(c, x) || (AliasShape(c, x, g) && Vars(g) <= k)
    ensures x in k
  {
    if BitShape(c, x) {
      MatchBitIs(c, x);
    } else {
      assert MatchBit(c.e).None?;
      BooleanGuardIs(c.e.left, k);
      BooleanGuardIs(c.e.right, k);
      BooleanGuardIs(Var(x), k);
      assert Infer(c, k) == MatchGuardDefinition(c.e, k);
    }
  }

  lemma {:induction false} DerivedIsKnown(cs: seq<Constraint>, k: set<nat>, x: nat, n: nat)
    requires Closed(cs, k) && Derived(cs, x, n)
    ensures x in k
    decreases n
  {
    hide Closed, BitShape, AliasShape;
    var c :| c in cs
      && (BitShape(c, x) || exists g :: AliasShape(c, x, g) && VarsDerived(cs, Vars(g), n - 1));
    if BitShape(c, x) {
      ClosedHas(cs, k, c, x, Const(0));
    } else {
      var g :| AliasShape(c, x, g) && VarsDerived(cs, Vars(g), n - 1);
      forall y | y in Vars(g) ensures y in k { DerivedIsKnown(cs, k, y, n - 1); }
      ClosedHas(cs, k, c, x, g);
    }
  }

  lemma {:induction false} DerivedLater(cs: seq<Constraint>, x: nat, n: nat, m: nat)
    requires Derived(cs, x, n) && n <= m
    ensures Derived(cs, x, m)
    decreases n
  {
    hide BitShape, AliasShape;
    var c :| c in cs
      && (BitShape(c, x) || exists g :: AliasShape(c, x, g) && VarsDerived(cs, Vars(g), n - 1));
    if !BitShape(c, x) {
      var g :| AliasShape(c, x, g) && VarsDerived(cs, Vars(g), n - 1);
      forall y | y in Vars(g) ensures Derived(cs, y, m - 1) { DerivedLater(cs, y, n - 1, m - 1); }
      assert VarsDerived(cs, Vars(g), m - 1);
    }
  }

  /** Finitely many derived variables are derived within one bound. */
  lemma {:induction false} CommonBound(cs: seq<Constraint>, xs: set<nat>) returns (n: nat)
    requires forall y | y in xs :: Derivable(cs, y)
    ensures VarsDerived(cs, xs, n)
    decreases xs
  {
    if xs == {} {
      n := 0;
    } else {
      var x :| x in xs;
      var rest := CommonBound(cs, xs - {x});
      var k: nat :| Derived(cs, x, k);
      n := if k < rest then rest else k;
      forall y | y in xs ensures Derived(cs, y, n) {
        if y == x { DerivedLater(cs, x, k, n); } else { DerivedLater(cs, y, rest, n); }
      }
    }
  }

  /** A variable is a known guard if and only if it has a derivation. */
  lemma KnownExactly(cs: seq<Constraint>, known: set<nat>, x: nat)
    requires IsKnownGuards(cs, known)
    ensures x in known <==> Derivable(cs, x)
  {
    hide Derived, Infer;
    if Derivable(cs, x) {
      var n: nat :| Derived(cs, x, n);
      DerivedIsKnown(cs, known, x, n);
    }
    if x in known {
      var have := set y | y in known && Derivable(cs, y);
      hide Derivable;
      forall c | c in cs && Infer(c, have).Some? ensures Infer(c, have).value in have {
        InferMonotone(c, have, known);
        InferDerived(cs, have, c);
      }
      assert Closed(cs, have);
    }
  }

  lemma InferDerived(cs: seq<Constraint>, have: set<nat>, c: Constraint)
    requires c in cs && Infer(c, have).Some? && forall y | y in have :: Derivable(cs, y)
    ensures Derivable(cs, Infer(c, have).value)
  {
    hide Infer, BitShape, AliasShape;
    var x := Infer(c, have).value;
    InferIs(c, have);
    if BitShape(c, x) {
      assert Derived(cs, x, 1);
    } else {
      var g :| AliasShape(c, x, g) && Vars(g) <= have;
      var n := CommonBound(cs, Vars(g));
      assert Derived(cs, x, n + 1);
    }
  }

  /** All variables of the equations: an upper bound of what can be inferred. */
  function EqVars(cs: seq<Constraint>): set<nat> {
    if cs == [] then {}
    else (if cs[0].Eq? then Vars(cs[0].e) else {}) + EqVars(cs[1..])
  }

  lemma {:induction false} EqVarsMember(cs: seq<Constraint>, c: Constraint)
    requires c in cs && c.Eq?
    ensures Vars(c.e) <= EqVars(cs)
  {
    if cs[0] != c {
      EqVarsMember(cs[1..], c);
    }
  }

  lemma InferInVars(cs: seq<Constraint>, c: Constraint, k: set<nat>)
    requires c in cs && Infer(c, k).Some?
    ensures Infer(c, k).value in EqVars(cs)
  {
    EqVarsMember(cs, c);
    assert Infer(c, k).value in Vars(c.e) by {
      assert c.e.Mul? || c.e.Sub?;
      assert Vars(c.e.left) <= Vars(c.e) && Vars(c.e.right) <= Vars(c.e);
    }
  }

  /** The fixpoint loop ends, and ends with the least closed set, whatever the order
      of the constraints. */
  method CollectKnownGuards(cs: seq<Constraint>) returns (known: set<nat>)
    ensures IsKnownGuards(cs, known)
    ensures forall x :: x in known <==> Derivable(cs, x)
  {
    hide Derivable;
    known := {};
    var changed := true;
    while changed
      invariant known <= EqVars(cs)
      invariant forall k: set<nat> | Closed(cs, k) :: known <= k
      invariant !changed ==> Closed(cs, known)
      decreases |EqVars(cs) - known|, changed
    {
      changed := false;
      ghost var before := known;
      for i := 0 to |cs|
        invariant before <= known <= EqVars(cs)
        invariant forall k: set<nat> | Closed(cs, k) :: known <= k
        invariant changed <==> before < known
        invariant !changed ==> forall j | 0 <= j < i :: Infer(cs[j], known).Some? ==> Infer(cs[j], known).value in known
      {
        var inferred := Infer(cs[i], known);
        if inferred.Some? {
          InferInVars(cs, cs[i], known);
          forall k: set<nat> | Closed(cs, k) ensures inferred.value in k {
            InferMonotone(cs[i], known, k);
          }
          assert inferred.value in known ==> known + {inferred.value} == known;
          changed := changed || inferred.value !in known;
          known := known + {inferred.value};
        }
      }
      if changed {
        Shrinks(EqVars(cs), before, known);
      } else {
        assert known == before;
      }
    }
    forall x ensures x in known <==> Derivable(cs, x) { KnownExactly(cs, known, x); }
  }

  lemma Shrinks(all: set<nat>, a: set<nat>, b: set<nat>)
    requires a < b <= all
    ensures |all - b| < |all - a|
  {
    var x :| x in b && x !in a;
    assert all - b <= all - a - {x};
    SubsetSize(all - b, all - a - {x});
  }

  // ----- Soundness -----

  ghost predicate BooleanOn(known: set<nat>, s: Env, p: int)
    requires p > 0
  {
    forall x | x in known :: s(x) % p == 0 || s(x) % p == 1
  }

  predicate IsBool(v: int) {
    v == 0 || v == 1
  }

  lemma BoolProduct(x: int, y: int, p: int)
    requires p > 1 && IsBool(x) && IsBool(y)
    ensures FMul(x, y, p) == x * y && IsBool(x * y)
    ensures FMul(x, y, p) == 1 <==> x == 1 && y == 1
  {
  }

  lemma BoolComplement(x: int, p: int)
    requires p > 1 && IsBool(x)
    ensures FSub(1, x, p) == 1 - x && FSub(0, FSub(x, 1, p), p) == 1 - x
  {
    if x == 0 {
      assert (-1) % p == p - 1;
      assert (-(p - 1)) % p == 1 by { Remainder(1, -1, p); }
    }
  }

  /** Both ways of writing a complement. */
  lemma ComplementValue(e: Expr, s: Env, p: int)
    requires p > 1 && IsBool(Eval(e, s, p))
    ensures Eval(Sub(Const(1), e), s, p) == 1 - Eval(e, s, p)
    ensures Eval(Neg(Sub(e, Const(1))), s, p) == 1 - Eval(e, s, p)
  {
    hide FMul, FSub, Eval;
    BoolComplement(Eval(e, s, p), p);
    EvalOne(s, p);
    EvalSub(Const(1), e, s, p);
    EvalSub(e, Const(1), s, p);
    EvalNeg(Sub(e, Const(1)), s, p);
  }

  lemma EvalOne(s: Env, p: int)
    requires p > 1
    ensures Eval(Const(1), s, p) == 1
  {
    hide FMul, FSub, FAdd, PowMod, Inverse;
  }

  lemma EvalSub(a: Expr, b: Expr, s: Env, p: int)
    requires p > 0
    ensures Eval(Sub(a, b), s, p) == FSub(Eval(a, s, p), Eval(b, s, p), p)
  {
    hide FMul, FSub, FAdd, PowMod, Inverse;
  }

  lemma EvalNeg(a: Expr, s: Env, p: int)
    requires p > 0
    ensures Eval(Neg(a), s, p) == FSub(0, Eval(a, s, p), p)
  {
    hide FMul, FSub, FAdd, PowMod, Inverse;
  }

  lemma AtomValue(e: Expr, known: set<nat>, s: Env, p: int)
    requires p > 1 && BooleanOn(known, s, p)
    requires e == Const(0) || e == Const(1) || (e.Var? && e.id in known)
    ensures IsBool(Eval(e, s, p)) && (e.Const? ==> Eval(e, s, p) == e.c)
  {
  }

  lemma ProductBool(a: Expr, b: Expr, s: Env, p: int)
    requires p > 1 && IsBool(Eval(a, s, p)) && IsBool(Eval(b, s, p))
    ensures IsBool(Eval(Mul(a, b), s, p))
    ensures Eval(Mul(a, b), s, p) == 1 <==> Eval(a, s, p) == 1 && Eval(b, s, p) == 1
  {
    hide FMul;
    BoolProduct(Eval(a, s, p), Eval(b, s, p), p);
  }

  lemma {:induction false} BooleanGuardValue(e: Expr, known: set<nat>, s: Env, p: int)
    requires p > 1 && BooleanOn(known, s, p) && IsBooleanGuard(e, known)
    ensures IsBool(Eval(e, s, p))
  {
    hide Eval, BooleanOn;
    match e
    case Const(_) => AtomValue(e, known, s, p);
    case Var(_) => AtomValue(e, known, s, p);
    case Mul(a, b) =>
      BooleanGuardValue(a, known, s, p);
      BooleanGuardValue(b, known, s, p);
      ProductBool(a, b, s, p);
    case Sub(a, b) =>
      BooleanGuardValue(b, known, s, p);
      ComplementValue(b, s, p);
    case Neg(a) =>
      BooleanGuardValue(a.left, known, s, p);
      ComplementValue(a.left, s, p);
  }

  /** A product without guards is 1, a product of guards is 0 or 1. */
  lemma {:induction false} GuardValue(e: Expr, known: set<nat>, s: Env, p: int)
    requires p > 1 && BooleanOn(known, s, p) && GuardFactorCount(e, known).Some?
    ensures IsBool(Eval(e, s, p))
    ensures GuardFactorCount(e, known) == Some(0) ==> Eval(e, s, p) == 1
  {
    hide Eval, BooleanOn;
    match e
    case Const(_) => AtomValue(e, known, s, p);
    case Var(_) => AtomValue(e, known, s, p);
    case Mul(a, b) =>
      GuardValue(a, known, s, p);
      GuardValue(b, known, s, p);
      ProductBool(a, b, s, p);
    case Sub(a, b) =>
      ComplementGuard(b, known, s, p);
    case Neg(a) =>
      ComplementGuard(a.left, known, s, p);
  }

  lemma ComplementGuard(e: Expr, known: set<nat>, s: Env, p: int)
    requires p > 1 && BooleanOn(known, s, p) && ComplementCount(e, known, GuardFactorCount(e, known)).Some?
    ensures IsBool(Eval(Sub(Const(1), e), s, p)) && IsBool(Eval(Neg(Sub(e, Const(1))), s, p))
    ensures ComplementCount(e, known, GuardFactorCount(e, known)) == Some(0) ==>
      Eval(Sub(Const(1), e), s, p) == 1 && Eval(Neg(Sub(e, Const(1))), s, p) == 1
  {
    hide Eval, BooleanOn;
    BooleanGuardValue(e, known, s, p);
    ComplementValue(e, s, p);
    if e == Const(0) {
      AtomValue(e, known, s, p);
    }
  }

  lemma EvalBit(x: nat, s: Env, p: int)
    requires p > 1
    ensures Eval(Sub(Var(x), Const(1)), s, p) == FSub(Eval(Var(x), s, p), 1, p)
  {
    assert Eval(Const(1), s, p) == 1;
  }

  lemma BitSound(e: Expr, s: Env, p: int)
    requires Prime(p) && MatchBit(e).Some? && Eval(e, s, p) == 0
    ensures IsBool(s(MatchBit(e).value) % p)
  {
    hide FMul, FSub, NoDivisors;
    var x := MatchBit(e).value;
    EvalBit(x, s, p);
    assert e == Mul(Var(x), Sub(Var(x), Const(1))) || e == Mul(Sub(Var(x), Const(1)), Var(x));
    BitValues(Eval(Var(x), s, p), p);
  }

  lemma InferSound(c: Constraint, known: set<nat>, s: Env, p: int)
    requires Prime(p) && BooleanOn(known, s, p) && Holds(c, s, p) && Infer(c, known).Some?
    ensures IsBool(s(Infer(c, known).value) % p)
  {
    hide FMul, FSub, NoDivisors;
    var e := c.e;
    if MatchBit(e).Some? {
      BitSound(e, s, p);
    } else if e.left.Var? && IsBooleanGuard(e.right, known) {
      BooleanGuardValue(e.right, known, s, p);
      DifferenceZero(Eval(e.left, s, p), Eval(e.right, s, p), p);
    } else {
      BooleanGuardValue(e.left, known, s, p);
      DifferenceZero(Eval(e.left, s, p), Eval(e.right, s, p), p);
    }
  }

  lemma DifferenceZero(x: int, y: int, p: int)
    requires p > 0 && 0 <= x < p && 0 <= y < p && FSub(x, y, p) == 0
    ensures x == y
  {
    if x < y {
      Remainder(x - y + p, -1, p);
    }
  }

  /** The only shapes anything is inferred from. */
  predicate CanInfer(c: Constraint) {
    c.Eq? && (MatchBit(c.e).Some? || c.e.Sub?)
  }

  /** Every inferred guard is 0 or 1 in every assignment that satisfies the
      constraints guards are inferred from. */
  lemma KnownGuardsSound(cs: seq<Constraint>, known: set<nat>, s: Env, p: int)
    requires Prime(p) && IsKnownGuards(cs, known) && forall c | c in cs && CanInfer(c) :: Holds(c, s, p)
    ensures BooleanOn(known, s, p)
  {
    var bools := set x | x in known && IsBool(s(x) % p);
    forall c | c in cs && Infer(c, bools).Some? ensures Infer(c, bools).value in bools {
      InferSound(c, bools, s, p);
      InferMonotone(c, bools, known);
    }
    assert Closed(cs, bools);
    assert known <= bools;
  }
}
