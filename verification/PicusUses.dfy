/** Where variables occur relative to guards (`collect_*_guarded_uses`,
    `collect_dominated_vars`), and why a dominated variable does not matter while
    its guards are off. */
module PicusUses {
  import opened PicusLang
  import opened PicusGuards

  datatype Uses = Uses(guarded: set<nat>, unguarded: set<nat>) {
    function Join(other: Uses): Uses {
      Uses(guarded + other.guarded, unguarded + other.unguarded)
    }
  }

  const NO_USES := Uses({}, {})

  function ExprUses(e: Expr, active: bool, known: set<nat>): Uses {
    match e
    case Const(_) => NO_USES
    case Var(x) => if active then Uses({x}, {}) else Uses({}, {x})
    case Neg(a) => ExprUses(a, active, known)
    case Pow(_, a) => ExprUses(a, active, known)
    case Mul(a, b) =>
      (match (GuardFactorCount(a, known), GuardFactorCount(b, known))
       case (Some(n), None) => ExprUses(a, active, known).Join(ExprUses(b, active || n > 0, known))
       case (None, Some(n)) => ExprUses(a, active || n > 0, known).Join(ExprUses(b, active, known))
       case _ => ExprUses(a, active, known).Join(ExprUses(b, active, known)))
    case _ => ExprUses(e.left, active, known).Join(ExprUses(e.right, active, known))
  }

  function ConstraintUses(c: Constraint, active: bool, known: set<nat>): Uses {
    match c
    case Eq(e) => ExprUses(e, active, known)
    case Det(e) => ExprUses(e, active, known)
    case Not(a) => ConstraintUses(a, active, known)
    case Implies(a, b) => ConstraintUses(a, active, known).Join(ConstraintUses(b, active, known))
    case Iff(a, b) => ConstraintUses(a, active, known).Join(ConstraintUses(b, active, known))
    case And(a, b) => ConstraintUses(a, active, known).Join(ConstraintUses(b, active, known))
    case Or(a, b) => ConstraintUses(a, active, known).Join(ConstraintUses(b, active, known))
    case _ => ExprUses(c.l, active, known).Join(ExprUses(c.r, active, known))
  }

  function ExprsUses(es: seq<Expr>, known: set<nat>): Uses {
    if es == [] then NO_USES else ExprUses(es[0], false, known).Join(ExprsUses(es[1..], known))
  }

  function ConstraintsUses(cs: seq<Constraint>, known: set<nat>): Uses {
    if cs == [] then NO_USES else ConstraintUses(cs[0], false, known).Join(ConstraintsUses(cs[1..], known))
  }

  function CallsUses(calls: seq<Call>, known: set<nat>): Uses {
    if calls == [] then NO_USES
    else ExprsUses(calls[0].inputs, known).Join(ExprsUses(calls[0].outputs, known)).Join(CallsUses(calls[1..], known))
  }

  function ModuleUses(m: Module, known: set<nat>): Uses {
    ConstraintsUses(m.constraints, known)
      .Join(ConstraintsUses(m.postconditions, known))
      .Join(ExprsUses(m.assumeDeterministic, known))
      .Join(ExprsUses(m.inputs, known))
      .Join(ExprsUses(m.outputs, known))
      .Join(CallsUses(m.calls, known))
  }

  function DominatedVars(m: Module, protected: set<nat>, known: set<nat>): set<nat> {
    var uses := ModuleUses(m, known);
    uses.guarded - uses.unguarded - protected
  }

  // ----- The guards a variable stands under -----

  /** The outermost guards that enclose an occurrence of `x`. */
  function GuardsOf(e: Expr, x: nat, known: set<nat>): set<Expr> {
    match e
    case Const(_) => {}
    case Var(_) => {}
    case Neg(a) => GuardsOf(a, x, known)
    case Pow(_, a) => GuardsOf(a, x, known)
    case Mul(a, b) =>
      (match (GuardFactorCount(a, known), GuardFactorCount(b, known))
       case (Some(n), None) =>
         GuardsOf(a, x, known) + if n > 0 then (if x in Vars(b) then {a} else {}) else GuardsOf(b, x, known)
       case (None, Some(n)) =>
         GuardsOf(b, x, known) + if n > 0 then (if x in Vars(a) then {b} else {}) else GuardsOf(a, x, known)
       case _ => GuardsOf(a, x, known) + GuardsOf(b, x, known))
    case _ => GuardsOf(e.left, x, known) + GuardsOf(e.right, x, known)
  }

  function ConstraintGuards(c: Constraint, x: nat, known: set<nat>): set<Expr> {
    match c
    case Eq(e) => GuardsOf(e, x, known)
    case Det(e) => GuardsOf(e, x, known)
    case Not(a) => ConstraintGuards(a, x, known)
    case Implies(a, b) => ConstraintGuards(a, x, known) + ConstraintGuards(b, x, known)
    case Iff(a, b) => ConstraintGuards(a, x, known) + ConstraintGuards(b, x, known)
    case And(a, b) => ConstraintGuards(a, x, known) + ConstraintGuards(b, x, known)
    case Or(a, b) => ConstraintGuards(a, x, known) + ConstraintGuards(b, x, known)
    case _ => GuardsOf(c.l, x, known) + GuardsOf(c.r, x, known)
  }

  function ConstraintsGuards(cs: seq<Constraint>, x: nat, known: set<nat>): set<Expr> {
    if cs == [] then {} else ConstraintGuards(cs[0], x, known) + ConstraintsGuards(cs[1..], x, known)
  }

  function ExprsGuards(es: seq<Expr>, x: nat, known: set<nat>): set<Expr> {
    if es == [] then {} else GuardsOf(es[0], x, known) + ExprsGuards(es[1..], x, known)
  }

  /** The guards of `x` in everything of the module that may mention a hidden variable. */
  function ModuleGuards(m: Module, x: nat, known: set<nat>): set<Expr> {
    ConstraintsGuards(m.constraints, x, known) + ConstraintsGuards(m.postconditions, x, known)
    + ExprsGuards(m.assumeDeterministic, x, known)
  }

  /** The analysis is exact: an inactive occurrence is either recorded as unguarded or
      stands under one of the guards, never neither. */
  lemma {:induction false} EveryUseSeen(e: Expr, x: nat, known: set<nat>)
    ensures x in Vars(e) <==>
      x in ExprUses(e, false, known).unguarded || GuardsOf(e, x, known) != {}
    ensures x in ExprUses(e, false, known).guarded <==> GuardsOf(e, x, known) != {}
    ensures ExprUses(e, true, known) == Uses(Vars(e), {})
  {
    match e
    case Const(_) =>
    case Var(_) =>
    case Neg(a) => EveryUseSeen(a, x, known);
    case Pow(_, a) => EveryUseSeen(a, x, known);
    case _ =>
      EveryUseSeen(e.left, x, known);
      EveryUseSeen(e.right, x, known);
  }

  // ----- Noninterference -----

  /** Two assignments differ only in variables that `e` uses under guards, and those
      guards are all 0. */
  ghost predicate ExprImmune(e: Expr, known: set<nat>, s: Env, t: Env, p: int)
    requires p > 0
  {
    forall x | s(x) % p != t(x) % p ::
      x !in ExprUses(e, false, known).unguarded && forall g | g in GuardsOf(e, x, known) :: Eval(g, s, p) == 0
  }

  ghost predicate ConstraintImmune(c: Constraint, known: set<nat>, s: Env, t: Env, p: int)
    requires p > 0
  {
    forall x | s(x) % p != t(x) % p ::
      x !in ConstraintUses(c, false, known).unguarded
      && forall g | g in ConstraintGuards(c, x, known) :: Eval(g, s, p) == 0
  }

  lemma TimesZero(x: int, y: int, p: int)
    requires p > 0 && (x == 0 || y == 0)
    ensures FMul(x, y, p) == 0
  {
  }

  /** Under a guard that is 0 nothing matters; under one that is not 0, nothing changed. */
  lemma GuardedProduct(g: Expr, e: Expr, known: set<nat>, s: Env, t: Env, p: int)
    requires p > 0 && Eval(g, s, p) == Eval(g, t, p)
    requires forall x | s(x) % p != t(x) % p && x in Vars(e) :: Eval(g, s, p) == 0
    ensures FMul(Eval(g, s, p), Eval(e, s, p), p) == FMul(Eval(g, t, p), Eval(e, t, p), p)
    ensures FMul(Eval(e, s, p), Eval(g, s, p), p) == FMul(Eval(e, t, p), Eval(g, t, p), p)
  {
    hide FMul;
    if Eval(g, s, p) == 0 {
      TimesZero(0, Eval(e, s, p), p);
      TimesZero(0, Eval(e, t, p), p);
      TimesZero(Eval(e, s, p), 0, p);
      TimesZero(Eval(e, t, p), 0, p);
    } else {
      EvalAgree(e, s, t, p);
    }
  }

  lemma {:induction false} ExprNoninterference(e: Expr, known: set<nat>, s: Env, t: Env, p: int)
    requires p > 0 && ExprImmune(e, known, s, t, p)
    ensures Eval(e, s, p) == Eval(e, t, p)
  {
    hide FAdd, FSub, FMul, PowMod, Inverse;
    match e
    case Const(_) =>
    case Var(_) =>
    case Neg(a) => ExprNoninterference(a, known, s, t, p);
    case Pow(_, a) => ExprNoninterference(a, known, s, t, p);
    case Mul(a, b) =>
      EveryUseSeen(a, 0, known);
      EveryUseSeen(b, 0, known);
      if IsGuard(a, known) && GuardFactorCount(b, known).None? {
        ExprNoninterference(a, known, s, t, p);
        GuardedProduct(a, b, known, s, t, p);
      } else if GuardFactorCount(a, known).None? && IsGuard(b, known) {
        ExprNoninterference(b, known, s, t, p);
        GuardedProduct(b, a, known, s, t, p);
      } else {
        ExprNoninterference(a, known, s, t, p);
        ExprNoninterference(b, known, s, t, p);
      }
    case _ =>
      ExprNoninterference(e.left, known, s, t, p);
      ExprNoninterference(e.right, known, s, t, p);
  }

  lemma {:induction false} ConstraintNoninterference(c: Constraint, known: set<nat>, s: Env, t: Env, p: int)
    requires p > 0 && ConstraintImmune(c, known, s, t, p)
    ensures Holds(c, s, p) == Holds(c, t, p)
  {
    match c
    case Eq(e) => ExprNoninterference(e, known, s, t, p);
    case Det(_) =>
    case Not(a) => ConstraintNoninterference(a, known, s, t, p);
    case Implies(a, b) => ConstraintNoninterference(a, known, s, t, p); ConstraintNoninterference(b, known, s, t, p);
    case Iff(a, b) => ConstraintNoninterference(a, known, s, t, p); ConstraintNoninterference(b, known, s, t, p);
    case And(a, b) => ConstraintNoninterference(a, known, s, t, p); ConstraintNoninterference(b, known, s, t, p);
    case Or(a, b) => ConstraintNoninterference(a, known, s, t, p); ConstraintNoninterference(b, known, s, t, p);
    case _ =>
      ExprNoninterference(c.l, known, s, t, p);
      ExprNoninterference(c.r, known, s, t, p);
  }

  // ----- Modules -----

  lemma {:induction false} ConstraintsMember(cs: seq<Constraint>, c: Constraint, known: set<nat>)
    requires c in cs
    ensures ConstraintUses(c, false, known).unguarded <= ConstraintsUses(cs, known).unguarded
    ensures forall x :: ConstraintGuards(c, x, known) <= ConstraintsGuards(cs, x, known)
  {
    if cs[0] != c {
      ConstraintsMember(cs[1..], c, known);
    }
  }

  lemma {:induction false} ExprsMember(es: seq<Expr>, e: Expr, known: set<nat>)
    requires e in es
    ensures ExprUses(e, false, known).unguarded <= ExprsUses(es, known).unguarded
    ensures forall x :: GuardsOf(e, x, known) <= ExprsGuards(es, x, known)
    ensures Vars(e) <= VarsOfAll(es)
  {
    if es[0] != e {
      ExprsMember(es[1..], e, known);
    }
  }

  lemma {:induction false} CallMember(calls: seq<Call>, call: Call)
    requires call in calls
    ensures VarsOfAll(call.inputs) <= CallVars(calls) && VarsOfAll(call.outputs) <= CallVars(calls)
  {
    if calls[0] != call { CallMember(calls[1..], call); }
  }

  /** `t` changes `s` only in dominated variables all of whose guards are off. */
  ghost predicate ChangesOnlyOff(m: Module, known: set<nat>, s: Env, t: Env, p: int)
    requires p > 0
  {
    forall x | s(x) % p != t(x) % p ::
      && x in DominatedVars(m, InterfaceVars(m), known)
      && forall g | g in ModuleGuards(m, x, known) :: Eval(g, s, p) == 0
  }

  /** The same truth and the same values everywhere a module shows them. */
  ghost predicate SameObservations(m: Module, s: Env, t: Env, p: int)
    requires p > 0
  {
    && (forall c | c in m.constraints + m.postconditions :: Holds(c, s, p) == Holds(c, t, p))
    && (forall e | e in m.assumeDeterministic + m.inputs + m.outputs :: Eval(e, s, p) == Eval(e, t, p))
    && (forall call, e | call in m.calls && e in call.inputs + call.outputs :: Eval(e, s, p) == Eval(e, t, p))
    && SameInterface(m, s, t, p)
  }

  ghost predicate SameInterface(m: Module, s: Env, t: Env, p: int)
    requires p > 0
  {
    forall x | x in InterfaceVars(m) :: s(x) % p == t(x) % p
  }

  /** Domination is noninterference: changing dominated variables while their guards
      are off changes no constraint, postcondition or interface expression. */
  lemma DominationIsNoninterference(m: Module, known: set<nat>, s: Env, t: Env, p: int)
    requires p > 0 && ChangesOnlyOff(m, known, s, t, p)
    ensures SameObservations(m, s, t, p)
  {
    hide Eval, Holds, ExprUses, ConstraintUses, GuardsOf, ConstraintGuards, Vars;
    forall c | c in m.constraints + m.postconditions ensures Holds(c, s, p) == Holds(c, t, p) {
      var cs := if c in m.constraints then m.constraints else m.postconditions;
      ConstraintsMember(cs, c, known);
      ConstraintNoninterference(c, known, s, t, p);
    }
    forall e | e in m.assumeDeterministic + m.inputs + m.outputs ensures Eval(e, s, p) == Eval(e, t, p) {
      if e in m.assumeDeterministic {
        ExprsMember(m.assumeDeterministic, e, known);
        ExprNoninterference(e, known, s, t, p);
      } else {
        ExprsMember(if e in m.inputs then m.inputs else m.outputs, e, known);
        EvalAgree(e, s, t, p);
      }
    }
    forall call, e | call in m.calls && e in call.inputs + call.outputs ensures Eval(e, s, p) == Eval(e, t, p) {
      CallMember(m.calls, call);
      ExprsMember(if e in call.inputs then call.inputs else call.outputs, e, known);
      EvalAgree(e, s, t, p);
    }
  }
}
