/** Where stripping guards loses models (a variable guarded everywhere, but by two guards
    that can differ) and where it adds some (a strict comparison guarded on both sides). */
module PicusLimits {
  import opened Arithmetic
  import opened Options
  import opened PicusLang
  import opened PicusGuards
  import opened PicusUses
  import opened PicusRewrite

  const RANGE := Leq(Mul(Var(0), Var(2)), Const(3))
  const FIXED := Eq(Mul(Var(1), Sub(Var(2), Const(5))))
  const TWO_GUARDS := Module([Var(0), Var(1)], [], [Bit(0), Bit(1), RANGE, FIXED], [], [], [])
  const STRIPPED := TWO_GUARDS.(constraints := [Bit(0), Bit(1), Leq(Var(2), Const(3)), FIXED])
  const GUARDS: set<nat> := {0, 1}

  ghost function Witness(): Env {
    (x: nat) => if x == 1 then 1 else if x == 2 then 5 else 0
  }

  lemma BitInfers(x: nat, known: set<nat>)
    ensures Infer(Bit(x), known) == Some(x)
  {
  }

  lemma GuardsKnown()
    ensures IsKnownGuards(TWO_GUARDS.constraints, GUARDS)
  {
    var cs := TWO_GUARDS.constraints;
    assert cs[0] == Bit(0) && cs[1] == Bit(1);
    forall k: set<nat> | Closed(cs, k) ensures GUARDS <= k {
      BitInfers(0, k);
      BitInfers(1, k);
    }
    BitInfers(0, GUARDS);
    BitInfers(1, GUARDS);
    assert Infer(RANGE, GUARDS).None?;
    assert Infer(FIXED, GUARDS).None?;
    assert forall c | c in cs :: c == Bit(0) || c == Bit(1) || c == RANGE || c == FIXED;
  }

  lemma BitUses(x: nat, known: set<nat>)
    requires x in known
    ensures ConstraintUses(Bit(x), false, known) == Uses({x}, {x})
  {
    var e := Sub(Var(x), Const(1));
    assert GuardFactorCount(Var(x), known) == Some(1) && GuardFactorCount(e, known).None?;
    assert ExprUses(e, true, known) == ExprUses(Var(x), true, known).Join(ExprUses(Const(1), true, known));
    assert ExprUses(e, true, known) == Uses({x}, {}) && ExprUses(Var(x), false, known) == Uses({}, {x});
    assert ExprUses(Mul(Var(x), e), false, known)
        == ExprUses(Var(x), false, known).Join(ExprUses(e, true, known));
  }

  lemma OtherUses()
    ensures ConstraintUses(RANGE, false, GUARDS) == Uses({2}, {0})
    ensures ConstraintUses(FIXED, false, GUARDS) == Uses({2}, {1})
  {
    var e := Sub(Var(2), Const(5));
    assert GuardFactorCount(e, GUARDS).None? && GuardFactorCount(Var(2), GUARDS).None?;
    assert ExprUses(e, true, GUARDS) == ExprUses(Var(2), true, GUARDS).Join(ExprUses(Const(5), true, GUARDS));
    assert ExprUses(RANGE.l, false, GUARDS) == ExprUses(Var(0), false, GUARDS).Join(ExprUses(Var(2), true, GUARDS));
    assert ExprUses(FIXED.e, false, GUARDS) == ExprUses(Var(1), false, GUARDS).Join(ExprUses(e, true, GUARDS));
  }

  lemma Dominated()
    ensures DominatedVars(TWO_GUARDS, InterfaceVars(TWO_GUARDS), GUARDS) == {2}
    ensures InterfaceVars(TWO_GUARDS) == {0, 1}
  {
    hide ConstraintUses;
    BitUses(0, GUARDS);
    BitUses(1, GUARDS);
    OtherUses();
    var cs := TWO_GUARDS.constraints;
    assert cs[1..] == [Bit(1), RANGE, FIXED] && cs[1..][1..] == [RANGE, FIXED];
    assert ConstraintsUses([FIXED], GUARDS) == Uses({2}, {1}) by { assert [FIXED][1..] == []; }
    assert ConstraintsUses([RANGE, FIXED], GUARDS) == Uses({2}, {0, 1}) by { assert [RANGE, FIXED][1..] == [FIXED]; }
    assert ConstraintsUses(cs[1..], GUARDS) == Uses({1, 2}, {0, 1});
    assert ConstraintsUses(cs, GUARDS) == Uses({0, 1, 2}, {0, 1});
    var ins := TWO_GUARDS.inputs;
    assert ins[1..] == [Var(1)] && [Var(1)][1..] == [];
    assert ExprsUses([Var(1)], GUARDS) == Uses({}, {1});
    assert ExprsUses(ins, GUARDS) == Uses({}, {0, 1});
    assert VarsOfAll([Var(1)]) == {1} && VarsOfAll(ins) == {0, 1};
  }

  lemma StripsEach()
    ensures Normalize(Bit(0), GUARDS, {2}) == Bit(0) && Normalize(Bit(1), GUARDS, {2}) == Bit(1)
    ensures Normalize(RANGE, GUARDS, {2}) == Leq(Var(2), Const(3))
    ensures Normalize(FIXED, GUARDS, {2}) == FIXED
  {
    InferrableKept(Bit(0), GUARDS, {2});
    InferrableKept(Bit(1), GUARDS, {2});
  }

  lemma {:induction false} DistinctKept(cs: seq<Constraint>)
    requires forall i, j | 0 <= i < j < |cs| :: cs[i] != cs[j]
    ensures Dedup(cs) == cs
  {
    if cs != [] {
      DistinctKept(cs[..|cs| - 1]);
    }
  }

  /** The round strips the range constraint of its guard. */
  lemma StripsRange()
    ensures Round(TWO_GUARDS, STRIPPED, GUARDS)
  {
    hide Normalize, DominatedVars, IsKnownGuards, InterfaceVars, Dedup, NormalizeAll;
    GuardsKnown();
    Dominated();
    StripsEach();
    NormalizeAllAt(TWO_GUARDS.constraints, GUARDS, {2});
    assert NormalizeAll(TWO_GUARDS.constraints, GUARDS, {2}) == STRIPPED.constraints;
    DistinctKept(STRIPPED.constraints);
  }

  /** Domination alone does not keep models: over every field with more than five elements,
      here a model exists before the round, and none with the same interface values after. */
  lemma DifferentGuardsLoseModels(t: Env, p: int)
    requires p > 5 && SameInterface(TWO_GUARDS, Witness(), t, p)
    ensures Round(TWO_GUARDS, STRIPPED, GUARDS) && Model(TWO_GUARDS, Witness(), p)
    ensures !Model(STRIPPED, t, p)
  {
    hide DominatedVars, Model, RoundOf, IsKnownGuards, InterfaceVars;
    StripsRange();
    Dominated();
    WitnessIsModel(p);
    assert Witness()(1) % p == 1;
    NoStrippedModel(t, p);
  }

  lemma NoStrippedModel(t: Env, p: int)
    requires p > 5 && t(1) % p == 1
    ensures !Model(STRIPPED, t, p)
  {
    hide FMul, FSub;
    var v := Eval(Var(2), t, p);
    FixedValue(t, v, p);
    assert STRIPPED.constraints[2] == Leq(Var(2), Const(3)) && STRIPPED.constraints[3] == FIXED;
    assert Holds(Leq(Var(2), Const(3)), t, p) ==> v <= 3;
  }

  lemma FixedValue(t: Env, v: int, p: int)
    requires p > 5 && t(1) % p == 1 && v == Eval(Var(2), t, p)
    ensures Holds(FIXED, t, p) ==> v == 5
  {
    hide FMul, FSub;
    assert Eval(Var(1), t, p) == 1 && Eval(Sub(Var(2), Const(5)), t, p) == FSub(v, 5, p);
    assert Eval(FIXED.e, t, p) == FMul(1, FSub(v, 5, p), p);
    Difference(v, 5, p);
    TimesOne(FSub(v, 5, p), p);
  }

  lemma Difference(v: int, w: int, p: int)
    requires p > 0 && 0 <= v < p && 0 <= w < p
    ensures 0 <= FSub(v, w, p) < p && (FSub(v, w, p) == 0 ==> v == w) && FSub(v, v, p) == 0
  {
    if v < w { DivisionIs(-1, v - w + p, p); } else { DivisionIs(0, v - w, p); }
    DivisionIs(0, 0, p);
  }

  lemma WitnessIsModel(p: int)
    requires p > 5
    ensures Model(TWO_GUARDS, Witness(), p)
  {
    hide Holds, FMul, FSub, Eval;
    var s := Witness();
    BitHolds(0, s, p);
    BitHolds(1, s, p);
    RangeHolds(s, p);
    FixedHolds(s, p);
    assert forall c | c in TWO_GUARDS.constraints :: c == Bit(0) || c == Bit(1) || c == RANGE || c == FIXED;
  }

  lemma BitHolds(x: nat, s: Env, p: int)
    requires p > 1 && (s(x) == 0 || s(x) == 1)
    ensures Holds(Bit(x), s, p)
  {
    hide FMul, FSub, Eval;
    var e := Sub(Var(x), Const(1));
    EvalMul(Bit(x).e, s, p);
    BitParts(x, s, p);
    Difference(1, 1, p);
    if s(x) == 0 {
      TimesZero(0, Eval(e, s, p), p);
    } else {
      TimesZero(1, 0, p);
    }
  }

  lemma BitParts(x: nat, s: Env, p: int)
    requires p > 1 && (s(x) == 0 || s(x) == 1)
    ensures Eval(Var(x), s, p) == s(x) && Eval(Sub(Var(x), Const(1)), s, p) == FSub(s(x), 1, p)
  {
    hide FMul, FSub, FAdd, PowMod, Inverse;
    assert Eval(Const(1), s, p) == 1;
  }

  lemma RangeHolds(s: Env, p: int)
    requires p > 3 && s(0) == 0
    ensures Holds(RANGE, s, p)
  {
    hide FMul;
    assert Eval(RANGE.l, s, p) == FMul(Eval(Var(0), s, p), Eval(Var(2), s, p), p);
    TimesZero(0, Eval(Var(2), s, p), p);
  }

  lemma FixedHolds(s: Env, p: int)
    requires p > 5 && s(2) == 5
    ensures Holds(FIXED, s, p)
  {
    hide FMul, FSub;
    var e := Sub(Var(2), Const(5));
    assert Eval(e, s, p) == FSub(5, 5, p);
    assert Eval(FIXED.e, s, p) == FMul(Eval(Var(1), s, p), Eval(e, s, p), p);
    Difference(5, 5, p);
    TimesZero(Eval(Var(1), s, p), 0, p);
  }

  // ----- A strict comparison guarded on both sides -----

  const STRICT := Lt(Mul(Var(0), Var(2)), Mul(Var(0), Const(3)))
  const GUARDED_BOUND := Module([Var(0)], [], [Bit(0), STRICT], [], [], [])
  const BARE_BOUND := GUARDED_BOUND.(constraints := [Bit(0), Lt(Var(2), Const(3))])

  lemma BoundGuardKnown()
    ensures IsKnownGuards(GUARDED_BOUND.constraints, {0})
  {
    var cs := GUARDED_BOUND.constraints;
    assert cs[0] == Bit(0);
    forall k: set<nat> | Closed(cs, k) ensures {0} <= k { BitInfers(0, k); }
    BitInfers(0, {0});
    assert forall c | c in cs :: c == Bit(0) || c == STRICT;
  }

  lemma BoundDominated()
    ensures DominatedVars(GUARDED_BOUND, InterfaceVars(GUARDED_BOUND), {0}) == {2}
  {
    var known: set<nat> := {0};
    BitUses(0, known);
    assert ExprUses(STRICT.l, false, known) == ExprUses(Var(0), false, known).Join(ExprUses(Var(2), true, known));
    assert ExprUses(STRICT.r, false, known) == ExprUses(Var(0), false, known).Join(ExprUses(Const(3), true, known));
    assert ConstraintUses(STRICT, false, known) == Uses({2}, {0});
    hide ConstraintUses;
    var cs := GUARDED_BOUND.constraints;
    assert cs[1..] == [STRICT] && [STRICT][1..] == [];
    assert ConstraintsUses([STRICT], known) == Uses({2}, {0});
    assert ConstraintsUses(cs, known) == Uses({0, 2}, {0});
    var ins := GUARDED_BOUND.inputs;
    assert ins[1..] == [];
    assert ExprsUses(ins, known) == Uses({}, {0});
    assert VarsOfAll(ins) == {0};
  }

  lemma StripsBound()
    ensures Round(GUARDED_BOUND, BARE_BOUND, {0})
  {
    hide DominatedVars, IsKnownGuards, InterfaceVars, Dedup, NormalizeAll;
    BoundGuardKnown();
    BoundDominated();
    InferrableKept(Bit(0), {0}, {2});
    assert Normalize(STRICT, {0}, {2}) == Lt(Var(2), Const(3));
    hide Normalize;
    NormalizeAllAt(GUARDED_BOUND.constraints, {0}, {2});
    assert NormalizeAll(GUARDED_BOUND.constraints, {0}, {2}) == BARE_BOUND.constraints;
    DistinctKept(BARE_BOUND.constraints);
  }

  /** A model of the result need not be one of the input: with everything 0 the bare bound
      holds and the guarded one compares 0 with 0. */
  lemma GuardedBoundAddsModels(p: int)
    requires p > 3
    ensures Round(GUARDED_BOUND, BARE_BOUND, {0})
    ensures Model(BARE_BOUND, (x: nat) => 0, p) && !Model(GUARDED_BOUND, (x: nat) => 0, p)
  {
    hide Round, Holds;
    var s: Env := (x: nat) => 0;
    StripsBound();
    BitHolds(0, s, p);
    StrictAtZero(s, p);
    assert forall c | c in BARE_BOUND.constraints :: c == Bit(0) || c == Lt(Var(2), Const(3));
    assert GUARDED_BOUND.constraints[1] == STRICT;
  }

  lemma StrictAtZero(s: Env, p: int)
    requires p > 3 && s(0) == 0 && s(2) == 0
    ensures Holds(Lt(Var(2), Const(3)), s, p) && !Holds(STRICT, s, p)
  {
    hide FMul;
    assert Eval(STRICT.l, s, p) == FMul(Eval(Var(0), s, p), Eval(Var(2), s, p), p);
    assert Eval(STRICT.r, s, p) == FMul(Eval(Var(0), s, p), Eval(Const(3), s, p), p);
    TimesZero(0, Eval(Var(2), s, p), p);
    TimesZero(0, Eval(Const(3), s, p), p);
  }
}
