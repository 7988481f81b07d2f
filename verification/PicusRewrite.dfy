/** Stripping guards from bit and range constraints (`normalize_constraint`,
    `postprocess_module`): what a round keeps, and that the rounds end. */
module PicusRewrite {
  import opened Options
  import opened PicusLang
  import opened PicusGuards
  import opened PicusUses
  import opened PicusText

  function MatchGuardedBit(e: Expr, known: set<nat>): Option<nat> {
    if !e.Mul? then None
    else if IsGuard(e.left, known) && MatchBit(e.right).Some? then MatchBit(e.right)
    else if IsGuard(e.right, known) && MatchBit(e.left).Some? then MatchBit(e.left)
    else None
  }

  function MatchGuardedVar(e: Expr, known: set<nat>): Option<nat> {
    if !e.Mul? then None
    else if IsGuard(e.left, known) then AsVar(e.right)
    else if IsGuard(e.right, known) then AsVar(e.left)
    else None
  }

  function SplitGuardedVar(e: Expr, known: set<nat>): Option<(Expr, nat)> {
    if !e.Mul? then None
    else if IsGuard(e.left, known) && e.right.Var? then Some((e.left, e.right.id))
    else if IsGuard(e.right, known) && e.left.Var? then Some((e.right, e.left.id))
    else None
  }

  function SplitGuardedConst(e: Expr, known: set<nat>): Option<(Expr, nat)> {
    if !e.Mul? then None
    else if IsGuard(e.left, known) && e.right.Const? then Some((e.left, e.right.c))
    else if IsGuard(e.right, known) && e.left.Const? then Some((e.right, e.left.c))
    else None
  }

  /** The two sides of a comparison after stripping, if it is stripped. */
  function StripComparison(l: Expr, r: Expr, known: set<nat>, dominated: set<nat>): Option<(nat, nat)> {
    var sl, sr := SplitGuardedVar(l, known), SplitGuardedConst(r, known);
    if sl.Some? && sr.Some? && sl.value.0 == sr.value.0 && sl.value.1 in dominated then
      Some((sl.value.1, sr.value.1))
    else if r.Const? && MatchGuardedVar(l, known).Some? && MatchGuardedVar(l, known).value in dominated then
      Some((MatchGuardedVar(l, known).value, r.c))
    else None
  }

  function Normalize(c: Constraint, known: set<nat>, dominated: set<nat>): Constraint {
    match c
    case Eq(e) =>
      if MatchGuardedBit(e, known).Some? && MatchGuardedBit(e, known).value in dominated
      then Bit(MatchGuardedBit(e, known).value) else c
    case Leq(l, r) =>
      var stripped := StripComparison(l, r, known, dominated);
      if stripped.Some? then Leq(Var(stripped.value.0), Const(stripped.value.1)) else c
    case Lt(l, r) =>
      var stripped := StripComparison(l, r, known, dominated);
      if stripped.Some? then Lt(Var(stripped.value.0), Const(stripped.value.1)) else c
    case _ => c
  }

  // ----- One constraint -----

  /** The shapes rewriting starts from: a guard `g`, a variable `x`, and a bound. */
  ghost predicate Stripped(c: Constraint, c': Constraint, g: Expr, x: nat, known: set<nat>) {
    && IsGuard(g, known)
    && match c
       case Eq(e) => c' == Bit(x) && e.Mul? && exists b :: IsBitOf(b, x) && (e == Mul(g, b) || e == Mul(b, g))
       case Leq(l, r) => IsProductOf(l, g, Var(x)) && exists n :: StrippedBound(r, g, n) && c' == Leq(Var(x), Const(n))
       case Lt(l, r) => IsProductOf(l, g, Var(x)) && exists n :: StrippedBound(r, g, n) && c' == Lt(Var(x), Const(n))
       case _ => false
  }

  predicate IsBitOf(b: Expr, x: nat) {
    MatchBit(b) == Some(x)
  }

  predicate IsProductOf(e: Expr, g: Expr, f: Expr) {
    e == Mul(g, f) || e == Mul(f, g)
  }

  predicate StrippedBound(r: Expr, g: Expr, n: nat) {
    r == Const(n) || IsProductOf(r, g, Const(n))
  }

  /** A rewrite is a stripping, of a dominated variable. */
  lemma RewriteIsStripping(c: Constraint, known: set<nat>, dominated: set<nat>) returns (g: Expr, x: nat)
    requires Normalize(c, known, dominated) != c
    ensures Stripped(c, Normalize(c, known, dominated), g, x, known) && x in dominated
  {
    if c.Eq? {
      var e := c.e;
      x := MatchGuardedBit(e, known).value;
      if IsGuard(e.left, known) && MatchBit(e.right).Some? {
        g := e.left;
        assert IsBitOf(e.right, x);
      } else {
        g := e.right;
        assert IsBitOf(e.left, x);
      }
    } else {
      var stripped := StripComparison(c.l, c.r, known, dominated);
      x := stripped.value.0;
      g := if IsGuard(c.l.left, known) && c.l.right == Var(x) then c.l.left else c.l.right;
      assert StrippedBound(c.r, g, stripped.value.1);
    }
  }

  lemma TimesOne(v: int, p: int)
    requires p > 0 && 0 <= v < p
    ensures FMul(1, v, p) == v && FMul(v, 1, p) == v
  {
  }

  lemma ProductValue(e: Expr, g: Expr, f: Expr, s: Env, p: int)
    requires p > 1 && IsProductOf(e, g, f) && IsBool(Eval(g, s, p))
    ensures Eval(e, s, p) == if Eval(g, s, p) == 1 then Eval(f, s, p) else 0
  {
    hide FMul, Eval;
    EvalMul(e, s, p);
    EvalRange(f, s, p);
    TimesOne(Eval(f, s, p), p);
    TimesZero(0, Eval(f, s, p), p);
    TimesZero(Eval(f, s, p), 0, p);
  }

  lemma EvalMul(e: Expr, s: Env, p: int)
    requires p > 0 && e.Mul?
    ensures Eval(e, s, p) == FMul(Eval(e.left, s, p), Eval(e.right, s, p), p)
  {
  }

  lemma EvalRange(e: Expr, s: Env, p: int)
    requires p > 0
    ensures 0 <= Eval(e, s, p) < p
  {
  }

  lemma BitOrder(b: Expr, x: nat, s: Env, p: int)
    requires p > 0 && IsBitOf(b, x)
    ensures Eval(b, s, p) == Eval(Bit(x).e, s, p)
  {
    assert forall u, v :: FMul(u, v, p) == FMul(v, u, p) by {
      forall u, v ensures FMul(u, v, p) == FMul(v, u, p) { assert u * v == v * u; }
    }
  }

  /** What stripping a guard does to the meaning: nothing while the guard is 1; while
      it is 0 the original is true, except that a strict comparison compares 0 with
      its own bound. */
  lemma StrippingMeaning(c: Constraint, c': Constraint, g: Expr, x: nat, known: set<nat>, s: Env, p: int)
    requires p > 1 && Stripped(c, c', g, x, known) && BooleanOn(known, s, p)
    ensures IsBool(Eval(g, s, p))
    ensures Eval(g, s, p) == 1 ==> (Holds(c, s, p) <==> Holds(c', s, p))
    ensures Eval(g, s, p) == 0 && !c.Lt? ==> Holds(c, s, p)
    ensures Eval(g, s, p) == 0 && c.Lt? ==> (Holds(c, s, p) <==> c.r.Const? && 0 < Eval(c.r, s, p))
  {
    hide FMul, FSub, FAdd;
    GuardValue(g, known, s, p);
    if c.Eq? {
      var b :| IsBitOf(b, x) && (c.e == Mul(g, b) || c.e == Mul(b, g));
      assert IsProductOf(c.e, g, b);
      ProductValue(c.e, g, b, s, p);
      BitOrder(b, x, s, p);
    } else {
      ProductValue(c.l, g, Var(x), s, p);
      var n :| StrippedBound(c.r, g, n) && (c' == Leq(Var(x), Const(n)) || c' == Lt(Var(x), Const(n)));
      if c.r != Const(n) {
        ProductValue(c.r, g, Const(n), s, p);
      }
    }
  }

  /** A strict comparison guarded on both sides. */
  predicate GuardedBothSides(c: Constraint) {
    c.Lt? && !c.r.Const?
  }

  /** Exactly when a rewritten constraint implies the original: always, save that a
      strict comparison guarded on both sides needs its guard on. */
  lemma StrippedImpliesOriginal(c: Constraint, c': Constraint, g: Expr, x: nat, known: set<nat>, s: Env, p: int)
    requires p > 1 && Stripped(c, c', g, x, known) && BooleanOn(known, s, p) && Holds(c', s, p)
    ensures Holds(c, s, p) <==> (GuardedBothSides(c) ==> Eval(g, s, p) == 1)
  {
    StrippingMeaning(c, c', g, x, known, s, p);
  }

  lemma OnlyVar(c: Constraint, c': Constraint, g: Expr, x: nat, known: set<nat>, s: Env, t: Env, p: int)
    requires p > 1 && Stripped(c, c', g, x, known) && t(x) % p == s(x) % p
    ensures Holds(c', s, p) == Holds(c', t, p)
  {
    hide FMul, FSub;
    if c.Eq? {
      var b := Sub(Var(x), Const(1));
      assert Vars(Var(x)) == {x} && Vars(b) == Vars(Var(x)) + Vars(Const(1));
      assert Vars(Mul(Var(x), b)) == Vars(Var(x)) + Vars(b);
      EvalAgree(c'.e, s, t, p);
    }
  }

  lemma ZeroSatisfies(c: Constraint, c': Constraint, g: Expr, x: nat, known: set<nat>, s: Env, t: Env, p: int)
    requires p > 1 && Stripped(c, c', g, x, known) && t(x) % p == 0
    requires c.Lt? ==> c.r.Const? && 0 < Eval(c.r, s, p)
    ensures Holds(c', t, p)
  {
    hide FSub;
    if c.Eq? {
      TimesZero(0, Eval(Sub(Var(x), Const(1)), t, p), p);
      assert Eval(Var(x), t, p) == 0;
    }
  }

  // ----- One round -----

  function NormalizeAll(cs: seq<Constraint>, known: set<nat>, dominated: set<nat>): seq<Constraint> {
    if cs == [] then []
    else NormalizeAll(cs[..|cs| - 1], known, dominated) + [Normalize(cs[|cs| - 1], known, dominated)]
  }

  lemma {:induction false} NormalizeAllAt(cs: seq<Constraint>, known: set<nat>, dominated: set<nat>)
    ensures
      var ns := NormalizeAll(cs, known, dominated);
      |ns| == |cs| && forall i | 0 <= i < |cs| :: ns[i] == Normalize(cs[i], known, dominated)
  {
    hide Normalize;
    if cs != [] {
      NormalizeAllAt(cs[..|cs| - 1], known, dominated);
    }
  }

  /** Keeps the first of equal constraints. */
  function Dedup(cs: seq<Constraint>): seq<Constraint> {
    if cs == [] then []
    else
      var init, last := cs[..|cs| - 1], cs[|cs| - 1];
      if last in init then Dedup(init) else Dedup(init) + [last]
  }

  lemma {:induction false} DedupMembers(cs: seq<Constraint>, c: Constraint)
    ensures c in Dedup(cs) <==> c in cs
  {
    if cs != [] {
      DedupMembers(cs[..|cs| - 1], c);
      assert cs == cs[..|cs| - 1] + [cs[|cs| - 1]];
    }
  }

  /** Nothing is kept twice, and what is kept stands in its old order. */
  lemma {:induction false} DedupIs(cs: seq<Constraint>)
    ensures forall i, j | 0 <= i < j < |Dedup(cs)| :: Dedup(cs)[i] != Dedup(cs)[j]
    ensures forall c :: c in Dedup(cs) <==> c in cs
    ensures forall n | 0 <= n <= |cs| :: Dedup(cs[..n]) <= Dedup(cs)
  {
    if cs != [] {
      var k := |cs| - 1;
      DedupIs(cs[..k]);
      assert cs == cs[..k] + [cs[k]];
      forall n | 0 <= n <= |cs| ensures Dedup(cs[..n]) <= Dedup(cs) {
        if n <= k { assert cs[..k][..n] == cs[..n]; } else { assert cs[..n] == cs; }
      }
    }
  }

  function RoundOf(m: Module, known: set<nat>): Module {
    m.(constraints := Dedup(NormalizeAll(m.constraints, known, DominatedVars(m, InterfaceVars(m), known))))
  }

  ghost predicate Round(m: Module, m': Module, known: set<nat>) {
    IsKnownGuards(m.constraints, known) && m' == RoundOf(m, known)
  }

  ghost predicate Model(m: Module, s: Env, p: int)
    requires p > 0
  {
    AllHold(m.constraints, s, p)
  }

  lemma RoundMembers(m: Module, m': Module, known: set<nat>)
    requires Round(m, m', known)
    ensures
      var d := DominatedVars(m, InterfaceVars(m), known);
      && (forall c | c in m.constraints :: Normalize(c, known, d) in m'.constraints)
      && (forall c' | c' in m'.constraints :: exists c :: c in m.constraints && c' == Normalize(c, known, d))
  {
    var d := DominatedVars(m, InterfaceVars(m), known);
    var ns := NormalizeAll(m.constraints, known, d);
    NormalizeAllAt(m.constraints, known, d);
    hide Normalize, DominatedVars, NormalizeAll, Dedup;
    forall c | c in m.constraints ensures Normalize(c, known, d) in m'.constraints {
      var i :| 0 <= i < |m.constraints| && m.constraints[i] == c;
      assert ns[i] == Normalize(c, known, d);
      DedupMembers(ns, ns[i]);
    }
    forall c' | c' in m'.constraints ensures exists c :: c in m.constraints && c' == Normalize(c, known, d) {
      DedupMembers(ns, c');
      var i :| 0 <= i < |ns| && ns[i] == c';
      assert m.constraints[i] in m.constraints;
    }
  }

  /** A constraint guards are inferred from is never rewritten. */
  lemma InferrableKept(c: Constraint, known: set<nat>, dominated: set<nat>)
    requires CanInfer(c)
    ensures Normalize(c, known, dominated) == c
  {
  }

  /** Each round keeps every guard already inferred. */
  lemma RoundKeepsGuards(m: Module, m': Module, known: set<nat>, known': set<nat>)
    requires Round(m, m', known) && IsKnownGuards(m'.constraints, known')
    ensures known <= known'
  {
    RoundMembers(m, m', known);
    forall c | c in m.constraints && Infer(c, known').Some? ensures Infer(c, known').value in known' {
      InferrableKept(c, known, DominatedVars(m, InterfaceVars(m), known));
      assert c in m'.constraints;
    }
    assert Closed(m.constraints, known');
  }

  /** The guards of the original are boolean in every model of the result. */
  lemma GuardsBooleanAfter(m: Module, m': Module, known: set<nat>, s: Env, p: int)
    requires Prime(p) && Round(m, m', known) && Model(m', s, p)
    ensures BooleanOn(known, s, p)
  {
    RoundMembers(m, m', known);
    forall c | c in m.constraints && CanInfer(c) ensures Holds(c, s, p) {
      InferrableKept(c, known, DominatedVars(m, InterfaceVars(m), known));
      assert c in m'.constraints;
    }
    KnownGuardsSound(m.constraints, known, s, p);
  }

  /** The factor next to the constant in the bound of a strict comparison is 1. */
  ghost predicate BoundGuardOn(c: Constraint, s: Env, p: int)
    requires p > 0
  {
    c.Lt? && c.r.Mul? ==>
      && (c.r.right.Const? ==> Eval(c.r.left, s, p) == 1)
      && (c.r.left.Const? ==> Eval(c.r.right, s, p) == 1)
  }

  /** The strict comparisons of `m` that the round rewrites and that carry the guard on
      both sides have their guard on. */
  ghost predicate RewrittenBoundsOn(m: Module, known: set<nat>, s: Env, p: int)
    requires p > 0
  {
    var d := DominatedVars(m, InterfaceVars(m), known);
    forall c | c in m.constraints && Normalize(c, known, d) != c && GuardedBothSides(c) :: BoundGuardOn(c, s, p)
  }

  lemma BoundGuardOfStripped(c: Constraint, c': Constraint, g: Expr, x: nat, known: set<nat>, s: Env, p: int)
    requires p > 0 && Stripped(c, c', g, x, known) && GuardedBothSides(c)
    ensures BoundGuardOn(c, s, p) <==> Eval(g, s, p) == 1
  {
    assert !g.Const?;
  }

  /** Exactly which models of the result are models of the input: those in which the
      guard is on for every rewritten strict comparison guarded on both sides. */
  lemma RoundReflectsModels(m: Module, m': Module, known: set<nat>, s: Env, p: int)
    requires Prime(p) && Round(m, m', known) && Model(m', s, p)
    ensures Model(m, s, p) <==> RewrittenBoundsOn(m, known, s, p)
  {
    var d := DominatedVars(m, InterfaceVars(m), known);
    RoundMembers(m, m', known);
    GuardsBooleanAfter(m, m', known, s, p);
    forall c | c in m.constraints
      ensures Normalize(c, known, d) == c ==> Holds(c, s, p)
      ensures Normalize(c, known, d) != c ==>
                (Holds(c, s, p) <==> (GuardedBothSides(c) ==> BoundGuardOn(c, s, p)))
    {
      var c' := Normalize(c, known, d);
      assert c' in m'.constraints;
      if c' != c {
        var g, x := RewriteIsStripping(c, known, d);
        StrippedImpliesOriginal(c, c', g, x, known, s, p);
        if GuardedBothSides(c) {
          BoundGuardOfStripped(c, c', g, x, known, s, p);
        }
      }
    }
  }

  // ----- Models of the input give models of the result -----

  /** A round rewrites a constraint of `x`. */
  ghost predicate Rewrites(m: Module, known: set<nat>, x: nat) {
    var d := DominatedVars(m, InterfaceVars(m), known);
    exists c, g :: c in m.constraints && Stripped(c, Normalize(c, known, d), g, x, known) && x in d
  }

  /** In `s`, the guards of each rewritten variable are all on or all off. */
  ghost predicate GuardsAgree(m: Module, known: set<nat>, s: Env, p: int)
    requires p > 0
  {
    forall x, g, g' | Rewrites(m, known, x) && g in ModuleGuards(m, x, known) && g' in ModuleGuards(m, x, known) ::
      Eval(g, s, p) == Eval(g', s, p)
  }

  /** All uses of each rewritten variable share one guard. */
  ghost predicate SharedGuards(m: Module, known: set<nat>) {
    forall x, g, g' | Rewrites(m, known, x) && g in ModuleGuards(m, x, known) && g' in ModuleGuards(m, x, known) ::
      g == g'
  }

  /** Sets to 0 every rewritten variable whose guards are off. */
  ghost function SwitchedOff(m: Module, known: set<nat>, s: Env, p: int): Env
    requires p > 0
  {
    (x: nat) => if x in DominatedVars(m, InterfaceVars(m), known)
              && (forall g | g in ModuleGuards(m, x, known) :: Eval(g, s, p) == 0)
         then 0 else s(x)
  }

  /** The guard of a rewritten constraint is among its variable's guards. */
  lemma StrippedGuardListed(m: Module, c: Constraint, c': Constraint, g: Expr, x: nat, known: set<nat>)
    requires c in m.constraints && Stripped(c, c', g, x, known) && (c.Eq? || x !in known)
    ensures g in ModuleGuards(m, x, known)
  {
    hide ConstraintGuards, ConstraintUses, GuardsOf, Stripped;
    ConstraintsMember(m.constraints, c, known);
    StrippedGuardEncloses(c, c', g, x, known);
  }

  lemma StrippedGuardEncloses(c: Constraint, c': Constraint, g: Expr, x: nat, known: set<nat>)
    requires Stripped(c, c', g, x, known) && (c.Eq? || x !in known)
    ensures g in ConstraintGuards(c, x, known)
  {
    if c.Eq? {
      var b :| IsBitOf(b, x) && (c.e == Mul(g, b) || c.e == Mul(b, g));
      assert x in Vars(b) && GuardFactorCount(b, known).None? by {
        assert b.Mul? && Vars(b) == Vars(b.left) + Vars(b.right);
      }
    } else {
      assert g in GuardsOf(c.l, x, known);
    }
  }

  lemma BothGuardsUnguarded(e: Expr, g: Expr, x: nat, known: set<nat>)
    requires IsProductOf(e, g, Var(x)) && IsGuard(g, known)
    ensures x in known ==> x in ExprUses(e, false, known).unguarded
  {
  }

  /** A dominated variable next to a guard is not itself a known guard. */
  lemma DominatedIsNotGuard(m: Module, c: Constraint, c': Constraint, g: Expr, x: nat, known: set<nat>)
    requires c in m.constraints && Stripped(c, c', g, x, known)
    requires x in DominatedVars(m, InterfaceVars(m), known)
    ensures c.Eq? || x !in known
  {
    hide Vars, GuardsOf;
    ConstraintsMember(m.constraints, c, known);
    if !c.Eq? {
      BothGuardsUnguarded(c.l, g, x, known);
    }
  }

  /** A round strips `c` of the guard `g` of `x`, which is off while another guard of `x`
      is on: then the value of `x` still matters, but no longer stands under `g`. */
  ghost predicate MixedAt(m: Module, known: set<nat>, c: Constraint, g: Expr, x: nat, s: Env, p: int)
    requires p > 0
  {
    var d := DominatedVars(m, InterfaceVars(m), known);
    && c in m.constraints && x in d && Stripped(c, Normalize(c, known, d), g, x, known)
    && Eval(g, s, p) == 0
    && exists g' :: g' in ModuleGuards(m, x, known) && Eval(g', s, p) != 0
  }

  /** Those stripped constraints are met by the value their variable has. */
  ghost predicate MixedHold(m: Module, known: set<nat>, s: Env, p: int)
    requires p > 0
  {
    forall c, g, x | MixedAt(m, known, c, g, x, s, p) ::
      Holds(Normalize(c, known, DominatedVars(m, InterfaceVars(m), known)), s, p)
  }

  /** A stripped constraint after switching off: met, unless its variable is mixed and
      fails it. */
  lemma RewrittenHolds(m: Module, c: Constraint, c': Constraint, g: Expr, x: nat, known: set<nat>, s: Env, p: int)
    requires p > 1 && c in m.constraints && BooleanOn(known, s, p) && Holds(c, s, p)
    requires c' == Normalize(c, known, DominatedVars(m, InterfaceVars(m), known))
    requires Stripped(c, c', g, x, known) && x in DominatedVars(m, InterfaceVars(m), known)
    ensures Holds(c', SwitchedOff(m, known, s, p), p)
       <==> (MixedAt(m, known, c, g, x, s, p) ==> Holds(c', s, p))
  {
    hide Eval, Holds, DominatedVars, Normalize, ModuleGuards, Stripped, BooleanOn;
    var t := SwitchedOff(m, known, s, p);
    DominatedIsNotGuard(m, c, c', g, x, known);
    StrippedGuardListed(m, c, c', g, x, known);
    StrippingMeaning(c, c', g, x, known, s, p);
    if exists g' :: g' in ModuleGuards(m, x, known) && Eval(g', s, p) != 0 {
      assert t(x) == s(x);
      OnlyVar(c, c', g, x, known, s, t, p);
    } else {
      assert Eval(g, s, p) == 0 && t(x) == 0;
      ZeroSatisfies(c, c', g, x, known, s, t, p);
    }
  }

  /** Exactly which models of the input, with the dominated variables switched off where
      all their guards are, are models of the result: those that meet the stripped
      constraints of mixed variables.  What the module shows never changes. */
  lemma RoundKeepsModels(m: Module, m': Module, known: set<nat>, s: Env, p: int)
    requires Prime(p) && Round(m, m', known) && Model(m, s, p)
    ensures Model(m', SwitchedOff(m, known, s, p), p) <==> MixedHold(m, known, s, p)
    ensures SameObservations(m, s, SwitchedOff(m, known, s, p), p)
  {
    hide DominatedVars, Normalize, ModuleGuards, Stripped, MixedAt, Holds, InterfaceVars, IsKnownGuards, RoundOf;
    var d := DominatedVars(m, InterfaceVars(m), known);
    var t := SwitchedOff(m, known, s, p);
    KnownGuardsSound(m.constraints, known, s, p);
    SwitchingIsOff(m, known, s, p);
    DominationIsNoninterference(m, known, s, t, p);
    RoundMembers(m, m', known);
    if MixedHold(m, known, s, p) {
      forall c' | c' in m'.constraints ensures Holds(c', t, p) {
        var c :| c in m.constraints && c' == Normalize(c, known, d);
        assert c in m.constraints + m.postconditions;
        if c' != c {
          var g, x := RewriteIsStripping(c, known, d);
          RewrittenHolds(m, c, c', g, x, known, s, p);
        }
      }
    }
    if Model(m', t, p) {
      forall c, g, x | MixedAt(m, known, c, g, x, s, p) ensures Holds(Normalize(c, known, d), s, p) {
        MixedParts(m, known, c, g, x, s, p);
        RewrittenHolds(m, c, Normalize(c, known, d), g, x, known, s, p);
      }
    }
  }

  lemma SwitchingIsOff(m: Module, known: set<nat>, s: Env, p: int)
    requires p > 0
    ensures ChangesOnlyOff(m, known, s, SwitchedOff(m, known, s, p), p)
  {
    hide DominatedVars, ModuleGuards, Eval, InterfaceVars;
  }

  lemma MixedParts(m: Module, known: set<nat>, c: Constraint, g: Expr, x: nat, s: Env, p: int)
    requires p > 0 && MixedAt(m, known, c, g, x, s, p)
    ensures
      var d := DominatedVars(m, InterfaceVars(m), known);
      && c in m.constraints && x in d && Stripped(c, Normalize(c, known, d), g, x, known)
      && Eval(g, s, p) == 0
  {
  }

  /** No other choice for the variables that are off does better: if any assignment that
      changes only those is a model of the result, the mixed constraints are met. */
  lemma NoOtherChoiceHelps(m: Module, m': Module, known: set<nat>, s: Env, t: Env, p: int)
    requires Prime(p) && Round(m, m', known) && Model(m, s, p)
    requires ChangesOnlyOff(m, known, s, t, p) && Model(m', t, p)
    ensures MixedHold(m, known, s, p)
  {
    hide DominatedVars, Normalize, ModuleGuards, Stripped, Eval, Holds, InterfaceVars, IsKnownGuards, RoundOf;
    var d := DominatedVars(m, InterfaceVars(m), known);
    RoundMembers(m, m', known);
    forall c, g, x | MixedAt(m, known, c, g, x, s, p) ensures Holds(Normalize(c, known, d), s, p) {
      assert s(x) % p == t(x) % p;
      OnlyVar(c, Normalize(c, known, d), g, x, known, s, t, p);
    }
  }

  /** Guards that agree leave no variable mixed. */
  lemma AgreeingGuardsSuffice(m: Module, known: set<nat>, s: Env, p: int)
    requires p > 0 && GuardsAgree(m, known, s, p)
    ensures MixedHold(m, known, s, p)
  {
    hide DominatedVars, Normalize, ModuleGuards, Stripped, Eval, Holds, InterfaceVars;
    forall c, g, x ensures !MixedAt(m, known, c, g, x, s, p) {
      if MixedAt(m, known, c, g, x, s, p) {
        var c' := Normalize(c, known, DominatedVars(m, InterfaceVars(m), known));
        assert Rewrites(m, known, x);
        DominatedIsNotGuard(m, c, c', g, x, known);
        StrippedGuardListed(m, c, c', g, x, known);
      }
    }
  }

  // ----- All rounds -----

  /** The modules after 0, 1, 2, ... rounds, with the guards each round used. */
  ghost predicate Rounds(ms: seq<Module>, knowns: seq<set<nat>>) {
    |ms| == |knowns| + 1 && forall i | 0 <= i < |knowns| :: Round(ms[i], ms[i + 1], knowns[i])
  }

  // ----- The rounds end -----

  function Size(e: Expr): nat {
    match e
    case Const(_) => 1
    case Var(_) => 1
    case Neg(a) => 1 + Size(a)
    case Pow(_, a) => 1 + Size(a)
    case _ => 1 + Size(e.left) + Size(e.right)
  }

  function ConstraintSize(c: Constraint): nat {
    match c
    case Eq(e) => 1 + Size(e)
    case Det(e) => 1 + Size(e)
    case Not(a) => 1 + ConstraintSize(a)
    case Implies(a, b) => 1 + ConstraintSize(a) + ConstraintSize(b)
    case Iff(a, b) => 1 + ConstraintSize(a) + ConstraintSize(b)
    case And(a, b) => 1 + ConstraintSize(a) + ConstraintSize(b)
    case Or(a, b) => 1 + ConstraintSize(a) + ConstraintSize(b)
    case _ => 1 + Size(c.l) + Size(c.r)
  }

  function TotalSize(cs: seq<Constraint>): nat {
    if cs == [] then 0 else TotalSize(cs[..|cs| - 1]) + ConstraintSize(cs[|cs| - 1])
  }

  lemma SizePositive(e: Expr)
    ensures Size(e) >= 1
  {
  }

  /** A rewrite makes a constraint smaller. */
  lemma NormalizeShrinks(c: Constraint, known: set<nat>, dominated: set<nat>)
    ensures Normalize(c, known, dominated) == c
         || ConstraintSize(Normalize(c, known, dominated)) < ConstraintSize(c)
  {
    hide Normalize, Stripped, ConstraintSize;
    if Normalize(c, known, dominated) != c {
      var g, x := RewriteIsStripping(c, known, dominated);
      StrippingShrinks(c, Normalize(c, known, dominated), g, x, known);
    }
  }

  lemma StrippingShrinks(c: Constraint, c': Constraint, g: Expr, x: nat, known: set<nat>)
    requires Stripped(c, c', g, x, known)
    ensures ConstraintSize(c') < ConstraintSize(c)
  {
    hide IsGuard;
    SizePositive(g);
    if c.Eq? {
      var b :| IsBitOf(b, x) && (c.e == Mul(g, b) || c.e == Mul(b, g));
      BitSize(b, x);
      BitSize(Bit(x).e, x);
    } else {
      SizePositive(c.r);
    }
  }

  lemma BitSize(b: Expr, x: nat)
    requires IsBitOf(b, x)
    ensures Size(b) == 5
  {
    assert Size(b.left) + Size(b.right) == Size(Var(x)) + Size(Sub(Var(x), Const(1)));
    assert Size(Sub(Var(x), Const(1))) == 1 + Size(Var(x)) + Size(Const(1));
  }

  lemma ConstraintSizePositive(c: Constraint)
    ensures ConstraintSize(c) >= 1
  {
  }

  lemma TotalSizeAppend(cs: seq<Constraint>, c: Constraint)
    ensures TotalSize(cs + [c]) == TotalSize(cs) + ConstraintSize(c)
  {
    assert (cs + [c])[..|cs|] == cs;
  }

  /** After a prefix: what is kept, and that any change made the total smaller. */
  ghost predicate Passed(cs: seq<Constraint>, ns: seq<Constraint>, kept: seq<Constraint>, changed: bool) {
    && kept == Dedup(ns)
    && if changed then TotalSize(kept) < TotalSize(cs) else kept == cs
  }

  lemma PassNext(cs: seq<Constraint>, ns: seq<Constraint>, kept: seq<Constraint>, changed: bool,
                 c: Constraint, n: Constraint)
    requires Passed(cs, ns, kept, changed) && (n == c || ConstraintSize(n) < ConstraintSize(c))
    ensures Passed(cs + [c], ns + [n], if n in ns then kept else kept + [n], changed || n != c || n in ns)
  {
    hide ConstraintSize;
    ConstraintSizePositive(c);
    TotalSizeAppend(cs, c);
    TotalSizeAppend(kept, n);
    assert (ns + [n])[..|ns|] == ns;
  }

  /** The texts seen are those of the constraints so far. */
  ghost predicate SeenExactly(names: nat -> string, seen: set<string>, ns: seq<Constraint>) {
    forall c :: Rendered(names, c) in seen <==> c in ns
  }

  lemma SeeNext(names: nat -> string, seen: set<string>, ns: seq<Constraint>, n: Constraint)
    requires GoodNames(names) && SeenExactly(names, seen, ns)
    ensures SeenExactly(names, seen + {Rendered(names, n)}, ns + [n])
    ensures Rendered(names, n) in seen <==> n in ns
  {
    hide GoodNames, Rendered;
    forall c ensures Rendered(names, c) in seen + {Rendered(names, n)} <==> c in ns + [n] {
      if Rendered(names, c) == Rendered(names, n) { RenderedInjective(names, c, n); }
    }
  }

  lemma NormalizeNext(cs: seq<Constraint>, i: nat, known: set<nat>, dominated: set<nat>)
    requires i < |cs|
    ensures cs[..i + 1] == cs[..i] + [cs[i]]
    ensures NormalizeAll(cs[..i + 1], known, dominated)
         == NormalizeAll(cs[..i], known, dominated) + [Normalize(cs[i], known, dominated)]
  {
    hide Normalize;
    assert cs[..i + 1][..i] == cs[..i];
  }

  /** One step of the pass, by printed text. */
  lemma ReadNext(names: nat -> string, cs: seq<Constraint>, ns: seq<Constraint>, kept: seq<Constraint>,
                 changed: bool, seen: set<string>, c: Constraint, known: set<nat>, dominated: set<nat>)
    requires GoodNames(names) && Passed(cs, ns, kept, changed) && SeenExactly(names, seen, ns)
    ensures
      var n := Normalize(c, known, dominated);
      var text := Rendered(names, n);
      && Passed(cs + [c], ns + [n], if text in seen then kept else kept + [n],
                changed || text != Rendered(names, c) || text in seen)
      && SeenExactly(names, seen + {text}, ns + [n])
  {
    hide Passed, Normalize, SeenExactly, GoodNames, Rendered;
    var n := Normalize(c, known, dominated);
    NormalizeShrinks(c, known, dominated);
    PassNext(cs, ns, kept, changed, c, n);
    SeeNext(names, seen, ns, n);
    if Rendered(names, n) == Rendered(names, c) { RenderedInjective(names, n, c); }
  }

  /** One pass over the constraints: changes and repetitions are told by the printed text. */
  method NormalizePass(names: nat -> string, cs: seq<Constraint>, known: set<nat>, dominated: set<nat>)
    returns (kept: seq<Constraint>, changed: bool)
    requires GoodNames(names)
    ensures Passed(cs, NormalizeAll(cs, known, dominated), kept, changed)
  {
    kept, changed := [], false;
    var seen: set<string> := {};
    for i := 0 to |cs|
      invariant Passed(cs[..i], NormalizeAll(cs[..i], known, dominated), kept, changed)
      invariant SeenExactly(names, seen, NormalizeAll(cs[..i], known, dominated))
    {
      hide Passed, Normalize, NormalizeAll, SeenExactly, GoodNames, Rendered;
      ghost var ns := NormalizeAll(cs[..i], known, dominated);
      var original := Rendered(names, cs[i]);
      var normalized := Normalize(cs[i], known, dominated);
      var rendered := Rendered(names, normalized);
      NormalizeNext(cs, i, known, dominated);
      ReadNext(names, cs[..i], ns, kept, changed, seen, cs[i], known, dominated);
      changed := changed || rendered != original || rendered in seen;
      kept := if rendered in seen then kept else kept + [normalized];
      seen := seen + {rendered};
    }
    assert cs[..|cs|] == cs;
  }

  method NormalizeRound(names: nat -> string, m: Module, known: set<nat>) returns (m': Module, changed: bool)
    requires GoodNames(names)
    ensures m' == RoundOf(m, known)
    ensures changed ==> TotalSize(m'.constraints) < TotalSize(m.constraints)
    ensures !changed ==> m' == m
  {
    hide Normalize, DominatedVars, InterfaceVars, Dedup, TotalSize, GoodNames;
    var dominated := DominatedVars(m, InterfaceVars(m), known);
    hide NormalizeAll;
    var kept;
    kept, changed := NormalizePass(names, m.constraints, known, dominated);
    m' := m.(constraints := kept);
  }

  lemma RoundsAppend(ms: seq<Module>, knowns: seq<set<nat>>, m: Module, known: set<nat>)
    requires Rounds(ms, knowns) && IsKnownGuards(ms[|knowns|].constraints, known)
    requires m == RoundOf(ms[|knowns|], known)
    ensures Rounds(ms + [m], knowns + [known])
  {
    hide RoundOf, IsKnownGuards;
  }

  lemma KnownUnique(cs: seq<Constraint>, known: set<nat>)
    requires IsKnownGuards(cs, known)
    ensures forall k | IsKnownGuards(cs, k) :: k == known
  {
  }

  /** `postprocess_module` ends for every module of the two chips it applies to, and
      returns the outcome of rounds after which a further round changes nothing. */
  method PostprocessModule(names: nat -> string, chip: string, m: Module) returns (r: Module)
    requires GoodNames(names)
    ensures chip != "SysLinux" && chip != "MemoryInstrs" ==> r == m
    ensures chip == "SysLinux" || chip == "MemoryInstrs" ==>
      && (exists ms, knowns :: Rounds(ms, knowns) && ms[0] == m && ms[|knowns|] == r)
      && (forall known | IsKnownGuards(r.constraints, known) :: RoundOf(r, known) == r)
  {
    r := m;
    if chip == "SysLinux" || chip == "MemoryInstrs" {
      ghost var ms, knowns := [m], [];
      var changed := true;
      while changed
        invariant Rounds(ms, knowns) && ms[0] == m && ms[|knowns|] == r
        invariant !changed ==> forall known | IsKnownGuards(r.constraints, known) :: RoundOf(r, known) == r
        decreases TotalSize(r.constraints), changed
      {
        hide RoundOf, IsKnownGuards, TotalSize, Rounds, GoodNames;
        var known := CollectKnownGuards(r.constraints);
        var r';
        r', changed := NormalizeRound(names, r, known);
        KnownUnique(r.constraints, known);
        RoundsAppend(ms, knowns, r', known);
        ms, knowns := ms + [r'], knowns + [known];
        r := r';
      }
    }
  }
}
