/** All rounds of `postprocess_module` together: exactly which models they reflect and keep. */
module PicusRounds {
  import opened PicusLang
  import opened PicusGuards
  import opened PicusUses
  import opened PicusRewrite

  // ----- What a rewrite leaves behind -----

  /** A bit or a range constraint on `x` without a guard. */
  predicate Bare(c: Constraint, x: nat) {
    c == Bit(x) || ((c.Leq? || c.Lt?) && c.l == Var(x) && c.r.Const?)
  }

  lemma StrippedIsBare(c: Constraint, c': Constraint, g: Expr, x: nat, known: set<nat>)
    requires Stripped(c, c', g, x, known)
    ensures Bare(c', x)
  {
  }

  /** A bare constraint is never rewritten again. */
  lemma BareIsKept(c: Constraint, x: nat, known: set<nat>, dominated: set<nat>)
    requires Bare(c, x)
    ensures Normalize(c, known, dominated) == c
  {
    if c == Bit(x) { InferrableKept(c, known, dominated); }
  }

  lemma BareUse(c: Constraint, x: nat, known: set<nat>)
    requires Bare(c, x)
    ensures x in ConstraintUses(c, false, known).unguarded
  {
    assert ExprUses(Var(x), false, known) == Uses({}, {x});
    if c == Bit(x) {
      var e := Sub(Var(x), Const(1));
      assert GuardFactorCount(e, known).None?;
      assert ConstraintUses(c, false, known) == ExprUses(Mul(Var(x), e), false, known);
    } else {
      assert ConstraintUses(c, false, known) == ExprUses(c.l, false, known).Join(ExprUses(c.r, false, known));
    }
  }

  /** The variable of a bare constraint is no longer dominated. */
  lemma BareIsNotDominated(m: Module, c: Constraint, x: nat, known: set<nat>)
    requires c in m.constraints && Bare(c, x)
    ensures x !in DominatedVars(m, InterfaceVars(m), known)
  {
    hide ConstraintUses, ConstraintGuards, InterfaceVars;
    BareUse(c, x, known);
    ConstraintsMember(m.constraints, c, known);
  }

  lemma BareSurvives(m: Module, m': Module, known: set<nat>, c: Constraint, x: nat)
    requires Round(m, m', known) && c in m.constraints && Bare(c, x)
    ensures c in m'.constraints
  {
    hide Normalize, DominatedVars, RoundOf, IsKnownGuards, InterfaceVars, Bare;
    RoundMembers(m, m', known);
    BareIsKept(c, x, known, DominatedVars(m, InterfaceVars(m), known));
  }

  lemma {:induction false} BareStays(ms: seq<Module>, knowns: seq<set<nat>>, i: nat, j: nat, c: Constraint, x: nat)
    requires Rounds(ms, knowns) && i <= j <= |knowns| && c in ms[i].constraints && Bare(c, x)
    ensures c in ms[j].constraints
    decreases j - i
  {
    hide Round, Bare;
    if i < j {
      BareSurvives(ms[i], ms[i + 1], knowns[i], c, x);
      BareStays(ms, knowns, i + 1, j, c, x);
    }
  }

  lemma RoundResult(m: Module, m': Module, known: set<nat>, c: Constraint)
    requires Round(m, m', known) && c in m'.constraints
    ensures c in m.constraints || exists x :: Bare(c, x)
  {
    hide Normalize, DominatedVars, RoundOf, IsKnownGuards, InterfaceVars, Bare, Stripped;
    var d := DominatedVars(m, InterfaceVars(m), known);
    RoundMembers(m, m', known);
    var b :| b in m.constraints && c == Normalize(b, known, d);
    if b != c {
      var g, x := RewriteIsStripping(b, known, d);
      StrippedIsBare(b, c, g, x, known);
    }
  }

  /** Every constraint of a round is one of the input or is bare. */
  lemma {:induction false} OriginalOrBare(ms: seq<Module>, knowns: seq<set<nat>>, i: nat, c: Constraint)
    requires Rounds(ms, knowns) && i <= |knowns| && c in ms[i].constraints
    ensures c in ms[0].constraints || exists x :: Bare(c, x)
  {
    hide Round, Bare;
    if i > 0 {
      assert Round(ms[i - 1], ms[i - 1 + 1], knowns[i - 1]);
      RoundResult(ms[i - 1], ms[i], knowns[i - 1], c);
      if c in ms[i - 1].constraints { OriginalOrBare(ms, knowns, i - 1, c); }
    }
  }

  // ----- Models of the result -----

  /** Every rewritten strict comparison with its guard on both sides has its guard on, in
      the round that rewrites it. */
  ghost predicate AllBoundsOn(ms: seq<Module>, knowns: seq<set<nat>>, s: Env, p: int)
    requires p > 0 && |ms| == |knowns| + 1
  {
    forall i | 0 <= i < |knowns| :: RewrittenBoundsOn(ms[i], knowns[i], s, p)
  }

  /** An assignment that satisfies input and result satisfies every round between. */
  lemma BetweenModels(ms: seq<Module>, knowns: seq<set<nat>>, s: Env, p: int, i: nat)
    requires p > 0 && Rounds(ms, knowns) && i <= |knowns|
    requires Model(ms[0], s, p) && Model(ms[|knowns|], s, p)
    ensures Model(ms[i], s, p)
  {
    hide Holds, Bare, Round;
    forall c | c in ms[i].constraints ensures Holds(c, s, p) {
      OriginalOrBare(ms, knowns, i, c);
      if c !in ms[0].constraints {
        var x :| Bare(c, x);
        BareStays(ms, knowns, i, |knowns|, c, x);
      }
    }
  }

  lemma {:induction false} BoundsReflect(ms: seq<Module>, knowns: seq<set<nat>>, s: Env, p: int, i: nat)
    requires Prime(p) && Rounds(ms, knowns) && i <= |knowns|
    requires Model(ms[|knowns|], s, p) && AllBoundsOn(ms, knowns, s, p)
    ensures Model(ms[i], s, p)
    decreases |knowns| - i
  {
    hide Model, Round, RewrittenBoundsOn;
    if i < |knowns| {
      BoundsReflect(ms, knowns, s, p, i + 1);
      RoundReflectsModels(ms[i], ms[i + 1], knowns[i], s, p);
    }
  }

  /** Over all rounds: a model of the result is a model of the input if and only if every
      rewritten strict comparison guarded on both sides had its guard on. */
  lemma RoundsReflectModels(ms: seq<Module>, knowns: seq<set<nat>>, s: Env, p: int)
    requires Prime(p) && Rounds(ms, knowns) && Model(ms[|knowns|], s, p)
    ensures Model(ms[0], s, p) <==> AllBoundsOn(ms, knowns, s, p)
  {
    hide Model, Round, RewrittenBoundsOn;
    if AllBoundsOn(ms, knowns, s, p) { BoundsReflect(ms, knowns, s, p, 0); }
    if Model(ms[0], s, p) {
      forall i | 0 <= i < |knowns| ensures RewrittenBoundsOn(ms[i], knowns[i], s, p) {
        BetweenModels(ms, knowns, s, p, i);
        BetweenModels(ms, knowns, s, p, i + 1);
        RoundReflectsModels(ms[i], ms[i + 1], knowns[i], s, p);
      }
    }
  }

  // ----- Models of the input -----

  /** The assignment after `i` rounds, each switching off what its own guards allow. */
  ghost function Switched(ms: seq<Module>, knowns: seq<set<nat>>, s: Env, p: int, i: nat): Env
    requires p > 0 && |ms| == |knowns| + 1 && i <= |knowns|
  {
    if i == 0 then s
    else SwitchedOff(ms[i - 1], knowns[i - 1], Switched(ms, knowns, s, p, i - 1), p)
  }

  /** In every round, the stripped constraints of mixed variables are met. */
  ghost predicate AllMixedHold(ms: seq<Module>, knowns: seq<set<nat>>, s: Env, p: int)
    requires p > 0 && |ms| == |knowns| + 1
  {
    forall i | 0 <= i < |knowns| :: MixedHold(ms[i], knowns[i], Switched(ms, knowns, s, p, i), p)
  }

  lemma SwitchedNext(ms: seq<Module>, knowns: seq<set<nat>>, s: Env, p: int, i: nat)
    requires p > 0 && |ms| == |knowns| + 1 && 0 < i <= |knowns|
    ensures Switched(ms, knowns, s, p, i)
         == SwitchedOff(ms[i - 1], knowns[i - 1], Switched(ms, knowns, s, p, i - 1), p)
  {
  }

  lemma BareIsUntouched(m: Module, m': Module, c: Constraint, x: nat, known: set<nat>, s: Env, p: int)
    requires p > 0 && Round(m, m', known) && c in m.constraints && Bare(c, x)
    ensures SwitchedOff(m, known, s, p)(x) == s(x)
  {
    hide Bare, RoundOf, IsKnownGuards, DominatedVars, ModuleGuards, Eval, InterfaceVars;
    BareIsNotDominated(m, c, x, known);
  }

  /** Rounds never touch the variable of a bare constraint. */
  lemma {:induction false} BareValueStays(ms: seq<Module>, knowns: seq<set<nat>>, s: Env, p: int, i: nat, j: nat,
                                          c: Constraint, x: nat)
    requires p > 0 && Rounds(ms, knowns) && i <= j <= |knowns| && c in ms[i].constraints && Bare(c, x)
    ensures Switched(ms, knowns, s, p, j)(x) == Switched(ms, knowns, s, p, i)(x)
    decreases j - i
  {
    hide Bare, Round, SwitchedOff, Switched;
    if i < j {
      BareValueStays(ms, knowns, s, p, i, j - 1, c, x);
      BareStays(ms, knowns, i, j - 1, c, x);
      SwitchedNext(ms, knowns, s, p, j);
      assert Round(ms[j - 1], ms[j - 1 + 1], knowns[j - 1]);
      BareIsUntouched(ms[j - 1], ms[j], c, x, knowns[j - 1], Switched(ms, knowns, s, p, j - 1), p);
    }
  }

  lemma BareMeaning(c: Constraint, x: nat, s: Env, t: Env, p: int)
    requires p > 0 && Bare(c, x) && s(x) % p == t(x) % p
    ensures Holds(c, s, p) == Holds(c, t, p)
  {
    if c == Bit(x) {
      hide FMul, FSub;
      var b := Sub(Var(x), Const(1));
      assert Vars(Var(x)) == {x} && Vars(b) == Vars(Var(x)) + Vars(Const(1));
      assert Vars(Mul(Var(x), b)) == Vars(Var(x)) + Vars(b);
      EvalAgree(c.e, s, t, p);
    }
  }

  /** If the last assignment is a model of the last module, no round lost anything. */
  lemma LastModelIsEnough(ms: seq<Module>, knowns: seq<set<nat>>, s: Env, p: int, i: nat)
    requires Prime(p) && Rounds(ms, knowns) && i < |knowns|
    requires Model(ms[i], Switched(ms, knowns, s, p, i), p)
    requires Model(ms[|knowns|], Switched(ms, knowns, s, p, |knowns|), p)
    ensures MixedHold(ms[i], knowns[i], Switched(ms, knowns, s, p, i), p)
  {
    hide Bare, RoundOf, IsKnownGuards, DominatedVars, ModuleGuards, Eval, InterfaceVars, Holds, Normalize, Stripped,
         SwitchedOff, MixedAt;
    var n, m, known := |knowns|, ms[i], knowns[i];
    var u, v, w := Switched(ms, knowns, s, p, i), Switched(ms, knowns, s, p, i + 1), Switched(ms, knowns, s, p, n);
    assert Round(m, ms[i + 1], known);
    RoundMembers(m, ms[i + 1], known);
    var d := DominatedVars(m, InterfaceVars(m), known);
    forall c, g, x | MixedAt(m, known, c, g, x, u, p) ensures Holds(Normalize(c, known, d), u, p) {
      var c' := Normalize(c, known, d);
      MixedParts(m, known, c, g, x, u, p);
      StrippedIsBare(c, c', g, x, known);
      BareStays(ms, knowns, i + 1, n, c', x);
      BareValueStays(ms, knowns, s, p, i + 1, n, c', x);
      MixedIsKept(m, known, c, g, x, u, p);
      BareMeaning(c', x, u, w, p);
    }
  }

  lemma MixedIsKept(m: Module, known: set<nat>, c: Constraint, g: Expr, x: nat, s: Env, p: int)
    requires p > 0 && MixedAt(m, known, c, g, x, s, p)
    ensures SwitchedOff(m, known, s, p)(x) == s(x)
  {
    hide DominatedVars, ModuleGuards, Eval, InterfaceVars, Normalize, Stripped;
  }

  lemma {:induction false} RoundsKeepEach(ms: seq<Module>, knowns: seq<set<nat>>, s: Env, p: int, i: nat)
    requires Prime(p) && Rounds(ms, knowns) && Model(ms[0], s, p) && i <= |knowns|
    requires AllMixedHold(ms, knowns, s, p) || Model(ms[|knowns|], Switched(ms, knowns, s, p, |knowns|), p)
    ensures Model(ms[i], Switched(ms, knowns, s, p, i), p)
    ensures InterfaceVars(ms[i]) == InterfaceVars(ms[0])
    ensures SameInterface(ms[0], s, Switched(ms, knowns, s, p, i), p)
  {
    hide Model, Round, MixedHold, InterfaceVars, SwitchedOff, Switched, SameInterface;
    SwitchedStart(ms, knowns, s, p);
    if i > 0 {
      var u := Switched(ms, knowns, s, p, i - 1);
      SwitchedNext(ms, knowns, s, p, i);
      RoundsKeepEach(ms, knowns, s, p, i - 1);
      assert Round(ms[i - 1], ms[i - 1 + 1], knowns[i - 1]);
      if !AllMixedHold(ms, knowns, s, p) { LastModelIsEnough(ms, knowns, s, p, i - 1); }
      KeepStep(ms[i - 1], ms[i], knowns[i - 1], u, p);
      SameInterfaceTrans(ms[0], ms[i - 1], s, u, Switched(ms, knowns, s, p, i), p);
    }
  }

  lemma SwitchedStart(ms: seq<Module>, knowns: seq<set<nat>>, s: Env, p: int)
    requires p > 0 && |ms| == |knowns| + 1
    ensures Switched(ms, knowns, s, p, 0) == s && SameInterface(ms[0], s, s, p)
  {
  }

  lemma KeepStep(m: Module, m': Module, known: set<nat>, s: Env, p: int)
    requires Prime(p) && Round(m, m', known) && Model(m, s, p) && MixedHold(m, known, s, p)
    ensures Model(m', SwitchedOff(m, known, s, p), p)
    ensures SameInterface(m, s, SwitchedOff(m, known, s, p), p)
    ensures InterfaceVars(m') == InterfaceVars(m)
  {
    hide Model, MixedHold, SameInterface, SwitchedOff;
    RoundKeepsModels(m, m', known, s, p);
    hide Round;
    SameInterfaceVars(m, m', known);
  }

  lemma SameInterfaceTrans(m: Module, m': Module, s: Env, t: Env, u: Env, p: int)
    requires p > 0 && InterfaceVars(m) == InterfaceVars(m')
    requires SameInterface(m, s, t, p) && SameInterface(m', t, u, p)
    ensures SameInterface(m, s, u, p)
  {
  }

  lemma SameInterfaceVars(m: Module, m': Module, known: set<nat>)
    requires Round(m, m', known)
    ensures InterfaceVars(m') == InterfaceVars(m)
  {
  }

  /** Over all rounds: a model of the input, switched off round by round, is a model of the
      result with the same interface values if and only if in every round the stripped
      constraints of mixed variables are met. */
  lemma RoundsKeepModels(ms: seq<Module>, knowns: seq<set<nat>>, s: Env, p: int)
    requires Prime(p) && Rounds(ms, knowns) && Model(ms[0], s, p)
    ensures Model(ms[|knowns|], Switched(ms, knowns, s, p, |knowns|), p) <==> AllMixedHold(ms, knowns, s, p)
    ensures AllMixedHold(ms, knowns, s, p) ==> SameInterface(ms[0], s, Switched(ms, knowns, s, p, |knowns|), p)
  {
    hide Model, Round, MixedHold, Switched, SameInterface;
    var n := |knowns|;
    if AllMixedHold(ms, knowns, s, p) { RoundsKeepEach(ms, knowns, s, p, n); }
    if Model(ms[n], Switched(ms, knowns, s, p, n), p) {
      forall i | 0 <= i < n ensures MixedHold(ms[i], knowns[i], Switched(ms, knowns, s, p, i), p) {
        RoundsKeepEach(ms, knowns, s, p, i);
        LastModelIsEnough(ms, knowns, s, p, i);
      }
    }
  }

  /** In particular, when all uses of each rewritten variable share one guard, every model
      of the input gives a model of the result with the same interface values. */
  lemma SharedGuardsKeepModels(ms: seq<Module>, knowns: seq<set<nat>>, s: Env, p: int)
    requires Prime(p) && Rounds(ms, knowns) && Model(ms[0], s, p)
    requires forall i | 0 <= i < |knowns| :: SharedGuards(ms[i], knowns[i])
    ensures Model(ms[|knowns|], Switched(ms, knowns, s, p, |knowns|), p)
    ensures SameInterface(ms[0], s, Switched(ms, knowns, s, p, |knowns|), p)
  {
    hide Model, Round, MixedHold, Switched, SameInterface, Rewrites, ModuleGuards, Eval;
    forall i | 0 <= i < |knowns| ensures MixedHold(ms[i], knowns[i], Switched(ms, knowns, s, p, i), p) {
      AgreeingGuardsSuffice(ms[i], knowns[i], Switched(ms, knowns, s, p, i), p);
    }
    RoundsKeepModels(ms, knowns, s, p);
  }
}
