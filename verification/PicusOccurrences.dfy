/** The use analysis by single occurrences: a variable is dominated exactly when it occurs, is not
    part of the interface, and every one of its occurrences stands under a guard. */
module PicusOccurrences {
  import opened Options
  import opened PicusLang
  import opened PicusGuards
  import opened PicusUses

  /** The subexpression at a path: false goes left or inwards, true goes right. */
  function At(e: Expr, path: seq<bool>): Option<Expr> {
    if path == [] then Some(e)
    else
      match e
      case Const(_) => None
      case Var(_) => None
      case Neg(a) => if path[0] then None else At(a, path[1..])
      case Pow(_, a) => if path[0] then None else At(a, path[1..])
      case _ => At(if path[0] then e.right else e.left, path[1..])
  }

  /** Going on by `right` from a product, the other factor is a guard and this one is none. */
  predicate GuardsStep(e: Expr, right: bool, known: set<nat>) {
    && e.Mul?
    && IsGuard(if right then e.left else e.right, known)
    && GuardFactorCount(if right then e.right else e.left, known).None?
  }

  /** Some product on the way has a guard as its other factor. */
  ghost predicate Enclosed(e: Expr, path: seq<bool>, known: set<nat>) {
    exists k | 0 <= k < |path| ::
      At(e, path[..k]).Some? && GuardsStep(At(e, path[..k]).value, path[k], known)
  }

  predicate OccursAt(e: Expr, path: seq<bool>, x: nat) { At(e, path) == Some(Var(x)) }

  ghost predicate OccursGuarded(e: Expr, x: nat, known: set<nat>) {
    exists path :: OccursAt(e, path, x) && Enclosed(e, path, known)
  }

  ghost predicate OccursFree(e: Expr, x: nat, known: set<nat>) {
    exists path :: OccursAt(e, path, x) && !Enclosed(e, path, known)
  }

  // ---------------------------------------------------------------------------------------
  // One step
  // ---------------------------------------------------------------------------------------

  predicate HasChild(e: Expr, right: bool) {
    !e.Const? && !e.Var? && (right ==> !e.Neg? && !e.Pow?)
  }

  function Child(e: Expr, right: bool): Expr
    requires HasChild(e, right)
  {
    if e.Neg? || e.Pow? then e.inner else if right then e.right else e.left
  }

  lemma AtStep(e: Expr, right: bool, path: seq<bool>)
    ensures At(e, [right] + path) == if HasChild(e, right) then At(Child(e, right), path) else None
  {
    assert ([right] + path)[1..] == path;
  }

  lemma EnclosedStep(e: Expr, right: bool, path: seq<bool>, known: set<nat>)
    requires HasChild(e, right)
    ensures Enclosed(e, [right] + path, known)
       <==> GuardsStep(e, right, known) || Enclosed(Child(e, right), path, known)
  {
    hide GuardsStep;
    var whole, c := [right] + path, Child(e, right);
    if Enclosed(e, whole, known) {
      var k :| 0 <= k < |whole| && At(e, whole[..k]).Some? && GuardsStep(At(e, whole[..k]).value, whole[k], known);
      if k > 0 {
        assert whole[..k] == [right] + path[..k - 1];
        AtStep(e, right, path[..k - 1]);
        assert At(c, path[..k - 1]).Some? && GuardsStep(At(c, path[..k - 1]).value, path[k - 1], known);
      }
    }
    if GuardsStep(e, right, known) {
      assert whole[..0] == [] && At(e, whole[..0]) == Some(e) && whole[0] == right;
    }
    if Enclosed(c, path, known) {
      var k :| 0 <= k < |path| && At(c, path[..k]).Some? && GuardsStep(At(c, path[..k]).value, path[k], known);
      assert whole[..k + 1] == [right] + path[..k];
      AtStep(e, right, path[..k]);
      assert whole[k + 1] == path[k];
    }
  }

  lemma OccursStep(e: Expr, right: bool, path: seq<bool>, x: nat)
    ensures OccursAt(e, [right] + path, x) <==> HasChild(e, right) && OccursAt(Child(e, right), path, x)
  {
    AtStep(e, right, path);
  }

  // ---------------------------------------------------------------------------------------
  // The analysis of an expression
  // ---------------------------------------------------------------------------------------

  /** Being a variable of an expression is occurring somewhere in it. */
  lemma {:induction false} VarsOccur(e: Expr, x: nat)
    ensures x in Vars(e) <==> exists path :: OccursAt(e, path, x)
  {
    if e.Var? {
      if e.id == x { assert OccursAt(e, [], x); }
    } else if HasChild(e, false) {
      VarsOccur(Child(e, false), x);
      if HasChild(e, true) { VarsOccur(Child(e, true), x); }
      Up(e, x);
      Down(e, x);
    }
    if path :| OccursAt(e, path, x) {
      if path != [] { OccursDown(e, path, x); }
    }
  }

  lemma Up(e: Expr, x: nat)
    ensures forall right, path | HasChild(e, right) && OccursAt(Child(e, right), path, x) ::
      OccursAt(e, [right] + path, x)
  {
    forall right, path | HasChild(e, right) && OccursAt(Child(e, right), path, x)
      ensures OccursAt(e, [right] + path, x)
    {
      OccursStep(e, right, path, x);
    }
  }

  lemma Down(e: Expr, x: nat)
    requires !e.Var?
    ensures forall path | OccursAt(e, path, x) ::
      path != [] && HasChild(e, path[0]) && OccursAt(Child(e, path[0]), path[1..], x)
  {
    forall path | OccursAt(e, path, x)
      ensures path != [] && HasChild(e, path[0]) && OccursAt(Child(e, path[0]), path[1..], x)
    {
      OccursDown(e, path, x);
    }
  }

  lemma OccursDown(e: Expr, path: seq<bool>, x: nat)
    requires OccursAt(e, path, x) && (!e.Var? || path != [])
    ensures path != [] && HasChild(e, path[0]) && OccursAt(Child(e, path[0]), path[1..], x)
  {
    if path != [] {
      assert path == [path[0]] + path[1..];
      OccursStep(e, path[0], path[1..], x);
    }
  }

  /** What a child contributes: all its variables as guarded, or its own uses. */
  function ChildUses(e: Expr, right: bool, known: set<nat>): Uses {
    if !HasChild(e, right) then NO_USES
    else if GuardsStep(e, right, known) then Uses(Vars(Child(e, right)), {})
    else ExprUses(Child(e, right), false, known)
  }

  lemma UsesOfChildren(e: Expr, known: set<nat>)
    requires HasChild(e, false)
    ensures ExprUses(e, false, known) == ChildUses(e, false, known).Join(ChildUses(e, true, known))
  {
    if e.Mul? {
      EveryUseSeen(e.left, 0, known);
      EveryUseSeen(e.right, 0, known);
    } else if e.Neg? || e.Pow? {
      assert ChildUses(e, true, known) == NO_USES;
    }
  }

  lemma GuardedBelow(e: Expr, right: bool, x: nat, known: set<nat>)
    requires HasChild(e, right)
    ensures (exists path :: OccursAt(e, [right] + path, x) && Enclosed(e, [right] + path, known))
       <==> if GuardsStep(e, right, known) then x in Vars(Child(e, right)) else OccursGuarded(Child(e, right), x, known)
  {
    hide OccursAt, Enclosed, GuardsStep;
    var c := Child(e, right);
    forall path
      ensures OccursAt(e, [right] + path, x) <==> OccursAt(c, path, x)
      ensures Enclosed(e, [right] + path, known) <==> GuardsStep(e, right, known) || Enclosed(c, path, known)
    {
      OccursStep(e, right, path, x);
      EnclosedStep(e, right, path, known);
    }
    VarsOccur(c, x);
  }

  lemma FreeBelow(e: Expr, right: bool, x: nat, known: set<nat>)
    requires HasChild(e, right)
    ensures (exists path :: OccursAt(e, [right] + path, x) && !Enclosed(e, [right] + path, known))
       <==> !GuardsStep(e, right, known) && OccursFree(Child(e, right), x, known)
  {
    hide OccursAt, Enclosed, GuardsStep;
    var c := Child(e, right);
    forall path
      ensures OccursAt(e, [right] + path, x) <==> OccursAt(c, path, x)
      ensures Enclosed(e, [right] + path, known) <==> GuardsStep(e, right, known) || Enclosed(c, path, known)
    {
      OccursStep(e, right, path, x);
      EnclosedStep(e, right, path, known);
    }
  }

  /** Every occurrence in a compound expression is one in a child. */
  lemma ByChild(e: Expr, x: nat, known: set<nat>)
    requires HasChild(e, false)
    ensures OccursGuarded(e, x, known) <==> exists right, path ::
      HasChild(e, right) && OccursAt(e, [right] + path, x) && Enclosed(e, [right] + path, known)
    ensures OccursFree(e, x, known) <==> exists right, path ::
      HasChild(e, right) && OccursAt(e, [right] + path, x) && !Enclosed(e, [right] + path, known)
  {
    hide OccursAt, Enclosed;
    forall path | OccursAt(e, path, x)
      ensures path != [] && HasChild(e, path[0]) && path == [path[0]] + path[1..]
    {
      OccursDown(e, path, x);
    }
  }

  /** An expression's guarded uses are the variables with an enclosed occurrence, its unguarded
      uses those with another one. */
  lemma {:induction false} UsesExactly(e: Expr, x: nat, known: set<nat>)
    ensures x in ExprUses(e, false, known).guarded <==> OccursGuarded(e, x, known)
    ensures x in ExprUses(e, false, known).unguarded <==> OccursFree(e, x, known)
  {
    if HasChild(e, false) {
      hide OccursAt, Enclosed, GuardsStep, ExprUses, OccursGuarded, OccursFree;
      ByChild(e, x, known);
      UsesOfChildren(e, known);
      UsesExactly(Child(e, false), x, known);
      GuardedBelow(e, false, x, known);
      FreeBelow(e, false, x, known);
      if HasChild(e, true) {
        UsesExactly(Child(e, true), x, known);
        GuardedBelow(e, true, x, known);
        FreeBelow(e, true, x, known);
      }
    } else {
      AtomUses(e, x, known);
    }
  }

  lemma AtomUses(e: Expr, x: nat, known: set<nat>)
    requires e.Const? || e.Var?
    ensures !OccursGuarded(e, x, known) && (OccursFree(e, x, known) <==> e == Var(x))
  {
    forall path | OccursAt(e, path, x) ensures path == [] && e == Var(x) {}
    if e == Var(x) { assert OccursAt(e, [], x) && !Enclosed(e, [], known); }
  }

  // ---------------------------------------------------------------------------------------
  // The analysis of a module
  // ---------------------------------------------------------------------------------------

  /** An expression of a constraint. */
  predicate InConstraint(c: Constraint, e: Expr) {
    match c
    case Eq(d) => d == e
    case Det(d) => d == e
    case Not(a) => InConstraint(a, e)
    case Implies(a, b) => InConstraint(a, e) || InConstraint(b, e)
    case Iff(a, b) => InConstraint(a, e) || InConstraint(b, e)
    case And(a, b) => InConstraint(a, e) || InConstraint(b, e)
    case Or(a, b) => InConstraint(a, e) || InConstraint(b, e)
    case _ => c.l == e || c.r == e
  }

  /** An expression of a module. */
  predicate InModule(m: Module, e: Expr) {
    || (exists c | c in m.constraints :: InConstraint(c, e))
    || (exists c | c in m.postconditions :: InConstraint(c, e))
    || e in m.assumeDeterministic || e in m.inputs || e in m.outputs
    || exists call | call in m.calls :: e in call.inputs || e in call.outputs
  }

  /** What a collection of uses says of a set of expressions. */
  ghost predicate Reports(u: Uses, x: nat, known: set<nat>, inside: Expr -> bool) {
    && (x in u.guarded <==> exists e :: inside(e) && OccursGuarded(e, x, known))
    && (x in u.unguarded <==> exists e :: inside(e) && OccursFree(e, x, known))
  }

  lemma {:induction false} ConstraintReports(c: Constraint, x: nat, known: set<nat>)
    ensures Reports(ConstraintUses(c, false, known), x, known, e => InConstraint(c, e))
  {
    hide OccursGuarded, OccursFree, ExprUses;
    if c.Eq? || c.Det? { UsesExactly(c.e, x, known); }
    else if c.Lt? || c.Leq? || c.Gt? || c.Geq? {
      UsesExactly(c.l, x, known);
      UsesExactly(c.r, x, known);
    } else if c.Not? {
      ConstraintReports(c.a, x, known);
    } else {
      ConstraintReports(c.a, x, known);
      ConstraintReports(c.b, x, known);
    }
  }

  lemma {:induction false} ConstraintsReport(cs: seq<Constraint>, x: nat, known: set<nat>)
    ensures Reports(ConstraintsUses(cs, known), x, known, e => exists c | c in cs :: InConstraint(c, e))
  {
    hide OccursGuarded, OccursFree, ConstraintUses, InConstraint;
    if cs != [] {
      ConstraintReports(cs[0], x, known);
      ConstraintsReport(cs[1..], x, known);
      assert forall c :: c in cs <==> c == cs[0] || c in cs[1..];
    }
  }

  lemma {:induction false} ExprsReport(es: seq<Expr>, x: nat, known: set<nat>)
    ensures Reports(ExprsUses(es, known), x, known, e => e in es)
  {
    hide OccursGuarded, OccursFree, ExprUses;
    if es != [] {
      UsesExactly(es[0], x, known);
      ExprsReport(es[1..], x, known);
      assert forall e :: e in es <==> e == es[0] || e in es[1..];
    }
  }

  lemma {:induction false} CallsReport(calls: seq<Call>, x: nat, known: set<nat>)
    ensures Reports(CallsUses(calls, known), x, known,
                    e => exists call | call in calls :: e in call.inputs || e in call.outputs)
  {
    hide OccursGuarded, OccursFree, ExprsUses;
    if calls != [] {
      ExprsReport(calls[0].inputs, x, known);
      ExprsReport(calls[0].outputs, x, known);
      CallsReport(calls[1..], x, known);
      assert forall call :: call in calls <==> call == calls[0] || call in calls[1..];
    }
  }

  lemma ModuleReports(m: Module, x: nat, known: set<nat>)
    ensures Reports(ModuleUses(m, known), x, known, e => InModule(m, e))
  {
    hide OccursGuarded, OccursFree, ConstraintsUses, ExprsUses, CallsUses, InConstraint;
    ConstraintsReport(m.constraints, x, known);
    ConstraintsReport(m.postconditions, x, known);
    ExprsReport(m.assumeDeterministic, x, known);
    ExprsReport(m.inputs, x, known);
    ExprsReport(m.outputs, x, known);
    CallsReport(m.calls, x, known);
  }

  /** A variable is dominated if and only if it is not protected, occurs, and every single
      occurrence in the module stands under a guard. */
  lemma DominatedExactly(m: Module, protected: set<nat>, known: set<nat>, x: nat)
    ensures x in DominatedVars(m, protected, known) <==>
      && x !in protected
      && (exists e, path :: InModule(m, e) && OccursAt(e, path, x))
      && (forall e, path | InModule(m, e) && OccursAt(e, path, x) :: Enclosed(e, path, known))
  {
    hide OccursAt, Enclosed, ModuleUses, InModule;
    var u := ModuleUses(m, known);
    ModuleReports(m, x, known);
    if x in u.guarded {
      var e :| InModule(m, e) && OccursGuarded(e, x, known);
      var path :| OccursAt(e, path, x) && Enclosed(e, path, known);
    }
    if x !in u.unguarded {
      forall e, path | InModule(m, e) && OccursAt(e, path, x) ensures Enclosed(e, path, known) {
        assert !OccursFree(e, x, known);
      }
    } else {
      var e :| InModule(m, e) && OccursFree(e, x, known);
      var path :| OccursAt(e, path, x) && !Enclosed(e, path, known);
    }
    forall e, path | InModule(m, e) && OccursAt(e, path, x) && Enclosed(e, path, known) ensures x in u.guarded {
      assert OccursGuarded(e, x, known);
    }
  }
}
