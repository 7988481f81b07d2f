/** The Picus constraint language (crates/picus/src/pcl) and its meaning over the
    prime field of `p` elements.  Field elements are their canonical
    representatives `0 <= x < p`; comparisons compare those. */
module PicusLang {
  import opened Arithmetic

  datatype Expr =
    | Const(c: nat)
    | Var(id: nat)
    | Add(left: Expr, right: Expr)
    | Sub(left: Expr, right: Expr)
    | Mul(left: Expr, right: Expr)
    | Div(left: Expr, right: Expr)
    | Neg(inner: Expr)
    | Pow(k: nat, inner: Expr)

  datatype Constraint =
    | Lt(l: Expr, r: Expr)
    | Leq(l: Expr, r: Expr)
    | Gt(l: Expr, r: Expr)
    | Geq(l: Expr, r: Expr)
    | Implies(a: Constraint, b: Constraint)
    | Not(a: Constraint)
    | Iff(a: Constraint, b: Constraint)
    | And(a: Constraint, b: Constraint)
    | Or(a: Constraint, b: Constraint)
    | Eq(e: Expr)
    | Det(e: Expr)

  datatype Call = Call(outputs: seq<Expr>, inputs: seq<Expr>)

  datatype Module = Module(
    inputs: seq<Expr>, outputs: seq<Expr>,
    constraints: seq<Constraint>, postconditions: seq<Constraint>,
    assumeDeterministic: seq<Expr>, calls: seq<Call>)

  type Env = nat -> int

  ghost predicate NoDivisors(p: int) {
    forall d | 1 < d < p :: p % d != 0
  }

  ghost predicate Prime(p: int) {
    p > 1 && NoDivisors(p)
  }

  /** Division is total: a divisor without inverse gives zero. */
  ghost predicate IsInverse(x: int, y: int, p: int)
    requires p > 0
  {
    0 <= y < p && (x * y) % p == 1
  }

  ghost function Inverse(x: int, p: int): int
    requires p > 0
  {
    if y :| IsInverse(x, y, p) then y else 0
  }

  ghost function PowMod(x: int, k: nat, p: int): (v: int)
    requires p > 0
    ensures 0 <= v < p
  {
    if k == 0 then 1 % p else FMul(x, PowMod(x, k - 1, p), p)
  }

  function FAdd(x: int, y: int, p: int): (v: int)
    requires p > 0
    ensures 0 <= v < p
  {
    (x + y) % p
  }

  function FSub(x: int, y: int, p: int): (v: int)
    requires p > 0
    ensures 0 <= v < p
  {
    (x - y) % p
  }

  function FMul(x: int, y: int, p: int): (v: int)
    requires p > 0
    ensures 0 <= v < p
  {
    (x * y) % p
  }

  ghost function Eval(e: Expr, s: Env, p: int): (v: int)
    requires p > 0
    ensures 0 <= v < p
  {
    match e
    case Const(c) => c % p
    case Var(x) => s(x) % p
    case Add(a, b) => FAdd(Eval(a, s, p), Eval(b, s, p), p)
    case Sub(a, b) => FSub(Eval(a, s, p), Eval(b, s, p), p)
    case Mul(a, b) => FMul(Eval(a, s, p), Eval(b, s, p), p)
    case Div(a, b) => FMul(Eval(a, s, p), Inverse(Eval(b, s, p), p), p)
    case Neg(a) => FSub(0, Eval(a, s, p), p)
    case Pow(k, a) => PowMod(Eval(a, s, p), k, p)
  }

  /** `Det` speaks of pairs of assignments, not of one: it restricts none. */
  ghost predicate Holds(c: Constraint, s: Env, p: int)
    requires p > 0
  {
    match c
    case Lt(l, r) => Eval(l, s, p) < Eval(r, s, p)
    case Leq(l, r) => Eval(l, s, p) <= Eval(r, s, p)
    case Gt(l, r) => Eval(l, s, p) > Eval(r, s, p)
    case Geq(l, r) => Eval(l, s, p) >= Eval(r, s, p)
    case Implies(a, b) => Holds(a, s, p) ==> Holds(b, s, p)
    case Not(a) => !Holds(a, s, p)
    case Iff(a, b) => Holds(a, s, p) <==> Holds(b, s, p)
    case And(a, b) => Holds(a, s, p) && Holds(b, s, p)
    case Or(a, b) => Holds(a, s, p) || Holds(b, s, p)
    case Eq(e) => Eval(e, s, p) == 0
    case Det(_) => true
  }

  ghost predicate AllHold(cs: seq<Constraint>, s: Env, p: int)
    requires p > 0
  {
    forall c | c in cs :: Holds(c, s, p)
  }

  function Vars(e: Expr): set<nat> {
    match e
    case Const(_) => {}
    case Var(x) => {x}
    case Neg(a) => Vars(a)
    case Pow(_, a) => Vars(a)
    case _ => Vars(e.left) + Vars(e.right)
  }

  function VarsOfAll(es: seq<Expr>): set<nat> {
    if es == [] then {} else Vars(es[0]) + VarsOfAll(es[1..])
  }

  function CallVars(calls: seq<Call>): set<nat> {
    if calls == [] then {}
    else VarsOfAll(calls[0].inputs) + VarsOfAll(calls[0].outputs) + CallVars(calls[1..])
  }

  /** `collect_interface_vars`. */
  function InterfaceVars(m: Module): set<nat> {
    VarsOfAll(m.inputs) + VarsOfAll(m.outputs) + CallVars(m.calls)
  }

  function Bit(x: nat): Constraint {
    Eq(Mul(Var(x), Sub(Var(x), Const(1))))
  }

  // ----- Arithmetic of the field -----

  /** A prime field has no zero divisors. */
  lemma {:induction false} NoZeroDivisors(a: int, b: int, p: int)
    requires Prime(p) && 0 < a < p && (a * b) % p == 0
    ensures b % p == 0
    decreases a
  {
    if a > 1 {
      assert NoDivisors(p);
      var q, r := p / a, p % a;
      assert r != 0;
      var k := (a * b) / p;
      assert a * b == p * k;
      assert r * b == p * (b - q * k) by {
        calc {
          r * b;
          (p - q * a) * b;
          p * b - q * (a * b);
          p * b - q * (p * k);
          p * (b - q * k);
        }
      }
      Multiple(b - q * k, p);
      NoZeroDivisors(r, b, p);
    }
  }

  /** The bit constraint forces 0 or 1. */
  lemma BitValues(v: int, p: int)
    requires Prime(p) && 0 <= v < p
    requires FMul(v, FSub(v, 1, p), p) == 0 || FMul(FSub(v, 1, p), v, p) == 0
    ensures v == 0 || v == 1
  {
    if v > 1 {
      assert FSub(v, 1, p) == v - 1;
      assert v * (v - 1) == (v - 1) * v;
      NoZeroDivisors(v, v - 1, p);
    }
  }

  // ----- Locality -----

  lemma {:induction false} EvalAgree(e: Expr, s: Env, t: Env, p: int)
    requires p > 0 && forall x | x in Vars(e) :: s(x) % p == t(x) % p
    ensures Eval(e, s, p) == Eval(e, t, p)
  {
    hide FAdd, FSub, FMul, PowMod, Inverse;
    match e
    case Const(_) =>
    case Var(_) =>
    case Neg(a) => EvalAgree(a, s, t, p);
    case Pow(_, a) => EvalAgree(a, s, t, p);
    case _ =>
      EvalAgree(e.left, s, t, p);
      EvalAgree(e.right, s, t, p);
  }
}
