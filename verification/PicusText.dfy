/** The printed form of expressions and constraints (crates/picus/src/pcl/program.rs), by which
    the simplifier recognises repetitions: printing is injective, so it recognises exactly the
    repetitions. */
module PicusText {
  import opened PicusLang

  predicate IsDelimiter(c: char) { c == ' ' || c == '(' || c == ')' }

  predicate IsDigit(c: char) { '0' <= c <= '9' }

  predicate IsWord(w: string) { w != "" && forall i | 0 <= i < |w| :: !IsDelimiter(w[i]) }

  /** The variable names: distinct words that do not look like numbers. */
  ghost predicate GoodNames(names: nat -> string) {
    && (forall x :: IsWord(names(x)) && !IsDigit(names(x)[0]))
    && forall x, y | names(x) == names(y) :: x == y
  }

  // ----- Numbers -----

  function Digit(d: nat): (c: char)
    requires d < 10
    ensures IsDigit(c)
  {
    "0123456789"[d]
  }

  function Decimal(n: nat): (w: string)
    ensures IsWord(w) && IsDigit(w[0])
  {
    if n < 10 then [Digit(n)] else Decimal(n / 10) + [Digit(n % 10)]
  }

  lemma DigitInjective(a: nat, b: nat)
    requires a < 10 && b < 10 && Digit(a) == Digit(b)
    ensures a == b
  {
  }

  lemma {:induction false} DecimalInjective(m: nat, n: nat)
    requires Decimal(m) == Decimal(n)
    ensures m == n
  {
    var a, b := Decimal(m), Decimal(n);
    assert a[|a| - 1] == Digit(m % 10) && b[|b| - 1] == Digit(n % 10);
    DigitInjective(m % 10, n % 10);
    assert (m < 10 <==> |a| == 1) && (n < 10 <==> |b| == 1);
    if m >= 10 {
      assert a[..|a| - 1] == Decimal(m / 10) && b[..|b| - 1] == Decimal(n / 10);
      DecimalInjective(m / 10, n / 10);
    }
  }

  lemma {:induction false} DecimalDigits(n: nat)
    ensures forall i | 0 <= i < |Decimal(n)| :: IsDigit(Decimal(n)[i])
  {
    if n >= 10 { DecimalDigits(n / 10); }
  }

  // ----- Generated names -----

  /** The name of a variable: the field of its column with the column number, or a fresh
      name with the number. */
  function Name(fields: map<nat, string>, id: nat): string {
    (if id in fields then fields[id] else "fresh") + "_" + Decimal(id)
  }

  predicate IsIdentifier(w: string) { IsWord(w) && !IsDigit(w[0]) }

  /** The number behind the last underscore is not longer on one side. */
  lemma SuffixNotShorter(v: string, w: string, x: nat, y: nat)
    requires v + "_" + Decimal(x) == w + "_" + Decimal(y)
    ensures |Decimal(x)| >= |Decimal(y)|
  {
    hide Decimal;
    var s, t := v + "_" + Decimal(x), w + "_" + Decimal(y);
    DecimalDigits(y);
    assert s[|v|] == '_';
    forall i | |w| + 1 <= i < |t| ensures IsDigit(t[i]) { assert t[i] == Decimal(y)[i - |w| - 1]; }
  }

  lemma SameSuffix(v: string, w: string, x: nat, y: nat)
    requires v + "_" + Decimal(x) == w + "_" + Decimal(y)
    ensures x == y
  {
    SuffixNotShorter(v, w, x, y);
    SuffixNotShorter(w, v, y, x);
    hide Decimal;
    assert Decimal(x) == (v + "_" + Decimal(x))[|v| + 1..];
    assert Decimal(y) == (w + "_" + Decimal(y))[|w| + 1..];
    DecimalInjective(x, y);
  }

  /** The generated names are good whenever the fields are identifiers. */
  lemma GeneratedNamesAreGood(fields: map<nat, string>)
    requires forall id | id in fields :: IsIdentifier(fields[id])
    ensures GoodNames((id: nat) => Name(fields, id))
  {
    var names := (id: nat) => Name(fields, id);
    forall x: nat ensures IsWord(names(x)) && !IsDigit(names(x)[0]) {
      hide Decimal;
      var field := if x in fields then fields[x] else "fresh";
      assert IsIdentifier(field);
      assert names(x) == field + "_" + Decimal(x);
    }
    forall x: nat, y: nat | names(x) == names(y) ensures x == y {
      hide Decimal;
      SameSuffix(if x in fields then fields[x] else "fresh", if y in fields then fields[y] else "fresh", x, y);
    }
  }

  // ----- Printed trees -----

  /** What is printed: a word, or an operator with one or two arguments in parentheses. */
  datatype Tree = Word(w: string) | One(op: string, a: Tree) | Two(op: string, a: Tree, b: Tree)

  predicate Printable(x: Tree) {
    match x
    case Word(w) => IsWord(w)
    case One(op, a) => IsWord(op) && Printable(a)
    case Two(op, a, b) => IsWord(op) && Printable(a) && Printable(b)
  }

  function Print(x: Tree): string {
    match x
    case Word(w) => w
    case One(op, a) => "(" + op + " " + Print(a) + ")"
    case Two(op, a, b) => "(" + op + " " + Print(a) + " " + Print(b) + ")"
  }

  function Then(c: char, rest: string): string { [c] + rest }

  /** An open parenthesis, an operator, and everything behind its space. */
  function Open(op: string, rest: string): string { Then('(', op + Then(' ', rest)) }

  /** What follows the first argument in the text of a tree that `t` follows. */
  function Behind(x: Tree, t: string): string
    requires !x.Word?
  {
    match x
    case One(_, _) => Then(')', t)
    case Two(_, _, b) => Then(' ', Print(b) + Then(')', t))
  }

  lemma Shape(x: Tree, t: string)
    requires !x.Word?
    ensures Print(x) + t == Open(x.op, Print(x.a) + Behind(x, t))
  {
  }

  /** What may follow a printed tree. */
  predicate Follows(t: string) { t == "" || t[0] == ' ' || t[0] == ')' }

  lemma NotShorter(v: string, w: string, s: string, t: string)
    requires IsWord(w) && Follows(s) && v + s == w + t
    ensures |v| >= |w|
  {
    forall i | 0 <= i < |w| ensures !IsDelimiter((v + s)[i]) { assert (w + t)[i] == w[i]; }
    assert s == "" || (v + s)[|v|] == s[0];
  }

  lemma WordSplit(v: string, w: string, s: string, t: string)
    requires IsWord(v) && IsWord(w) && Follows(s) && Follows(t) && v + s == w + t
    ensures v == w && s == t
  {
    NotShorter(v, w, s, t);
    NotShorter(w, v, t, s);
    assert v == (v + s)[..|v|] && w == (w + t)[..|w|];
    assert s == (v + s)[|v|..] && t == (w + t)[|w|..];
  }

  lemma ThenSplit(c: char, d: char, s: string, t: string)
    requires Then(c, s) == Then(d, t)
    ensures c == d && s == t
  {
    assert Then(c, s)[0] == c && Then(d, t)[0] == d;
    assert Then(c, s)[1..] == s && Then(d, t)[1..] == t;
  }

  lemma OpenSplit(o: string, q: string, s: string, t: string)
    requires IsWord(o) && IsWord(q) && Open(o, s) == Open(q, t)
    ensures o == q && s == t
  {
    hide IsWord;
    ThenSplit('(', '(', o + Then(' ', s), q + Then(' ', t));
    WordSplit(o, q, Then(' ', s), Then(' ', t));
    ThenSplit(' ', ' ', s, t);
  }

  lemma WordIsNotOpen(w: string, op: string, s: string, t: string)
    requires IsWord(w)
    ensures w + s != Open(op, t)
  {
    assert (w + s)[0] == w[0] && Open(op, t)[0] == '(';
  }

  lemma BehindFollows(x: Tree, t: string)
    requires !x.Word?
    ensures Follows(Behind(x, t)) && Follows(Then(')', t))
  {
  }

  /** Unique readability: a text that starts with a printed tree determines it. */
  lemma {:induction false} PrintSplit(x: Tree, y: Tree, s: string, t: string)
    requires Printable(x) && Printable(y) && Follows(s) && Follows(t) && Print(x) + s == Print(y) + t
    ensures x == y && s == t
    decreases x
  {
    hide Print, Open, Behind, Follows, IsWord, Then;
    if x.Word? && y.Word? {
      PrintWord(x);
      PrintWord(y);
      WordSplit(x.w, y.w, s, t);
    } else if x.Word? {
      PrintWord(x);
      Shape(y, t);
      WordIsNotOpen(x.w, y.op, s, Print(y.a) + Behind(y, t));
    } else if y.Word? {
      PrintWord(y);
      Shape(x, s);
      WordIsNotOpen(y.w, x.op, t, Print(x.a) + Behind(x, s));
    } else {
      Shape(x, s);
      Shape(y, t);
      OpenSplit(x.op, y.op, Print(x.a) + Behind(x, s), Print(y.a) + Behind(y, t));
      BehindFollows(x, s);
      BehindFollows(y, t);
      PrintSplit(x.a, y.a, Behind(x, s), Behind(y, t));
      BehindSplit(x, y, s, t);
      if x.Two? { PrintSplit(x.b, y.b, Then(')', s), Then(')', t)); }
      ThenSplit(')', ')', s, t);
    }
  }

  lemma PrintWord(x: Tree)
    requires x.Word?
    ensures Print(x) == x.w
  {
  }

  /** A space or a parenthesis tells two arguments from one. */
  lemma BehindSplit(x: Tree, y: Tree, s: string, t: string)
    requires !x.Word? && !y.Word? && Behind(x, s) == Behind(y, t)
    ensures x.One? <==> y.One?
    ensures x.One? ==> Then(')', s) == Then(')', t)
    ensures x.Two? && y.Two? ==> Print(x.b) + Then(')', s) == Print(y.b) + Then(')', t)
  {
    hide Print;
    if x.Two? && y.Two? {
      ThenSplit(' ', ' ', Print(x.b) + Then(')', s), Print(y.b) + Then(')', t));
    } else {
      assert Behind(x, s)[0] == Behind(y, t)[0];
    }
  }

  // ----- Expressions and constraints -----

  function ExprTree(names: nat -> string, e: Expr): Tree {
    match e
    case Const(c) => Word(Decimal(c))
    case Var(x) => Word(names(x))
    case Add(a, b) => Two("+", ExprTree(names, a), ExprTree(names, b))
    case Sub(a, b) => Two("-", ExprTree(names, a), ExprTree(names, b))
    case Mul(a, b) => Two("*", ExprTree(names, a), ExprTree(names, b))
    case Div(a, b) => Two("/", ExprTree(names, a), ExprTree(names, b))
    case Neg(a) => One("-", ExprTree(names, a))
    case Pow(k, a) => Two("pow", Word(Decimal(k)), ExprTree(names, a))
  }

  function ConstraintTree(names: nat -> string, c: Constraint): Tree {
    match c
    case Lt(l, r) => Two("<", ExprTree(names, l), ExprTree(names, r))
    case Leq(l, r) => Two("<=", ExprTree(names, l), ExprTree(names, r))
    case Gt(l, r) => Two(">", ExprTree(names, l), ExprTree(names, r))
    case Geq(l, r) => Two(">=", ExprTree(names, l), ExprTree(names, r))
    case Eq(e) => Two("=", ExprTree(names, e), Word("0"))
    case Det(e) => One("det", ExprTree(names, e))
    case Implies(a, b) => Two("=>", ConstraintTree(names, a), ConstraintTree(names, b))
    case Iff(a, b) => Two("<=>", ConstraintTree(names, a), ConstraintTree(names, b))
    case Not(a) => One("!", ConstraintTree(names, a))
    case And(a, b) => Two("&&", ConstraintTree(names, a), ConstraintTree(names, b))
    case Or(a, b) => Two("||", ConstraintTree(names, a), ConstraintTree(names, b))
  }

  /** `Display` for a constraint. */
  function Rendered(names: nat -> string, c: Constraint): string { Print(ConstraintTree(names, c)) }

  lemma {:induction false} ExprPrintable(names: nat -> string, e: Expr)
    requires GoodNames(names)
    ensures Printable(ExprTree(names, e))
  {
    hide GoodNames;
    match e
    case Const(_) =>
    case Var(x) => GoodName(names, x);
    case Neg(a) => ExprPrintable(names, a);
    case Pow(_, a) => ExprPrintable(names, a);
    case _ => ExprPrintable(names, e.left); ExprPrintable(names, e.right);
  }

  lemma GoodName(names: nat -> string, x: nat)
    requires GoodNames(names)
    ensures IsWord(names(x)) && !IsDigit(names(x)[0])
  {
  }

  lemma SameName(names: nat -> string, x: nat, y: nat)
    requires GoodNames(names) && names(x) == names(y)
    ensures x == y
  {
  }

  lemma {:induction false} ConstraintPrintable(names: nat -> string, c: Constraint)
    requires GoodNames(names)
    ensures Printable(ConstraintTree(names, c))
  {
    hide GoodNames, ExprTree;
    match c
    case Eq(e) => ExprPrintable(names, e);
    case Det(e) => ExprPrintable(names, e);
    case Not(a) => ConstraintPrintable(names, a);
    case Implies(a, b) => ConstraintPrintable(names, a); ConstraintPrintable(names, b);
    case Iff(a, b) => ConstraintPrintable(names, a); ConstraintPrintable(names, b);
    case And(a, b) => ConstraintPrintable(names, a); ConstraintPrintable(names, b);
    case Or(a, b) => ConstraintPrintable(names, a); ConstraintPrintable(names, b);
    case _ => ExprPrintable(names, c.l); ExprPrintable(names, c.r);
  }

  lemma {:induction false} ExprTreeInjective(names: nat -> string, d: Expr, e: Expr)
    requires GoodNames(names) && ExprTree(names, d) == ExprTree(names, e)
    ensures d == e
  {
    hide GoodNames, Decimal;
    SameKind(names, d, e);
    if d.Const? { DecimalInjective(d.c, e.c); }
    else if d.Var? { SameName(names, d.id, e.id); }
    else if d.Neg? { ExprTreeInjective(names, d.inner, e.inner); }
    else if d.Pow? {
      DecimalInjective(d.k, e.k);
      ExprTreeInjective(names, d.inner, e.inner);
    } else {
      ExprTreeInjective(names, d.left, e.left);
      ExprTreeInjective(names, d.right, e.right);
    }
  }

  function Kind(e: Expr): nat {
    match e
    case Const(_) => 0 case Var(_) => 1 case Add(_, _) => 2 case Sub(_, _) => 3
    case Mul(_, _) => 4 case Div(_, _) => 5 case Neg(_) => 6 case Pow(_, _) => 7
  }

  lemma SameKind(names: nat -> string, d: Expr, e: Expr)
    requires GoodNames(names) && ExprTree(names, d) == ExprTree(names, e)
    ensures Kind(d) == Kind(e)
  {
    hide GoodNames, Decimal;
    var x := ExprTree(names, d);
    if x.Word? {
      if d.Var? { GoodName(names, d.id); }
      if e.Var? { GoodName(names, e.id); }
    } else {
      assert |x.op| > 0;
    }
  }

  function ConstraintKind(c: Constraint): nat {
    match c
    case Lt(_, _) => 0 case Leq(_, _) => 1 case Gt(_, _) => 2 case Geq(_, _) => 3
    case Eq(_) => 4 case Det(_) => 5 case Implies(_, _) => 6 case Iff(_, _) => 7
    case Not(_) => 8 case And(_, _) => 9 case Or(_, _) => 10
  }

  lemma SameConstraintKind(names: nat -> string, c: Constraint, d: Constraint)
    requires ConstraintTree(names, c) == ConstraintTree(names, d)
    ensures ConstraintKind(c) == ConstraintKind(d)
  {
    hide ExprTree;
    var op := ConstraintTree(names, c).op;
    assert |op| > 0;
  }

  lemma {:induction false} ConstraintTreeInjective(names: nat -> string, c: Constraint, d: Constraint)
    requires GoodNames(names) && ConstraintTree(names, c) == ConstraintTree(names, d)
    ensures c == d
  {
    hide GoodNames, ExprTree;
    SameConstraintKind(names, c, d);
    if c.Eq? || c.Det? { ExprTreeInjective(names, c.e, d.e); }
    else if c.Not? { ConstraintTreeInjective(names, c.a, d.a); }
    else if c.Lt? || c.Leq? || c.Gt? || c.Geq? {
      ExprTreeInjective(names, c.l, d.l);
      ExprTreeInjective(names, c.r, d.r);
    } else {
      ConstraintTreeInjective(names, c.a, d.a);
      ConstraintTreeInjective(names, c.b, d.b);
    }
  }

  /** Two constraints print alike only if they are the same constraint. */
  lemma RenderedInjective(names: nat -> string, c: Constraint, d: Constraint)
    requires GoodNames(names) && Rendered(names, c) == Rendered(names, d)
    ensures c == d
  {
    hide GoodNames, Print, Printable, ConstraintTree;
    var x, y := ConstraintTree(names, c), ConstraintTree(names, d);
    ConstraintPrintable(names, c);
    ConstraintPrintable(names, d);
    assert Print(x) + "" == Print(y) + "";
    PrintSplit(x, y, "", "");
    ConstraintTreeInjective(names, c, d);
  }
}
