/** The LogUp permutation argument (crates/stark/src/permutation.rs) over an arbitrary
    field: the trace generator, the constraints, and the constraint counter. */
module LogUp {
  import opened Arithmetic
  import opened Fields
  import opened Powers

  datatype Scope = Global | Local

  datatype Row<F> = Row(preprocessed: seq<F>, main: seq<F>)

  /** A lookup: its argument index, and the columns giving its values and its
      multiplicity on a row. */
  datatype Lookup<!F> = Lookup(argument: nat, values: seq<Row<F> -> F>, multiplicity: Row<F> -> F, scope: Scope)

  /** A lookup together with its direction. */
  datatype Signed<!F> = Signed(lookup: Lookup<F>, isSend: bool)

  /** Everything the local permutation argument of a chip depends on. */
  datatype Challenge<F> = Challenge(alpha: F, beta: F)

  /** What a lookup says on a row: the argument index and the values. */
  datatype Message<F> = Message(argument: nat, values: seq<F>)

  function MessageOf<F>(l: Lookup<F>, row: Row<F>): Message<F> {
    Message(l.argument, seq(|l.values|, i requires 0 <= i < |l.values| => l.values[i](row)))
  }

  /** `sum_k beta^(from + k) * values[k]`. */
  function Rlc<F>(f: Field<F>, beta: F, values: seq<F>, from: nat): F
    decreases |values|
  {
    if values == [] then f.zero
    else f.add(f.mul(Power(f, beta, from), values[0]), Rlc(f, beta, values[1..], from + 1))
  }

  function Fingerprint<F>(f: Field<F>, ch: Challenge<F>, m: Message<F>): F {
    f.add(f.add(ch.alpha, f.mul(Power(f, ch.beta, 0), FromNat(f, m.argument))), Rlc(f, ch.beta, m.values, 1))
  }

  function Multiplicity<F>(f: Field<F>, s: Signed<F>, row: Row<F>): F {
    if s.isSend then s.lookup.multiplicity(row) else f.neg(s.lookup.multiplicity(row))
  }

  function RowFingerprint<F>(f: Field<F>, ch: Challenge<F>, s: Signed<F>, row: Row<F>): F {
    Fingerprint(f, ch, MessageOf(s.lookup, row))
  }

  /** The fraction a lookup contributes on a row. */
  function Fraction<F>(f: Field<F>, ch: Challenge<F>, s: Signed<F>, row: Row<F>): F {
    f.Div(Multiplicity(f, s, row), RowFingerprint(f, ch, s, row))
  }

  function Fractions<F>(f: Field<F>, ch: Challenge<F>, ss: seq<Signed<F>>, row: Row<F>): (r: seq<F>)
    ensures |r| == |ss| && forall i | 0 <= i < |ss| :: r[i] == Fraction(f, ch, ss[i], row)
  {
    seq(|ss|, i requires 0 <= i < |ss| => Fraction(f, ch, ss[i], row))
  }

  /** `scoped_lookups` at the local scope: a stable sort by scope keeps the order of
      the local lookups. */
  function LocalOf<F>(ls: seq<Lookup<F>>): seq<Lookup<F>> {
    if ls == [] then []
    else (if ls[0].scope == Local then [ls[0]] else []) + LocalOf(ls[1..])
  }

  function Directed<F>(ls: seq<Lookup<F>>, isSend: bool): (r: seq<Signed<F>>)
    ensures |r| == |ls|
  {
    seq(|ls|, i requires 0 <= i < |ls| => Signed(ls[i], isSend))
  }

  /** The local lookups of a chip in the order both sides chunk them: sends first. */
  function LocalLookups<F>(sends: seq<Lookup<F>>, receives: seq<Lookup<F>>): seq<Signed<F>> {
    Directed(LocalOf(sends), true) + Directed(LocalOf(receives), false)
  }

  function DivCeil(n: nat, d: nat): nat
    requires d > 0
  {
    (n + d - 1) / d
  }

  function TraceWidth(lookups: nat, batch: nat): nat
    requires batch > 0
  {
    if lookups == 0 then 0 else DivCeil(lookups, batch) + 1
  }

  function Chunks<T>(xs: seq<T>, batch: nat): (r: seq<seq<T>>)
    requires batch > 0
    ensures forall c | c in r :: c != []
  {
    if xs == [] then []
    else if |xs| <= batch then [xs]
    else [xs[..batch]] + Chunks(xs[batch..], batch)
  }

  lemma {:induction false} ChunkCount<T>(xs: seq<T>, batch: nat)
    requires batch > 0
    ensures |Chunks(xs, batch)| == DivCeil(|xs|, batch)
    decreases |xs|
  {
    hide DivCeil;
    if xs == [] {
      DivNone(batch);
    } else if |xs| <= batch {
      DivOne(|xs|, batch);
    } else {
      ChunkCount(xs[batch..], batch);
      DivNext(|xs|, batch);
    }
  }

  lemma DivNone(d: nat)
    requires d > 0
    ensures DivCeil(0, d) == 0
  {
    DivisionIs(0, d - 1, d);
  }

  lemma DivOne(n: nat, d: nat)
    requires 1 <= n <= d
    ensures DivCeil(n, d) == 1
  {
  }

  lemma DivNext(n: nat, d: nat)
    requires 0 < d < n
    ensures DivCeil(n, d) == 1 + DivCeil(n - d, d)
  {
    var q, r := (n - 1) / d, (n - 1) % d;
    assert n + d - 1 == d * (q + 1) + r;
    DivisionIs(q + 1, r, d);
  }

  // ----- The batch column -----

  function Fingerprints<F>(f: Field<F>, ch: Challenge<F>, ss: seq<Signed<F>>, row: Row<F>): (r: seq<F>)
    ensures |r| == |ss| && forall i | 0 <= i < |ss| :: r[i] == RowFingerprint(f, ch, ss[i], row)
  {
    seq(|ss|, i requires 0 <= i < |ss| => RowFingerprint(f, ch, ss[i], row))
  }

  function Multiplicities<F>(f: Field<F>, ss: seq<Signed<F>>, row: Row<F>): (r: seq<F>)
    ensures |r| == |ss| && forall i | 0 <= i < |ss| :: r[i] == Multiplicity(f, ss[i], row)
  {
    seq(|ss|, i requires 0 <= i < |ss| => Multiplicity(f, ss[i], row))
  }

  /** The product of all factors but the `i`-th. */
  function AllBut<F>(f: Field<F>, xs: seq<F>, i: nat): F
    requires i < |xs|
  {
    Product(f, xs[..i] + xs[i + 1..])
  }

  /** `sum_{i < n} m_i * prod_{j != i} rlc_j`. */
  function Numerator<F>(f: Field<F>, ms: seq<F>, rlcs: seq<F>, n: nat): F
    requires |ms| == |rlcs| && n <= |ms|
  {
    if n == 0 then f.zero
    else f.add(Numerator(f, ms, rlcs, n - 1), f.mul(ms[n - 1], AllBut(f, rlcs, n - 1)))
  }

  ghost predicate Nonzero<F>(f: Field<F>, xs: seq<F>) {
    forall i | 0 <= i < |xs| :: xs[i] != f.zero
  }

  lemma AllButProduct<F(!new)>(f: Field<F>, xs: seq<F>, i: nat)
    requires IsField(f) && i < |xs|
    ensures f.mul(AllBut(f, xs, i), xs[i]) == Product(f, xs)
  {
    hide Product, IsField;
    var a, b, x := xs[..i], xs[i + 1..], xs[i];
    assert xs == (a + [x]) + b;
    ProductConcat(f, a, b);
    ProductConcat(f, a + [x], b);
    ProductSnoc(f, a, x);
    MulAssoc(f, Product(f, a), Product(f, b), x);
    MulComm(f, Product(f, b), x);
    MulAssoc(f, Product(f, a), x, Product(f, b));
  }

  /** One term: `m * prod_{j != i} rlc_j == prod_j rlc_j * (m / rlc_i)`. */
  lemma TermScaled<F(!new)>(f: Field<F>, m: F, rlcs: seq<F>, i: nat)
    requires IsField(f) && i < |rlcs| && rlcs[i] != f.zero
    ensures f.mul(m, AllBut(f, rlcs, i)) == f.mul(Product(f, rlcs), f.Div(m, rlcs[i]))
  {
    var a, x := AllBut(f, rlcs, i), rlcs[i];
    AllButProduct(f, rlcs, i);
    var inv := f.inv(x);
    calc {
      f.mul(f.mul(a, x), f.mul(m, inv));
    == { MulComm(f, m, inv); MulAssoc(f, a, x, f.mul(inv, m)); MulAssoc(f, x, inv, m); }
      f.mul(a, f.mul(f.mul(x, inv), m));
    == { MulInv(f, x); MulOne(f, m); MulComm(f, a, m); }
      f.mul(m, a);
    }
  }

  lemma {:induction false} NumeratorScaled<F(!new)>(f: Field<F>, ms: seq<F>, rlcs: seq<F>, fs: seq<F>, n: nat)
    requires IsField(f) && |ms| == |rlcs| == |fs| && n <= |ms| && Nonzero(f, rlcs)
    requires forall i | 0 <= i < |ms| :: fs[i] == f.Div(ms[i], rlcs[i])
    ensures Numerator(f, ms, rlcs, n) == f.mul(Product(f, rlcs), Sum(f, fs[..n]))
  {
    if n == 0 {
      MulZero(f, Product(f, rlcs));
    } else {
      NumeratorScaled(f, ms, rlcs, fs, n - 1);
      TermScaled(f, ms[n - 1], rlcs, n - 1);
      assert fs[..n] == fs[..n - 1] + [fs[n - 1]];
      SumSnoc(f, fs[..n - 1], fs[n - 1]);
      Distrib(f, Product(f, rlcs), Sum(f, fs[..n - 1]), fs[n - 1]);
    }
  }

  /** The value a batch constraint asserts to be zero: `prod * entry - numerator`. */
  function BatchValue<F>(f: Field<F>, ch: Challenge<F>, ss: seq<Signed<F>>, row: Row<F>, entry: F): F {
    var rlcs := Fingerprints(f, ch, ss, row);
    f.Sub(f.mul(Product(f, rlcs), entry), Numerator(f, Multiplicities(f, ss, row), rlcs, |ss|))
  }

  /** The batch constraint says exactly that the entry is the sum of the fractions. */
  lemma BatchConstraint<F(!new)>(f: Field<F>, ch: Challenge<F>, ss: seq<Signed<F>>, row: Row<F>, entry: F)
    requires IsField(f) && Nonzero(f, Fingerprints(f, ch, ss, row))
    ensures BatchValue(f, ch, ss, row, entry) == f.zero <==> entry == Sum(f, Fractions(f, ch, ss, row))
  {
    var ms, rlcs, fs := Multiplicities(f, ss, row), Fingerprints(f, ch, ss, row), Fractions(f, ch, ss, row);
    var p, s := Product(f, rlcs), Sum(f, fs);
    NumeratorScaled(f, ms, rlcs, fs, |ss|);
    assert fs[..|ss|] == fs;
    SubZero(f, f.mul(p, entry), f.mul(p, s));
    ProductNonzero(f, rlcs);
    if f.mul(p, entry) == f.mul(p, s) {
      MulCancel(f, p, entry, s);
    }
  }

  /** The factors below `j`, leaving out index `i`. */
  function Others<T>(xs: seq<T>, i: nat, j: nat): seq<T>
    requires i < |xs| && j <= |xs|
  {
    if j <= i then xs[..j] else xs[..i] + xs[i + 1..j]
  }

  lemma OthersNext<T>(xs: seq<T>, i: nat, j: nat)
    requires i < |xs| && j < |xs|
    ensures Others(xs, i, j + 1) == if i == j then Others(xs, i, j) else Others(xs, i, j) + [xs[j]]
  {}

  lemma OthersAll<F>(f: Field<F>, xs: seq<F>, i: nat)
    requires i < |xs|
    ensures Product(f, Others(xs, i, |xs|)) == AllBut(f, xs, i)
  {
    assert xs[i + 1..|xs|] == xs[i + 1..];
  }

  /** The inner loop of the evaluator: multiplies every factor whose index is not `i`. */
  method MultiplyOthers<F>(f: Field<F>, xs: seq<F>, i: nat) returns (others: F)
    requires i < |xs|
    ensures others == AllBut(f, xs, i)
  {
    hide Others, AllBut;
    others := f.one;
    assert Product(f, []) == f.one;
    OthersNone(xs, i);
    for j := 0 to |xs|
      invariant others == Product(f, Others(xs, i, j))
    {
      hide Product;
      OthersNext(xs, i, j);
      if i != j {
        ProductSnoc(f, Others(xs, i, j), xs[j]);
        others := f.mul(others, xs[j]);
      }
    }
    OthersAll(f, xs, i);
  }

  lemma OthersNone<T>(xs: seq<T>, i: nat)
    requires i < |xs|
    ensures Others(xs, i, 0) == []
  {}

  lemma ProductTake<F>(f: Field<F>, xs: seq<F>, i: nat)
    requires i < |xs|
    ensures Product(f, xs[..i + 1]) == f.mul(Product(f, xs[..i]), xs[i])
  {
    assert xs[..i + 1] == xs[..i] + [xs[i]];
    ProductSnoc(f, xs[..i], xs[i]);
  }

  lemma NumeratorNext<F>(f: Field<F>, ms: seq<F>, rlcs: seq<F>, i: nat)
    requires |ms| == |rlcs| && i < |ms|
    ensures Numerator(f, ms, rlcs, i + 1)
         == f.add(Numerator(f, ms, rlcs, i), f.mul(ms[i], AllBut(f, rlcs, i)))
  {}

  /** Computes a batch constraint as the evaluator does: a running product, and for
      each lookup the product of the other fingerprints. */
  method EvalBatch<F>(f: Field<F>, ch: Challenge<F>, ss: seq<Signed<F>>, row: Row<F>, entry: F) returns (v: F)
    ensures v == BatchValue(f, ch, ss, row, entry)
  {
    hide AllBut;
    var rlcs, ms := Fingerprints(f, ch, ss, row), Multiplicities(f, ss, row);
    var product, numerator := f.one, f.zero;
    for i := 0 to |ss|
      invariant product == Product(f, rlcs[..i])
      invariant numerator == Numerator(f, ms, rlcs, i)
    {
      hide Product, Numerator, BatchValue, Fingerprints, Multiplicities;
      ProductTake(f, rlcs, i);
      NumeratorNext(f, ms, rlcs, i);
      product := f.mul(product, rlcs[i]);
      var others := MultiplyOthers(f, rlcs, i);
      numerator := f.add(numerator, f.mul(ms[i], others));
    }
    assert rlcs[..|ss|] == rlcs;
    v := f.Sub(f.mul(product, entry), numerator);
  }
}
