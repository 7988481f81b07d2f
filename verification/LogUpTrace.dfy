/** Whole permutation traces: generation, the constraints on every row, and what they
    force the cumulative sum to be. */
module LogUpTrace {
  import opened Fields
  import opened LogUp

  /** The values of the row selectors on one row. */
  datatype Selectors<F> = Selectors(first: F, last: F, transition: F)

  /** The batch columns of a row. */
  function Entries<F>(f: Field<F>, ch: Challenge<F>, chunks: seq<seq<Signed<F>>>, row: Row<F>): (r: seq<F>)
    ensures |r| == |chunks| && forall i | 0 <= i < |chunks| :: r[i] == Sum(f, Fractions(f, ch, chunks[i], row))
  {
    seq(|chunks|, i requires 0 <= i < |chunks| => Sum(f, Fractions(f, ch, chunks[i], row)))
  }

  /** What a row adds to the running sum. */
  function RowSum<F>(f: Field<F>, ch: Challenge<F>, ss: seq<Signed<F>>, row: Row<F>): F {
    Sum(f, Fractions(f, ch, ss, row))
  }

  /** The sum over all rows and lookups of plus or minus multiplicity over fingerprint. */
  function TotalSum<F>(f: Field<F>, ch: Challenge<F>, ss: seq<Signed<F>>, rows: seq<Row<F>>): F {
    if rows == [] then f.zero
    else f.add(TotalSum(f, ch, ss, rows[..|rows| - 1]), RowSum(f, ch, ss, rows[|rows| - 1]))
  }

  function BatchValues<F>(f: Field<F>, ch: Challenge<F>, chunks: seq<seq<Signed<F>>>, row: Row<F>, perm: seq<F>)
    : (r: seq<F>)
    requires |chunks| <= |perm|
    ensures |r| == |chunks|
    ensures forall i | 0 <= i < |chunks| :: r[i] == BatchValue(f, ch, chunks[i], row, perm[i])
  {
    seq(|chunks|, i requires 0 <= i < |chunks| => BatchValue(f, ch, chunks[i], row, perm[i]))
  }

  /** The asserted values of the local argument on one row. */
  function LocalValues<F>(f: Field<F>, ch: Challenge<F>, ss: seq<Signed<F>>, batch: nat, row: Row<F>,
                          perm: seq<F>, next: seq<F>, sel: Selectors<F>, sum: F): seq<F>
    requires batch > 0 && |perm| == |next| == TraceWidth(|ss|, batch)
  {
    if ss == [] then []
    else
      var w := |perm| - 1;
      ChunkCount(ss, batch);
      BatchValues(f, ch, Chunks(ss, batch), row, perm)
      + [f.mul(sel.first, f.Sub(perm[w], Sum(f, perm[..w]))),
         f.mul(sel.transition, f.Sub(f.Sub(next[w], perm[w]), Sum(f, next[..w]))),
         f.mul(sel.last, f.Sub(perm[w], sum))]
  }

  /** A digest: seven coordinates each of `x` and `y`. */
  datatype Digest<F> = Digest(x: seq<F>, y: seq<F>)

  /** The asserted values of the global argument: the last fourteen columns of the last
      row are the digest. */
  function GlobalValues<F>(f: Field<F>, scope: Scope, main: seq<F>, sel: Selectors<F>, digest: Digest<F>, i: nat)
    : seq<F>
    requires scope == Global ==> |main| >= 14 && |digest.x| == 7 && |digest.y| == 7
    decreases 7 - i
  {
    if scope != Global || i >= 7 then []
    else
      [f.mul(sel.last, f.Sub(main[|main| - 14 + i], digest.x[i])),
       f.mul(sel.last, f.Sub(main[|main| - 7 + i], digest.y[i]))]
      + GlobalValues(f, scope, main, sel, digest, i + 1)
  }

  /** `count_permutation_constraints`. */
  function CountPermutationConstraints<F>(sends: seq<Lookup<F>>, receives: seq<Lookup<F>>, batch: nat, scope: Scope)
    : nat
    requires batch > 0
  {
    var n := |LocalOf(sends)| + |LocalOf(receives)|;
    (if n > 0 then TraceWidth(n, batch) - 1 + 3 else 0) + (if scope == Global then 14 else 0)
  }

  method EvalLocalConstraints<F>(f: Field<F>, ch: Challenge<F>, ss: seq<Signed<F>>, batch: nat, row: Row<F>,
      perm: seq<F>, next: seq<F>, sel: Selectors<F>, sum: F)
    returns (asserted: seq<F>)
    requires batch > 0 && |perm| == |next| == TraceWidth(|ss|, batch)
    ensures asserted == LocalValues(f, ch, ss, batch, row, perm, next, sel, sum)
  {
    hide BatchValue, Chunks, DivCeil, Sum;
    asserted := [];
    if ss != [] {
      var chunks, w := Chunks(ss, batch), |perm| - 1;
      ChunkCount(ss, batch);
      ghost var values := BatchValues(f, ch, chunks, row, perm);
      for i := 0 to |chunks|
        invariant asserted == values[..i]
      {
        var v := EvalBatch(f, ch, chunks[i], row, perm[i]);
        asserted := asserted + [v];
      }
      assert asserted == values;
      asserted := asserted
      + [f.mul(sel.first, f.Sub(perm[w], Sum(f, perm[..w]))),
         f.mul(sel.transition, f.Sub(f.Sub(next[w], perm[w]), Sum(f, next[..w]))),
         f.mul(sel.last, f.Sub(perm[w], sum))];
    }
  }

  method EvalGlobalConstraints<F>(f: Field<F>, scope: Scope, main: seq<F>, sel: Selectors<F>, digest: Digest<F>)
    returns (asserted: seq<F>)
    requires scope == Global ==> |main| >= 14 && |digest.x| == 7 && |digest.y| == 7
    ensures asserted == GlobalValues(f, scope, main, sel, digest, 0)
  {
    asserted := [];
    if scope == Global {
      for i := 0 to 7
        invariant asserted + GlobalValues(f, scope, main, sel, digest, i)
               == GlobalValues(f, scope, main, sel, digest, 0)
      {
        asserted := asserted
        + [f.mul(sel.last, f.Sub(main[|main| - 14 + i], digest.x[i])),
           f.mul(sel.last, f.Sub(main[|main| - 7 + i], digest.y[i]))];
      }
    }
  }

  /** The evaluator asserts as many values as the hand-kept counter says, for every
      list of lookups, batch size and scope. */
  method EvalPermutationConstraints<F>(f: Field<F>, ch: Challenge<F>, sends: seq<Lookup<F>>, receives: seq<Lookup<F>>,
      batch: nat, scope: Scope, row: Row<F>, perm: seq<F>, next: seq<F>, sel: Selectors<F>, sum: F, digest: Digest<F>)
    returns (asserted: seq<F>)
    requires batch > 0
    requires |perm| == |next| == TraceWidth(|LocalLookups(sends, receives)|, batch)
    requires scope == Global ==> |row.main| >= 14 && |digest.x| == 7 && |digest.y| == 7
    ensures asserted ==
      LocalValues(f, ch, LocalLookups(sends, receives), batch, row, perm, next, sel, sum)
      + GlobalValues(f, scope, row.main, sel, digest, 0)
    ensures |asserted| == CountPermutationConstraints(sends, receives, batch, scope)
  {
    hide LocalValues, GlobalValues;
    var ss := LocalLookups(sends, receives);
    var local := EvalLocalConstraints(f, ch, ss, batch, row, perm, next, sel, sum);
    var global := EvalGlobalConstraints(f, scope, row.main, sel, digest);
    asserted := local + global;
    LocalCount(f, ch, ss, batch, row, perm, next, sel, sum);
    GlobalCount(f, scope, row.main, sel, digest, 0);
  }

  lemma LocalCount<F>(f: Field<F>, ch: Challenge<F>, ss: seq<Signed<F>>, batch: nat, row: Row<F>,
                      perm: seq<F>, next: seq<F>, sel: Selectors<F>, sum: F)
    requires batch > 0 && |perm| == |next| == TraceWidth(|ss|, batch)
    ensures |LocalValues(f, ch, ss, batch, row, perm, next, sel, sum)| == if ss == [] then 0 else |perm| - 1 + 3
  {
    hide BatchValue;
    ChunkCount(ss, batch);
  }

  lemma {:induction false} GlobalCount<F>(f: Field<F>, scope: Scope, main: seq<F>, sel: Selectors<F>,
                                          digest: Digest<F>, i: nat)
    requires scope == Global ==> |main| >= 14 && |digest.x| == 7 && |digest.y| == 7
    requires i <= 7
    ensures |GlobalValues(f, scope, main, sel, digest, i)| == if scope == Global then 14 - 2 * i else 0
    decreases 7 - i
  {
    if i < 7 {
      GlobalCount(f, scope, main, sel, digest, i + 1);
    }
  }

  // ----- What the constraints force -----

  /** The selectors vanish exactly off their rows. */
  ghost predicate GoodSelectors<F>(f: Field<F>, sels: seq<Selectors<F>>) {
    forall r | 0 <= r < |sels| ::
      && (sels[r].first != f.zero <==> r == 0)
      && (sels[r].last != f.zero <==> r == |sels| - 1)
      && (sels[r].transition != f.zero <==> r != |sels| - 1)
  }

  predicate TraceShape<F>(ss: seq<Signed<F>>, batch: nat, rows: seq<Row<F>>, trace: seq<seq<F>>,
                          sels: seq<Selectors<F>>)
    requires batch > 0
  {
    && |trace| == |rows| == |sels| >= 1
    && forall r | 0 <= r < |trace| :: |trace[r]| == TraceWidth(|ss|, batch)
  }

  function NextRow<T>(trace: seq<T>, r: nat): T
    requires r < |trace|
  {
    trace[if r + 1 < |trace| then r + 1 else 0]
  }

  /** Every asserted value is zero on every row; the row after the last is the first. */
  ghost predicate Satisfied<F>(f: Field<F>, ch: Challenge<F>, ss: seq<Signed<F>>, batch: nat, rows: seq<Row<F>>,
                               trace: seq<seq<F>>, sels: seq<Selectors<F>>, sum: F)
    requires batch > 0 && TraceShape(ss, batch, rows, trace, sels)
  {
    forall r | 0 <= r < |rows| ::
      AllZero(f, LocalValues(f, ch, ss, batch, rows[r], trace[r], NextRow(trace, r), sels[r], sum))
  }

  ghost predicate NoZeroFingerprint<F>(f: Field<F>, ch: Challenge<F>, ss: seq<Signed<F>>, rows: seq<Row<F>>) {
    forall r, i | 0 <= r < |rows| && 0 <= i < |ss| :: RowFingerprint(f, ch, ss[i], rows[r]) != f.zero
  }

  /** The trace the generator makes: batch columns, then the running sum. */
  function TraceRow<F>(f: Field<F>, ch: Challenge<F>, ss: seq<Signed<F>>, batch: nat, rows: seq<Row<F>>, r: nat): seq<F>
    requires batch > 0 && r < |rows|
  {
    Entries(f, ch, Chunks(ss, batch), rows[r]) + [TotalSum(f, ch, ss, rows[..r + 1])]
  }

  ghost predicate IsGenerated<F>(f: Field<F>, ch: Challenge<F>, ss: seq<Signed<F>>, batch: nat, rows: seq<Row<F>>,
                                 trace: seq<seq<F>>, sum: F)
    requires batch > 0
  {
    && |trace| == |rows|
    && (forall r | 0 <= r < |rows| :: trace[r] == TraceRow(f, ch, ss, batch, rows, r))
    && sum == TotalSum(f, ch, ss, rows)
  }

  /** What one row asserts, said about the row itself. */
  ghost predicate RowMeans<F>(f: Field<F>, ch: Challenge<F>, ss: seq<Signed<F>>, batch: nat, row: Row<F>,
                              perm: seq<F>, next: seq<F>, sel: Selectors<F>, sum: F)
    requires batch > 0 && ss != [] && |perm| == |next| == TraceWidth(|ss|, batch)
  {
    var w := |perm| - 1;
    && perm[..w] == Entries(f, ch, Chunks(ss, batch), row)
    && (sel.first != f.zero ==> perm[w] == Sum(f, perm[..w]))
    && (sel.transition != f.zero ==> next[w] == f.add(perm[w], Sum(f, next[..w])))
    && (sel.last != f.zero ==> perm[w] == sum)
  }

  lemma ChunkFingerprints<F>(f: Field<F>, ch: Challenge<F>, ss: seq<Signed<F>>, batch: nat, row: Row<F>, i: nat)
    requires batch > 0 && i < |Chunks(ss, batch)|
    requires forall k | 0 <= k < |ss| :: RowFingerprint(f, ch, ss[k], row) != f.zero
    ensures Nonzero(f, Fingerprints(f, ch, Chunks(ss, batch)[i], row))
    decreases |ss|
  {
    if |ss| > batch && i > 0 {
      ChunkFingerprints(f, ch, ss[batch..], batch, row, i - 1);
    }
  }

  lemma ProductZero<F(!new)>(f: Field<F>, s: F, x: F, y: F)
    requires IsField(f)
    ensures f.mul(s, f.Sub(x, y)) == f.zero <==> (s != f.zero ==> x == y)
  {
    NoZeroDivisor(f, s, f.Sub(x, y));
    SubZero(f, x, y);
  }

  lemma BatchesMean<F(!new)>(f: Field<F>, ch: Challenge<F>, ss: seq<Signed<F>>, batch: nat, row: Row<F>, perm: seq<F>)
    requires IsField(f) && batch > 0 && |perm| == |Chunks(ss, batch)|
    requires forall k | 0 <= k < |ss| :: RowFingerprint(f, ch, ss[k], row) != f.zero
    ensures AllZero(f, BatchValues(f, ch, Chunks(ss, batch), row, perm))
       <==> perm == Entries(f, ch, Chunks(ss, batch), row)
  {
    hide BatchValue, Sum, IsField, RowFingerprint;
    var chunks := Chunks(ss, batch);
    var vs, es := BatchValues(f, ch, chunks, row, perm), Entries(f, ch, chunks, row);
    forall i | 0 <= i < |chunks| ensures vs[i] == f.zero <==> perm[i] == es[i] {
      ChunkFingerprints(f, ch, ss, batch, row, i);
      BatchConstraint(f, ch, chunks[i], row, perm[i]);
    }
  }

  lemma AllZeroConcat<F>(f: Field<F>, a: seq<F>, b: seq<F>)
    ensures AllZero(f, a + b) <==> AllZero(f, a) && AllZero(f, b)
  {
    var c := a + b;
    if AllZero(f, c) {
      forall i | 0 <= i < |a| ensures a[i] == f.zero { assert c[i] == a[i]; }
      forall i | 0 <= i < |b| ensures b[i] == f.zero { assert c[|a| + i] == b[i]; }
    }
  }

  lemma AllZeroThree<F>(f: Field<F>, x: F, y: F, z: F)
    ensures AllZero(f, [x, y, z]) <==> x == f.zero && y == f.zero && z == f.zero
  {
    var xs := [x, y, z];
    assert xs[0] == x && xs[1] == y && xs[2] == z;
  }

  lemma RowConstraints<F(!new)>(f: Field<F>, ch: Challenge<F>, ss: seq<Signed<F>>, batch: nat, row: Row<F>,
                                perm: seq<F>, next: seq<F>, sel: Selectors<F>, sum: F)
    requires IsField(f) && batch > 0 && ss != [] && |perm| == |next| == TraceWidth(|ss|, batch)
    requires forall k | 0 <= k < |ss| :: RowFingerprint(f, ch, ss[k], row) != f.zero
    ensures AllZero(f, LocalValues(f, ch, ss, batch, row, perm, next, sel, sum))
       <==> RowMeans(f, ch, ss, batch, row, perm, next, sel, sum)
  {
    hide Sum, IsField, RowFingerprint, BatchValue, AllZero;
    ChunkCount(ss, batch);
    hide DivCeil, Chunks;
    var w := |perm| - 1;
    BatchesMean(f, ch, ss, batch, row, perm[..w]);
    assert BatchValues(f, ch, Chunks(ss, batch), row, perm) == BatchValues(f, ch, Chunks(ss, batch), row, perm[..w]);
    ProductZero(f, sel.first, perm[w], Sum(f, perm[..w]));
    ProductZero(f, sel.transition, f.Sub(next[w], perm[w]), Sum(f, next[..w]));
    SubIs(f, next[w], perm[w], Sum(f, next[..w]));
    ProductZero(f, sel.last, perm[w], sum);
    var vs := BatchValues(f, ch, Chunks(ss, batch), row, perm);
    var x, y, z := f.mul(sel.first, f.Sub(perm[w], Sum(f, perm[..w]))),
                   f.mul(sel.transition, f.Sub(f.Sub(next[w], perm[w]), Sum(f, next[..w]))),
                   f.mul(sel.last, f.Sub(perm[w], sum));
    AllZeroConcat(f, vs, [x, y, z]);
    AllZeroThree(f, x, y, z);
  }

  lemma EntriesCons<F>(f: Field<F>, ch: Challenge<F>, c: seq<Signed<F>>, cs: seq<seq<Signed<F>>>, row: Row<F>)
    ensures Entries(f, ch, [c] + cs, row) == [RowSum(f, ch, c, row)] + Entries(f, ch, cs, row)
  {
    hide Fractions, Sum;
  }

  lemma RowSumConcat<F(!new)>(f: Field<F>, ch: Challenge<F>, a: seq<Signed<F>>, b: seq<Signed<F>>, row: Row<F>)
    requires IsField(f)
    ensures RowSum(f, ch, a + b, row) == f.add(RowSum(f, ch, a, row), RowSum(f, ch, b, row))
  {
    hide Fraction, Sum, IsField;
    assert Fractions(f, ch, a + b, row) == Fractions(f, ch, a, row) + Fractions(f, ch, b, row);
    SumConcat(f, Fractions(f, ch, a, row), Fractions(f, ch, b, row));
  }

  /** Batching does not change what a row adds. */
  lemma {:induction false} EntriesSum<F(!new)>(f: Field<F>, ch: Challenge<F>, ss: seq<Signed<F>>, batch: nat,
                                               row: Row<F>)
    requires IsField(f) && batch > 0
    ensures Sum(f, Entries(f, ch, Chunks(ss, batch), row)) == RowSum(f, ch, ss, row)
    decreases |ss|
  {
    if ss == [] {
      assert Entries(f, ch, [], row) == [] && Fractions(f, ch, ss, row) == [];
    } else {
      hide IsField, Sum, RowSum, Entries;
      var head, tail := if |ss| <= batch then ss else ss[..batch], if |ss| <= batch then [] else ss[batch..];
      assert ss == head + tail && Chunks(ss, batch) == [head] + Chunks(tail, batch);
      EntriesSum(f, ch, tail, batch, row);
      EntriesCons(f, ch, head, Chunks(tail, batch), row);
      SumConcat(f, [RowSum(f, ch, head, row)], Entries(f, ch, Chunks(tail, batch), row));
      SumOne(f, RowSum(f, ch, head, row));
      RowSumConcat(f, ch, head, tail, row);
    }
  }

  lemma TotalSumNext<F(!new)>(f: Field<F>, ch: Challenge<F>, ss: seq<Signed<F>>, rows: seq<Row<F>>, r: nat)
    requires IsField(f) && r < |rows|
    ensures TotalSum(f, ch, ss, rows[..r + 1]) == f.add(TotalSum(f, ch, ss, rows[..r]), RowSum(f, ch, ss, rows[r]))
    ensures r == 0 ==> TotalSum(f, ch, ss, rows[..r + 1]) == RowSum(f, ch, ss, rows[r])
  {
    assert rows[..r + 1][..r] == rows[..r];
    AddZero(f, RowSum(f, ch, ss, rows[r]));
  }

  lemma RowOf<F(!new)>(f: Field<F>, ch: Challenge<F>, ss: seq<Signed<F>>, batch: nat, rows: seq<Row<F>>,
                       trace: seq<seq<F>>, sels: seq<Selectors<F>>, sum: F, r: nat)
    requires IsField(f) && batch > 0 && ss != [] && TraceShape(ss, batch, rows, trace, sels) && r < |rows|
    requires NoZeroFingerprint(f, ch, ss, rows)
    ensures
      var next := NextRow(trace, r);
      AllZero(f, LocalValues(f, ch, ss, batch, rows[r], trace[r], next, sels[r], sum))
      <==> RowMeans(f, ch, ss, batch, rows[r], trace[r], next, sels[r], sum)
  {
    hide LocalValues, RowMeans;
    RowConstraints(f, ch, ss, batch, rows[r], trace[r], NextRow(trace, r), sels[r], sum);
  }

  /** The running sum column of a satisfying trace. */
  lemma {:induction false} RunningSum<F(!new)>(f: Field<F>, ch: Challenge<F>, ss: seq<Signed<F>>, batch: nat,
      rows: seq<Row<F>>, trace: seq<seq<F>>, sels: seq<Selectors<F>>, sum: F, r: nat)
    requires IsField(f) && batch > 0 && ss != [] && TraceShape(ss, batch, rows, trace, sels) && r < |rows|
    requires NoZeroFingerprint(f, ch, ss, rows) && GoodSelectors(f, sels)
    requires Satisfied(f, ch, ss, batch, rows, trace, sels, sum)
    ensures trace[r] == TraceRow(f, ch, ss, batch, rows, r)
    ensures r == |rows| - 1 ==> sum == TotalSum(f, ch, ss, rows)
  {
    hide IsField, NoZeroFingerprint, LocalValues, Chunks, DivCeil, Sum, TotalSum, RowSum, TraceRow, RowMeans, Entries,
         AllZero;
    RowOf(f, ch, ss, batch, rows, trace, sels, sum, r);
    if r == 0 {
      FirstRowIs(f, ch, ss, batch, rows, trace[0], NextRow(trace, 0), sels[0], sum);
    } else {
      RunningSum(f, ch, ss, batch, rows, trace, sels, sum, r - 1);
      RowOf(f, ch, ss, batch, rows, trace, sels, sum, r - 1);
      NextRowIs(f, ch, ss, batch, rows, trace[r - 1], trace[r], NextRow(trace, r), sels[r - 1], sels[r], sum, r);
    }
    if r == |rows| - 1 {
      LastRowIs(f, ch, ss, batch, rows, trace[r], NextRow(trace, r), sels[r], sum);
    }
  }

  lemma FirstRowIs<F(!new)>(f: Field<F>, ch: Challenge<F>, ss: seq<Signed<F>>, batch: nat, rows: seq<Row<F>>,
                            perm: seq<F>, next: seq<F>, sel: Selectors<F>, sum: F)
    requires IsField(f) && batch > 0 && ss != [] && rows != []
    requires |perm| == |next| == TraceWidth(|ss|, batch) && sel.first != f.zero
    requires RowMeans(f, ch, ss, batch, rows[0], perm, next, sel, sum)
    ensures perm == TraceRow(f, ch, ss, batch, rows, 0)
  {
    hide IsField, Chunks, DivCeil, Sum, TotalSum, RowSum, Entries;
    EntriesSum(f, ch, ss, batch, rows[0]);
    TotalSumNext(f, ch, ss, rows, 0);
  }

  lemma NextRowIs<F(!new)>(f: Field<F>, ch: Challenge<F>, ss: seq<Signed<F>>, batch: nat, rows: seq<Row<F>>,
                           before: seq<F>, perm: seq<F>, next: seq<F>, selBefore: Selectors<F>, sel: Selectors<F>,
                           sum: F, r: nat)
    requires IsField(f) && batch > 0 && ss != [] && 0 < r < |rows|
    requires |before| == |perm| == |next| == TraceWidth(|ss|, batch) && selBefore.transition != f.zero
    requires before == TraceRow(f, ch, ss, batch, rows, r - 1)
    requires RowMeans(f, ch, ss, batch, rows[r - 1], before, perm, selBefore, sum)
    requires RowMeans(f, ch, ss, batch, rows[r], perm, next, sel, sum)
    ensures perm == TraceRow(f, ch, ss, batch, rows, r)
  {
    hide IsField, Chunks, DivCeil, Sum, TotalSum, RowSum, Entries;
    EntriesSum(f, ch, ss, batch, rows[r]);
    TotalSumNext(f, ch, ss, rows, r);
  }

  lemma LastRowIs<F(!new)>(f: Field<F>, ch: Challenge<F>, ss: seq<Signed<F>>, batch: nat, rows: seq<Row<F>>,
                           perm: seq<F>, next: seq<F>, sel: Selectors<F>, sum: F)
    requires batch > 0 && ss != [] && rows != []
    requires |perm| == |next| == TraceWidth(|ss|, batch) && sel.last != f.zero
    requires perm == TraceRow(f, ch, ss, batch, rows, |rows| - 1)
    requires RowMeans(f, ch, ss, batch, rows[|rows| - 1], perm, next, sel, sum)
    ensures sum == TotalSum(f, ch, ss, rows)
  {
    hide Chunks, DivCeil, Sum, TotalSum, RowSum, Entries;
    assert rows[..|rows|] == rows;
  }

  /** A generated row satisfies its constraints. */
  lemma GeneratedRow<F(!new)>(f: Field<F>, ch: Challenge<F>, ss: seq<Signed<F>>, batch: nat,
      rows: seq<Row<F>>, trace: seq<seq<F>>, sels: seq<Selectors<F>>, sum: F, r: nat)
    requires IsField(f) && batch > 0 && ss != [] && TraceShape(ss, batch, rows, trace, sels) && r < |rows|
    requires NoZeroFingerprint(f, ch, ss, rows) && GoodSelectors(f, sels)
    requires IsGenerated(f, ch, ss, batch, rows, trace, sum)
    ensures
      AllZero(f, LocalValues(f, ch, ss, batch, rows[r], trace[r], NextRow(trace, r), sels[r], sum))
  {
    hide IsField, NoZeroFingerprint, LocalValues, Chunks, DivCeil, Sum, TotalSum, RowSum;
    RowOf(f, ch, ss, batch, rows, trace, sels, sum, r);
    EntriesSum(f, ch, ss, batch, rows[r]);
    TotalSumNext(f, ch, ss, rows, r);
    var w := |trace[r]| - 1;
    assert trace[r][..w] == Entries(f, ch, Chunks(ss, batch), rows[r]);
    if r + 1 < |rows| {
      EntriesSum(f, ch, ss, batch, rows[r + 1]);
      TotalSumNext(f, ch, ss, rows, r + 1);
      assert trace[r + 1][..w] == Entries(f, ch, Chunks(ss, batch), rows[r + 1]);
    } else {
      assert rows[..r + 1] == rows;
    }
  }

  /** LogUp is sound and complete: without zero fingerprints, a trace and a sum satisfy
      the constraints exactly when they are the generated ones.  In particular the
      cumulative sum is the sum of all signed fractions, whatever the batch size. */
  lemma LogUpExact<F(!new)>(f: Field<F>, ch: Challenge<F>, ss: seq<Signed<F>>, batch: nat, rows: seq<Row<F>>,
                            trace: seq<seq<F>>, sels: seq<Selectors<F>>, sum: F)
    requires IsField(f) && batch > 0 && ss != [] && TraceShape(ss, batch, rows, trace, sels)
    requires NoZeroFingerprint(f, ch, ss, rows) && GoodSelectors(f, sels)
    ensures Satisfied(f, ch, ss, batch, rows, trace, sels, sum) <==> IsGenerated(f, ch, ss, batch, rows, trace, sum)
  {
    hide IsField, NoZeroFingerprint, LocalValues, TraceRow, TotalSum;
    if Satisfied(f, ch, ss, batch, rows, trace, sels, sum) {
      forall r | 0 <= r < |rows|
        ensures trace[r] == TraceRow(f, ch, ss, batch, rows, r)
        ensures r == |rows| - 1 ==> sum == TotalSum(f, ch, ss, rows)
      {
        RunningSum(f, ch, ss, batch, rows, trace, sels, sum, r);
      }
      RunningSum(f, ch, ss, batch, rows, trace, sels, sum, |rows| - 1);
    }
    if IsGenerated(f, ch, ss, batch, rows, trace, sum) {
      forall r | 0 <= r < |rows|
        ensures AllZero(f, LocalValues(f, ch, ss, batch, rows[r], trace[r], NextRow(trace, r), sels[r], sum))
      {
        GeneratedRow(f, ch, ss, batch, rows, trace, sels, sum, r);
      }
    }
  }

  // ----- The generator -----

  /** The value of one batch column. */
  method BatchSum<F>(f: Field<F>, ch: Challenge<F>, ss: seq<Signed<F>>, row: Row<F>) returns (value: F)
    ensures value == RowSum(f, ch, ss, row)
  {
    hide Fraction;
    value := f.zero;
    ghost var fs := Fractions(f, ch, ss, row);
    for k := 0 to |ss|
      invariant value == Sum(f, fs[..k])
    {
      SumSnoc(f, fs[..k], fs[k]);
      assert fs[..k + 1] == fs[..k] + [fs[k]];
      value := f.add(value, Fraction(f, ch, ss[k], row));
    }
    assert fs[..|ss|] == fs;
  }

  /** Fills the batch columns of one row in place; the last column is left alone. */
  method PopulateRow<F>(f: Field<F>, ch: Challenge<F>, ss: seq<Signed<F>>, batch: nat, row: Row<F>, out: array<F>)
    requires batch > 0 && ss != [] && out.Length == TraceWidth(|ss|, batch)
    modifies out
    ensures out[..out.Length - 1] == Entries(f, ch, Chunks(ss, batch), row)
    ensures out[out.Length - 1] == old(out[out.Length - 1])
  {
    hide Chunks, Fraction, Sum;
    var chunks, w := Chunks(ss, batch), out.Length - 1;
    ChunkCount(ss, batch);
    for i := 0 to w
      invariant forall k | 0 <= k < i :: out[k] == RowSum(f, ch, chunks[k], row)
      invariant out[w] == old(out[w])
    {
      var value := BatchSum(f, ch, chunks[i], row);
      out[i] := value;
    }
  }

  lemma TraceRowIs<F(!new)>(f: Field<F>, ch: Challenge<F>, ss: seq<Signed<F>>, batch: nat, rows: seq<Row<F>>, r: nat)
    requires IsField(f) && batch > 0 && r < |rows|
    ensures
      var es := Entries(f, ch, Chunks(ss, batch), rows[r]);
      TraceRow(f, ch, ss, batch, rows, r) == es + [f.add(TotalSum(f, ch, ss, rows[..r]), Sum(f, es))]
  {
    hide Sum;
    EntriesSum(f, ch, ss, batch, rows[r]);
    TotalSumNext(f, ch, ss, rows, r);
  }

  /** One row: populate the batch columns, add them up, close with the running sum. */
  method GenerateRow<F(0)>(f: Field<F>, ch: Challenge<F>, ss: seq<Signed<F>>, batch: nat, row: Row<F>, before: F)
    returns (perm: seq<F>, after: F)
    requires batch > 0 && ss != []
    ensures after == f.add(before, Sum(f, Entries(f, ch, Chunks(ss, batch), row)))
    ensures perm == Entries(f, ch, Chunks(ss, batch), row) + [after]
  {
    hide Chunks, DivCeil, Entries, Sum;
    var out := new F[TraceWidth(|ss|, batch)](_ => f.zero);
    PopulateRow(f, ch, ss, batch, row, out);
    var w := out.Length - 1;
    after := f.add(before, Sum(f, out[..w]));
    out[w] := after;
    perm := out[..];
  }

  /** Generates the trace and the cumulative sum: batch columns first, then the row
      sums, then their running sum into the last column. */
  method GeneratePermutationTrace<F(0, !new)>(f: Field<F>, ch: Challenge<F>, sends: seq<Lookup<F>>,
      receives: seq<Lookup<F>>, batch: nat, rows: seq<Row<F>>)
    returns (trace: seq<seq<F>>, sum: F)
    requires IsField(f) && batch > 0 && rows != []
    ensures LocalLookups(sends, receives) != [] ==>
      IsGenerated(f, ch, LocalLookups(sends, receives), batch, rows, trace, sum)
    ensures LocalLookups(sends, receives) == [] ==> sum == f.zero && trace == seq(|rows|, _ => [])
  {
    var ss := LocalLookups(sends, receives);
    if ss == [] {
      trace, sum := seq(|rows|, _ => []), f.zero;
    } else {
      trace, sum := GenerateRows(f, ch, ss, batch, rows);
    }
  }

  /** The rows one after the other, with the running sum. */
  method GenerateRows<F(0, !new)>(f: Field<F>, ch: Challenge<F>, ss: seq<Signed<F>>, batch: nat, rows: seq<Row<F>>)
    returns (trace: seq<seq<F>>, sum: F)
    requires IsField(f) && batch > 0 && ss != [] && rows != []
    ensures IsGenerated(f, ch, ss, batch, rows, trace, sum)
  {
    hide IsField, Chunks, DivCeil, TotalSum, Entries, Sum, TraceRow;
    trace, sum := [], f.zero;
    TotalSumNone(f, ch, ss);
    assert rows[..0] == [];
    for r := 0 to |rows|
      invariant |trace| == r && sum == TotalSum(f, ch, ss, rows[..r])
      invariant forall k | 0 <= k < r :: trace[k] == TraceRow(f, ch, ss, batch, rows, k)
    {
      var perm;
      TraceRowIs(f, ch, ss, batch, rows, r);
      TotalSumRow(f, ch, ss, batch, rows, r);
      perm, sum := GenerateRow(f, ch, ss, batch, rows[r], sum);
      trace := trace + [perm];
    }
    assert rows[..|rows|] == rows;
  }

  lemma TotalSumNone<F>(f: Field<F>, ch: Challenge<F>, ss: seq<Signed<F>>)
    ensures TotalSum(f, ch, ss, []) == f.zero
  {}

  lemma TotalSumRow<F(!new)>(f: Field<F>, ch: Challenge<F>, ss: seq<Signed<F>>, batch: nat, rows: seq<Row<F>>, r: nat)
    requires IsField(f) && batch > 0 && r < |rows|
    ensures TotalSum(f, ch, ss, rows[..r + 1])
         == f.add(TotalSum(f, ch, ss, rows[..r]), Sum(f, Entries(f, ch, Chunks(ss, batch), rows[r])))
  {
    EntriesSum(f, ch, ss, batch, rows[r]);
    TotalSumNext(f, ch, ss, rows, r);
  }
}
