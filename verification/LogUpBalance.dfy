/** Balanced lookups: when the signed multiplicities of every message cancel over all
    chips and rows, the local cumulative sums of the shard total zero. */
module LogUpBalance {
  import opened Fields
  import opened LogUp
  import opened LogUpTrace

  /** A chip of a shard: its local lookups and its trace rows. */
  datatype Chip<!F> = Chip(lookups: seq<Signed<F>>, rows: seq<Row<F>>)

  /** One lookup on one row: what it says, and how often with which sign. */
  datatype Claim<F> = Claim(message: Message<F>, multiplicity: F)

  function RowClaims<F>(f: Field<F>, ss: seq<Signed<F>>, row: Row<F>): (r: seq<Claim<F>>)
    ensures |r| == |ss|
  {
    seq(|ss|, i requires 0 <= i < |ss| => Claim(MessageOf(ss[i].lookup, row), Multiplicity(f, ss[i], row)))
  }

  function ChipClaims<F>(f: Field<F>, ss: seq<Signed<F>>, rows: seq<Row<F>>): seq<Claim<F>> {
    if rows == [] then []
    else ChipClaims(f, ss, rows[..|rows| - 1]) + RowClaims(f, ss, rows[|rows| - 1])
  }

  function ShardClaims<F>(f: Field<F>, chips: seq<Chip<F>>): seq<Claim<F>> {
    if chips == [] then []
    else
      var last := chips[|chips| - 1];
      ShardClaims(f, chips[..|chips| - 1]) + ChipClaims(f, last.lookups, last.rows)
  }

  /** `sum_i multiplicity_i / fingerprint(message_i)`. */
  function Weighted<F>(f: Field<F>, ch: Challenge<F>, cs: seq<Claim<F>>): F {
    if cs == [] then f.zero
    else
      var c := cs[|cs| - 1];
      f.add(Weighted(f, ch, cs[..|cs| - 1]), f.Div(c.multiplicity, Fingerprint(f, ch, c.message)))
  }

  /** The signed number of times a message is sent. */
  ghost function Net<F>(f: Field<F>, cs: seq<Claim<F>>, m: Message<F>): F {
    if cs == [] then f.zero
    else
      var c := cs[|cs| - 1];
      f.add(Net(f, cs[..|cs| - 1], m), if c.message == m then c.multiplicity else f.zero)
  }

  ghost function Without<F>(cs: seq<Claim<F>>, m: Message<F>): (r: seq<Claim<F>>)
    ensures |r| <= |cs| && (cs != [] && cs[|cs| - 1].message == m ==> |r| < |cs|)
  {
    if cs == [] then []
    else
      var c := cs[|cs| - 1];
      Without(cs[..|cs| - 1], m) + if c.message == m then [] else [c]
  }

  ghost predicate Balanced<F(!new)>(f: Field<F>, cs: seq<Claim<F>>) {
    forall m :: Net(f, cs, m) == f.zero
  }

  lemma {:induction false} NetWithout<F(!new)>(f: Field<F>, cs: seq<Claim<F>>, m: Message<F>, n: Message<F>)
    requires IsField(f)
    ensures Net(f, Without(cs, m), n) == if n == m then f.zero else Net(f, cs, n)
  {
    hide IsField;
    if cs != [] {
      var init, c := cs[..|cs| - 1], cs[|cs| - 1];
      NetWithout(f, init, m, n);
      if c.message == m {
        assert Without(cs, m) == Without(init, m);
        AddZero(f, Net(f, init, n));
      } else {
        assert (Without(init, m) + [c])[..|Without(init, m)|] == Without(init, m);
        AddZero(f, f.zero);
      }
    }
  }

  /** Taking out one message takes out its net multiplicity over its fingerprint. */
  lemma {:induction false} WeightedWithout<F(!new)>(f: Field<F>, ch: Challenge<F>, cs: seq<Claim<F>>, m: Message<F>)
    requires IsField(f)
    ensures Weighted(f, ch, cs) == f.add(Weighted(f, ch, Without(cs, m)), f.Div(Net(f, cs, m), Fingerprint(f, ch, m)))
  {
    hide IsField, Fingerprint;
    var inv := f.inv(Fingerprint(f, ch, m));
    if cs == [] {
      MulZero(f, inv);
      AddZero(f, f.zero);
    } else {
      var init, c := cs[..|cs| - 1], cs[|cs| - 1];
      WeightedWithout(f, ch, init, m);
      var w, n := Weighted(f, ch, Without(init, m)), Net(f, init, m);
      var x := f.Div(c.multiplicity, Fingerprint(f, ch, c.message));
      if c.message == m {
        assert Without(cs, m) == Without(init, m);
        Distrib(f, inv, n, c.multiplicity);
        AddAssoc(f, w, f.mul(n, inv), x);
      } else {
        assert (Without(init, m) + [c])[..|Without(init, m)|] == Without(init, m);
        AddZero(f, n);
        var d := f.mul(n, inv);
        AddAssoc(f, w, d, x);
        AddComm(f, d, x);
        AddAssoc(f, w, x, d);
      }
    }
  }

  lemma {:induction false} BalancedIsZero<F(!new)>(f: Field<F>, ch: Challenge<F>, cs: seq<Claim<F>>)
    requires IsField(f) && Balanced(f, cs)
    ensures Weighted(f, ch, cs) == f.zero
    decreases |cs|
  {
    if cs != [] {
      hide IsField, Fingerprint, Weighted, Net;
      var m := cs[|cs| - 1].message;
      var rest := Without(cs, m);
      forall n ensures Net(f, rest, n) == f.zero { NetWithout(f, cs, m, n); }
      BalancedIsZero(f, ch, rest);
      WeightedWithout(f, ch, cs, m);
      MulZero(f, f.inv(Fingerprint(f, ch, m)));
      AddZero(f, f.zero);
    }
  }

  lemma {:induction false} WeightedConcat<F(!new)>(f: Field<F>, ch: Challenge<F>, a: seq<Claim<F>>, b: seq<Claim<F>>)
    requires IsField(f)
    ensures Weighted(f, ch, a + b) == f.add(Weighted(f, ch, a), Weighted(f, ch, b))
    decreases |b|
  {
    hide IsField, Fingerprint;
    if b == [] {
      assert a + b == a;
      AddZero(f, Weighted(f, ch, a));
    } else {
      var b', c := b[..|b| - 1], b[|b| - 1];
      assert (a + b)[..|a + b| - 1] == a + b';
      WeightedConcat(f, ch, a, b');
      AddAssoc(f, Weighted(f, ch, a), Weighted(f, ch, b'), f.Div(c.multiplicity, Fingerprint(f, ch, c.message)));
    }
  }

  lemma {:induction false} RowWeighted<F(!new)>(f: Field<F>, ch: Challenge<F>, ss: seq<Signed<F>>, row: Row<F>)
    requires IsField(f)
    ensures Weighted(f, ch, RowClaims(f, ss, row)) == RowSum(f, ch, ss, row)
    decreases |ss|
  {
    hide IsField;
    if ss != [] {
      var init := ss[..|ss| - 1];
      RowWeighted(f, ch, init, row);
      assert RowClaims(f, ss, row)[..|init|] == RowClaims(f, init, row);
      assert Fractions(f, ch, ss, row)[..|init|] == Fractions(f, ch, init, row);
    }
  }

  /** The claims of a chip weigh what its cumulative sum is. */
  lemma {:induction false} ChipWeighted<F(!new)>(f: Field<F>, ch: Challenge<F>, ss: seq<Signed<F>>, rows: seq<Row<F>>)
    requires IsField(f)
    ensures Weighted(f, ch, ChipClaims(f, ss, rows)) == TotalSum(f, ch, ss, rows)
    decreases |rows|
  {
    hide IsField, Weighted, RowSum, RowClaims;
    if rows == [] {
      WeightedNone(f, ch);
    } else {
      var init := rows[..|rows| - 1];
      ChipWeighted(f, ch, ss, init);
      WeightedConcat(f, ch, ChipClaims(f, ss, init), RowClaims(f, ss, rows[|rows| - 1]));
      RowWeighted(f, ch, ss, rows[|rows| - 1]);
    }
  }

  lemma WeightedNone<F>(f: Field<F>, ch: Challenge<F>)
    ensures Weighted(f, ch, []) == f.zero
  {
  }

  /** `ShardProof::local_cumulative_sum` of chips with true cumulative sums. */
  function ShardSums<F>(f: Field<F>, ch: Challenge<F>, chips: seq<Chip<F>>): (r: seq<F>)
    ensures |r| == |chips|
  {
    seq(|chips|, i requires 0 <= i < |chips| => TotalSum(f, ch, chips[i].lookups, chips[i].rows))
  }

  lemma {:induction false} ShardWeighted<F(!new)>(f: Field<F>, ch: Challenge<F>, chips: seq<Chip<F>>)
    requires IsField(f)
    ensures Sum(f, ShardSums(f, ch, chips)) == Weighted(f, ch, ShardClaims(f, chips))
    decreases |chips|
  {
    hide IsField, Weighted, TotalSum;
    if chips == [] {
      WeightedNone(f, ch);
    } else {
      var init, last := chips[..|chips| - 1], chips[|chips| - 1];
      ShardWeighted(f, ch, init);
      WeightedConcat(f, ch, ShardClaims(f, init), ChipClaims(f, last.lookups, last.rows));
      ChipWeighted(f, ch, last.lookups, last.rows);
      assert ShardSums(f, ch, chips)[..|init|] == ShardSums(f, ch, init);
    }
  }

  /** Balanced lookups pass the verifier's local check, whatever the challenge, the
      batch sizes and the trace heights: the local cumulative sums total zero. */
  lemma BalancedShardSumsToZero<F(!new)>(f: Field<F>, ch: Challenge<F>, chips: seq<Chip<F>>)
    requires IsField(f) && Balanced(f, ShardClaims(f, chips))
    ensures Sum(f, ShardSums(f, ch, chips)) == f.zero
  {
    hide IsField, Weighted, Sum;
    ShardWeighted(f, ch, chips);
    BalancedIsZero(f, ch, ShardClaims(f, chips));
  }

  /** A chip's permutation trace with the challenge, batch size and selectors it is
      checked against. */
  datatype Committed<F> = Committed(batch: nat, trace: seq<seq<F>>, sels: seq<Selectors<F>>, sum: F)

  ghost predicate Accepted<F>(f: Field<F>, ch: Challenge<F>, chip: Chip<F>, p: Committed<F>) {
    if chip.lookups == [] then p.sum == f.zero
    else
      && p.batch > 0 && TraceShape(chip.lookups, p.batch, chip.rows, p.trace, p.sels)
      && GoodSelectors(f, p.sels) && NoZeroFingerprint(f, ch, chip.lookups, chip.rows)
      && Satisfied(f, ch, chip.lookups, p.batch, chip.rows, p.trace, p.sels, p.sum)
  }

  /** End to end: if every chip's trace satisfies its permutation constraints with its
      claimed sum, and the lookups balance, the claimed sums total zero. */
  lemma BalancedShardAccepted<F(!new)>(f: Field<F>, ch: Challenge<F>, chips: seq<Chip<F>>,
                                       ps: seq<Committed<F>>, sums: seq<F>)
    requires IsField(f) && |chips| == |ps| == |sums|
    requires forall i | 0 <= i < |chips| :: Accepted(f, ch, chips[i], ps[i]) && sums[i] == ps[i].sum
    requires Balanced(f, ShardClaims(f, chips))
    ensures Sum(f, sums) == f.zero
  {
    hide IsField, Sum, Satisfied, TotalSum;
    forall i | 0 <= i < |chips| ensures sums[i] == ShardSums(f, ch, chips)[i] {
      AcceptedSum(f, ch, chips[i], ps[i]);
    }
    assert sums == ShardSums(f, ch, chips);
    BalancedShardSumsToZero(f, ch, chips);
  }

  lemma AcceptedSum<F(!new)>(f: Field<F>, ch: Challenge<F>, chip: Chip<F>, p: Committed<F>)
    requires IsField(f) && Accepted(f, ch, chip, p)
    ensures p.sum == TotalSum(f, ch, chip.lookups, chip.rows)
  {
    if chip.lookups == [] {
      NoLookups(f, ch, chip.rows);
    } else {
      LogUpExact(f, ch, chip.lookups, p.batch, chip.rows, p.trace, p.sels, p.sum);
    }
  }

  lemma {:induction false} NoLookups<F(!new)>(f: Field<F>, ch: Challenge<F>, rows: seq<Row<F>>)
    requires IsField(f)
    ensures TotalSum(f, ch, [], rows) == f.zero
    decreases |rows|
  {
    if rows != [] {
      NoLookups(f, ch, rows[..|rows| - 1]);
      assert Fractions(f, ch, [], rows[|rows| - 1]) == [];
      AddZero(f, f.zero);
    }
  }
}
