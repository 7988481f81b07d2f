/** What the pieces of the permutation argument are, said without their own definitions: which
    lookups are local and in which order, which lookups share a column, what one lookup adds,
    what the global values assert, and which polynomial is folded. */
module LogUpShape {
  import opened Fields
  import opened Polynomials
  import opened LogUp
  import opened LogUpTrace
  import opened LogUpFingerprint
  import opened Folding

  // ---------------------------------------------------------------------------------------
  // The local lookups
  // ---------------------------------------------------------------------------------------

  lemma LocalOfCons<F>(l: Lookup<F>, ls: seq<Lookup<F>>)
    ensures LocalOf([l] + ls) == (if l.scope == Local then [l] else []) + LocalOf(ls)
  {
    assert ([l] + ls)[1..] == ls;
  }

  lemma {:induction false} LocalOfConcat<F>(a: seq<Lookup<F>>, b: seq<Lookup<F>>)
    ensures LocalOf(a + b) == LocalOf(a) + LocalOf(b)
  {
    if a == [] {
      assert a + b == b;
    } else {
      hide LocalOf;
      var l, s := a[0], a[1..];
      assert a == [l] + s && a + b == [l] + (s + b);
      LocalOfConcat(s, b);
      LocalOfCons(l, s);
      LocalOfCons(l, s + b);
      var head := if l.scope == Local then [l] else [];
      assert head + (LocalOf(s) + LocalOf(b)) == head + LocalOf(s) + LocalOf(b);
    }
  }

  lemma DirectedConcat<F>(a: seq<Lookup<F>>, b: seq<Lookup<F>>, isSend: bool)
    ensures Directed(a + b, isSend) == Directed(a, isSend) + Directed(b, isSend)
  {
  }

  /** Sends before receives, each in its order, and of each exactly the local ones: the five
      equations determine the list. */
  lemma LocalLookupsAre<F>(a: seq<Lookup<F>>, b: seq<Lookup<F>>, l: Lookup<F>)
    ensures LocalLookups(a, b) == LocalLookups(a, []) + LocalLookups([], b)
    ensures LocalLookups(a + b, []) == LocalLookups(a, []) + LocalLookups(b, [])
    ensures LocalLookups([], a + b) == LocalLookups([], a) + LocalLookups([], b)
    ensures LocalLookups([l], []) == if l.scope == Local then [Signed(l, true)] else []
    ensures LocalLookups([], [l]) == if l.scope == Local then [Signed(l, false)] else []
  {
    LocalOfConcat(a, b);
    LocalOfOne(l);
    hide LocalOf;
    DirectedConcat(LocalOf(a), LocalOf(b), true);
    DirectedConcat(LocalOf(a), LocalOf(b), false);
    DirectedOne(l, true);
    DirectedOne(l, false);
    hide Directed;
  }

  lemma LocalOfOne<F>(l: Lookup<F>)
    ensures LocalOf([l]) == if l.scope == Local then [l] else []
    ensures LocalOf<F>([]) == []
  {
    assert [l][1..] == [];
  }

  lemma DirectedOne<F>(l: Lookup<F>, isSend: bool)
    ensures Directed([l], isSend) == [Signed(l, isSend)] && Directed<F>([], isSend) == []
  {
  }

  // ---------------------------------------------------------------------------------------
  // The columns
  // ---------------------------------------------------------------------------------------

  /** Column i takes the lookups from i batch up to (i + 1) batch, as far as there are any. */
  lemma {:induction false} ChunkIs<T>(xs: seq<T>, batch: nat, i: nat)
    requires batch > 0 && i < |Chunks(xs, batch)|
    ensures i * batch < |xs|
    ensures Chunks(xs, batch)[i]
         == xs[i * batch..if i * batch + batch <= |xs| then i * batch + batch else |xs|]
    decreases i
  {
    if i > 0 {
      ChunkIs(xs[batch..], batch, i - 1);
      assert i * batch == (i - 1) * batch + batch;
      assert Chunks(xs, batch)[i] == Chunks(xs[batch..], batch)[i - 1];
    } else {
      assert i * batch == 0;
    }
  }

  /** The number of batch columns is the least that has room for all lookups. */
  lemma WidthIsLeast(lookups: nat, batch: nat, k: nat)
    requires lookups > 0 && batch > 0
    ensures k * batch >= lookups <==> k >= TraceWidth(lookups, batch) - 1
  {
    var q, r := (lookups + batch - 1) / batch, (lookups + batch - 1) % batch;
    assert lookups + batch - 1 == batch * q + r;
    if k >= q {
      AtLeastTimes(k, q, batch);
    } else {
      AtLeastTimes(q - 1, k, batch);
      assert (q - 1) * batch == batch * q - batch;
    }
  }

  lemma AtLeastTimes(a: nat, b: nat, c: nat)
    requires a >= b
    ensures a * c >= b * c
  {
  }

  // ---------------------------------------------------------------------------------------
  // One lookup
  // ---------------------------------------------------------------------------------------

  /** On one row a send adds its multiplicity over its fingerprint, a receive subtracts it. */
  lemma OneLookup<F(!new)>(f: Field<F>, ch: Challenge<F>, l: Lookup<F>, isSend: bool, row: Row<F>)
    requires IsField(f)
    ensures
      var values := seq(|l.values|, i requires 0 <= i < |l.values| => l.values[i](row));
      var fingerprint := f.add(ch.alpha, Value(f, [FromNat(f, l.argument)] + values, ch.beta));
      var fraction := f.Div(l.multiplicity(row), fingerprint);
      TotalSum(f, ch, [Signed(l, isSend)], [row]) == if isSend then fraction else f.neg(fraction)
  {
    hide IsField, Value, Fingerprint;
    var ss := [Signed(l, isSend)];
    var rows := [row];
    FingerprintIs(f, ch, MessageOf(l, row));
    assert rows[..0] == [];
    assert Fractions(f, ch, ss, row) == [Fraction(f, ch, ss[0], row)];
    SumOne(f, Fraction(f, ch, ss[0], row));
    AddZero(f, RowSum(f, ch, ss, row));
    NegMul(f, l.multiplicity(row), f.inv(Fingerprint(f, ch, MessageOf(l, row))));
  }

  // ---------------------------------------------------------------------------------------
  // The global values
  // ---------------------------------------------------------------------------------------

  /** Coordinate k of the digest stands in its two columns. */
  ghost predicate Shown<F>(main: seq<F>, digest: Digest<F>, k: nat)
    requires |main| >= 14 && |digest.x| == 7 && |digest.y| == 7 && k < 7
  {
    main[|main| - 14 + k] == digest.x[k] && main[|main| - 7 + k] == digest.y[k]
  }

  lemma PairZero<F(!new)>(f: Field<F>, s: F, a: F, b: F, c: F, d: F)
    requires IsField(f) && s != f.zero
    ensures AllZero(f, [f.mul(s, f.Sub(a, b)), f.mul(s, f.Sub(c, d))]) <==> a == b && c == d
  {
    hide IsField;
    NoZeroDivisor(f, s, f.Sub(a, b));
    NoZeroDivisor(f, s, f.Sub(c, d));
    SubZero(f, a, b);
    SubZero(f, c, d);
    var pair := [f.mul(s, f.Sub(a, b)), f.mul(s, f.Sub(c, d))];
    assert pair[0] == f.mul(s, f.Sub(a, b)) && pair[1] == f.mul(s, f.Sub(c, d));
  }

  ghost predicate ShownFrom<F>(main: seq<F>, digest: Digest<F>, i: nat)
    requires |main| >= 14 && |digest.x| == 7 && |digest.y| == 7
  {
    forall k: nat | i <= k < 7 :: Shown(main, digest, k)
  }

  lemma GlobalHead<F(!new)>(f: Field<F>, main: seq<F>, sel: Selectors<F>, digest: Digest<F>, i: nat)
    requires |main| >= 14 && |digest.x| == 7 && |digest.y| == 7 && i < 7
    ensures GlobalValues(f, Global, main, sel, digest, i)
         == [f.mul(sel.last, f.Sub(main[|main| - 14 + i], digest.x[i])),
             f.mul(sel.last, f.Sub(main[|main| - 7 + i], digest.y[i]))]
            + GlobalValues(f, Global, main, sel, digest, i + 1)
    ensures ShownFrom(main, digest, i) <==> ShownFrom(main, digest, i + 1) && Shown(main, digest, i)
  {
    hide Shown;
  }

  lemma {:induction false} GlobalValuesVanish<F(!new)>(f: Field<F>, main: seq<F>, sel: Selectors<F>,
                                                       digest: Digest<F>, i: nat)
    requires IsField(f) && |main| >= 14 && |digest.x| == 7 && |digest.y| == 7 && i <= 7 && sel.last != f.zero
    ensures AllZero(f, GlobalValues(f, Global, main, sel, digest, i)) <==> ShownFrom(main, digest, i)
    decreases 7 - i
  {
    hide IsField, AllZero;
    if i == 7 {
      NoneZero(f);
    } else {
      hide GlobalValues, ShownFrom;
      var n := |main|;
      GlobalValuesVanish(f, main, sel, digest, i + 1);
      GlobalHead(f, main, sel, digest, i);
      PairZero(f, sel.last, main[n - 14 + i], digest.x[i], main[n - 7 + i], digest.y[i]);
      AllZeroConcat(f, [f.mul(sel.last, f.Sub(main[n - 14 + i], digest.x[i])),
                        f.mul(sel.last, f.Sub(main[n - 7 + i], digest.y[i]))],
                    GlobalValues(f, Global, main, sel, digest, i + 1));
    }
  }

  lemma NoneZero<F>(f: Field<F>)
    ensures AllZero(f, [])
  {
  }

  /** On the last row the global values vanish exactly when the last fourteen columns are the
      digest's x and then its y; a chip without global scope asserts none. */
  lemma GlobalColumns<F(!new)>(f: Field<F>, main: seq<F>, sel: Selectors<F>, digest: Digest<F>)
    requires IsField(f) && |main| >= 14 && |digest.x| == 7 && |digest.y| == 7 && sel.last != f.zero
    ensures AllZero(f, GlobalValues(f, Global, main, sel, digest, 0))
       <==> main[|main| - 14..] == digest.x + digest.y
    ensures GlobalValues(f, Local, main, sel, digest, 0) == []
  {
    hide IsField;
    GlobalValuesVanish(f, main, sel, digest, 0);
    var tail, all := main[|main| - 14..], digest.x + digest.y;
    if tail == all {
      forall k: nat | k < 7 ensures Shown(main, digest, k) {
        assert tail[k] == all[k] && tail[k + 7] == all[k + 7];
      }
    }
    if ShownFrom(main, digest, 0) {
      forall k | 0 <= k < 14 ensures tail[k] == all[k] {
        assert Shown(main, digest, if k < 7 then k else k - 7);
      }
    }
  }

  // ---------------------------------------------------------------------------------------
  // The folded constraint
  // ---------------------------------------------------------------------------------------

  function Reversed<T>(xs: seq<T>): seq<T> {
    if xs == [] then [] else [xs[|xs| - 1]] + Reversed(xs[..|xs| - 1])
  }

  /** What both sides fold: the polynomial in alpha whose highest coefficient is the first
      constraint and whose constant is the last. */
  lemma {:induction false} FoldIsPolynomial<F(!new)>(f: Field<F>, alpha: F, xs: seq<F>)
    requires IsField(f)
    ensures HornerFold(f, alpha, xs) == Value(f, Reversed(xs), alpha)
  {
    hide IsField;
    if xs != [] {
      var k := |xs| - 1;
      FoldIsPolynomial(f, alpha, xs[..k]);
      var h := HornerFold(f, alpha, xs[..k]);
      assert Reversed(xs)[1..] == Reversed(xs[..k]);
      MulComm(f, h, alpha);
      AddComm(f, f.mul(h, alpha), xs[k]);
    }
  }
}
