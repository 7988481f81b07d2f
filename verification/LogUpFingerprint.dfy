/** The fingerprint of a message by its coefficients: a polynomial in beta, and how rarely the
    polynomials of two messages agree. */
module LogUpFingerprint {
  import opened Collections
  import opened Fields
  import opened Powers
  import opened Polynomials
  import opened LogUp

  /** The argument index, then the values. */
  function Coefficients<F>(f: Field<F>, m: Message<F>): seq<F> { [FromNat(f, m.argument)] + m.values }

  /** The fingerprint without its alpha: argument + values[0] beta + values[1] beta^2 + ... */
  function Key<F>(f: Field<F>, beta: F, m: Message<F>): F { Value(f, Coefficients(f, m), beta) }

  lemma {:induction false} RlcIs<F(!new)>(f: Field<F>, beta: F, values: seq<F>, from: nat)
    requires IsField(f)
    ensures Rlc(f, beta, values, from) == f.mul(Power(f, beta, from), Value(f, values, beta))
    decreases |values|
  {
    hide IsField;
    var u := Power(f, beta, from);
    if values == [] {
      MulZero(f, u);
    } else {
      var v := Value(f, values[1..], beta);
      RlcIs(f, beta, values[1..], from + 1);
      MulAssoc(f, u, beta, v);
      Distrib(f, u, values[0], f.mul(beta, v));
    }
  }

  lemma FingerprintIs<F(!new)>(f: Field<F>, ch: Challenge<F>, m: Message<F>)
    requires IsField(f)
    ensures Fingerprint(f, ch, m) == f.add(ch.alpha, Key(f, ch.beta, m))
  {
    hide IsField;
    var a, v := FromNat(f, m.argument), Value(f, m.values, ch.beta);
    RlcIs(f, ch.beta, m.values, 1);
    PowerFacts(f, ch.beta);
    MulOne(f, a);
    assert Coefficients(f, m)[1..] == m.values;
    AddAssoc(f, ch.alpha, a, f.mul(ch.beta, v));
  }

  lemma PowerFacts<F(!new)>(f: Field<F>, x: F)
    requires IsField(f)
    ensures Power(f, x, 0) == f.one && Power(f, x, 1) == x
  {
    TimesIsMonoid(f);
    PowOne(Times(f), x);
  }

  // ---------------------------------------------------------------------------------------
  // Coefficient by coefficient
  // ---------------------------------------------------------------------------------------

  /** Value k goes with beta^(k+1). */
  lemma ValueCounts<F(!new)>(f: Field<F>, ch: Challenge<F>, m: Message<F>, k: nat, d: F)
    requires IsField(f) && k < |m.values|
    ensures Fingerprint(f, ch, m.(values := m.values[k := f.add(m.values[k], d)]))
         == f.add(Fingerprint(f, ch, m), f.mul(d, Power(f, ch.beta, k + 1)))
  {
    hide IsField;
    var n := m.(values := m.values[k := f.add(m.values[k], d)]);
    FingerprintIs(f, ch, m);
    FingerprintIs(f, ch, n);
    var p := Coefficients(f, m);
    assert Coefficients(f, n) == p[k + 1 := f.add(p[k + 1], d)];
    ValueBump(f, p, k + 1, d, ch.beta);
    AddAssoc(f, ch.alpha, Key(f, ch.beta, m), f.mul(d, Power(f, ch.beta, k + 1)));
  }

  /** The argument goes with one. */
  lemma ArgumentCounts<F(!new)>(f: Field<F>, ch: Challenge<F>, m: Message<F>)
    requires IsField(f)
    ensures Fingerprint(f, ch, m.(argument := m.argument + 1)) == f.add(Fingerprint(f, ch, m), f.one)
  {
    hide IsField, Value;
    var n := m.(argument := m.argument + 1);
    FingerprintIs(f, ch, m);
    FingerprintIs(f, ch, n);
    var p := Coefficients(f, m);
    assert Coefficients(f, n) == p[0 := f.add(p[0], f.one)];
    ValueBump(f, p, 0, f.one, ch.beta);
    PowerFacts(f, ch.beta);
    MulOne(f, f.one);
    AddAssoc(f, ch.alpha, Key(f, ch.beta, m), f.one);
  }

  /** Nothing said is alpha alone. */
  lemma EmptyMessage<F(!new)>(f: Field<F>, ch: Challenge<F>)
    requires IsField(f)
    ensures Fingerprint(f, ch, Message(0, [])) == ch.alpha
  {
    hide IsField;
    var m: Message<F> := Message(0, []);
    FingerprintIs(f, ch, m);
    assert Coefficients(f, m)[1..] == [] && Coefficients(f, m)[0] == f.zero;
    assert Key(f, ch.beta, m) == f.add(f.zero, f.mul(ch.beta, Value(f, [], ch.beta)));
    MulZero(f, ch.beta);
    AddZero(f, f.zero);
    AddZero(f, ch.alpha);
  }

  // ---------------------------------------------------------------------------------------
  // Collisions
  // ---------------------------------------------------------------------------------------

  /** Equal coefficients, the shorter list continued with zeros. */
  ghost predicate Alike<F>(f: Field<F>, m: Message<F>, n: Message<F>) {
    AllZero(f, Minus(f, Coefficients(f, m), Coefficients(f, n)))
  }

  lemma KeysAgree<F(!new)>(f: Field<F>, beta: F, m: Message<F>, n: Message<F>)
    requires IsField(f)
    ensures Key(f, beta, m) == Key(f, beta, n)
       <==> Value(f, Minus(f, Coefficients(f, m), Coefficients(f, n)), beta) == f.zero
  {
    hide IsField, Value;
    MinusValue(f, Coefficients(f, m), Coefficients(f, n), beta);
    SubZero(f, Key(f, beta, m), Key(f, beta, n));
  }

  /** Messages with the same coefficients agree at every beta; others at no more betas than
      the longer one has values. */
  lemma FewCollisions<F(!new)>(f: Field<F>, m: Message<F>, n: Message<F>, betas: seq<F>)
    requires IsField(f) && Distinct(betas) && |m.values| < |betas| && |n.values| < |betas|
    ensures Alike(f, m, n) <==> forall i | 0 <= i < |betas| :: Key(f, betas[i], m) == Key(f, betas[i], n)
  {
    hide IsField, Value, Key, AllZero;
    var d := Minus(f, Coefficients(f, m), Coefficients(f, n));
    forall i | 0 <= i < |betas|
      ensures Key(f, betas[i], m) == Key(f, betas[i], n) <==> Value(f, d, betas[i]) == f.zero
      ensures Alike(f, m, n) ==> Value(f, d, betas[i]) == f.zero
    {
      KeysAgree(f, betas[i], m, n);
      if Alike(f, m, n) { ZeroValue(f, d, betas[i]); }
    }
    if forall i | 0 <= i < |betas| :: Key(f, betas[i], m) == Key(f, betas[i], n) {
      ManyRootsZero(f, d, betas);
    }
  }

  lemma {:induction false} MinusZero<F(!new)>(f: Field<F>, p: seq<F>, q: seq<F>)
    requires IsField(f) && |p| == |q| && AllZero(f, Minus(f, p, q))
    ensures p == q
  {
    if p != [] {
      var r := Minus(f, p, q);
      assert r[0] == f.zero && forall i | 0 <= i < |r| - 1 :: r[1..][i] == r[i + 1];
      MinusZero(f, p[1..], q[1..]);
      SubZero(f, p[0], q[0]);
      assert p == [p[0]] + p[1..] && q == [q[0]] + q[1..];
    }
  }

  /** Messages of one length with arguments below the characteristic are alike only if they
      are equal. */
  lemma AlikeIsEqual<F(!new)>(f: Field<F>, m: Message<F>, n: Message<F>)
    requires IsField(f) && |m.values| == |n.values| && Alike(f, m, n)
    requires FromNat(f, m.argument) == FromNat(f, n.argument) ==> m.argument == n.argument
    ensures m == n
  {
    var p, q := Coefficients(f, m), Coefficients(f, n);
    MinusZero(f, p, q);
    assert p[0] == q[0] && p[1..] == q[1..];
  }

  // ---------------------------------------------------------------------------------------
  // A beta without collisions
  // ---------------------------------------------------------------------------------------

  datatype Pair<F> = Pair(m: Message<F>, n: Message<F>)

  predicate Collides<F(==)>(f: Field<F>, beta: F, pair: Pair<F>) {
    Key(f, beta, pair.m) == Key(f, beta, pair.n)
  }

  /** The betas at which the pair does, or does not, collide. */
  function Where<F(==)>(f: Field<F>, betas: seq<F>, pair: Pair<F>, collides: bool): seq<F> {
    if betas == [] then []
    else
      var k := |betas| - 1;
      Where(f, betas[..k], pair, collides)
      + if Collides(f, betas[k], pair) == collides then [betas[k]] else []
  }

  lemma {:induction false} WhereAre<F(!new)>(f: Field<F>, betas: seq<F>, pair: Pair<F>, collides: bool)
    requires Distinct(betas)
    ensures forall x | x in Where(f, betas, pair, collides) :: x in betas && Collides(f, x, pair) == collides
    ensures Distinct(Where(f, betas, pair, collides))
  {
    hide Collides;
    if betas != [] {
      var k := |betas| - 1;
      WhereAre(f, betas[..k], pair, collides);
      assert forall x | x in betas[..k] :: x in betas && x != betas[k];
    }
  }

  lemma {:induction false} WhereSplit<F(!new)>(f: Field<F>, betas: seq<F>, pair: Pair<F>)
    ensures |Where(f, betas, pair, true)| + |Where(f, betas, pair, false)| == |betas|
  {
    hide Collides;
    if betas != [] { WhereSplit(f, betas[..|betas| - 1], pair); }
  }

  /** Two messages that differ and have at most `size` values. */
  ghost predicate Differ<F>(f: Field<F>, pair: Pair<F>, size: nat) {
    |pair.m.values| <= size && |pair.n.values| <= size && !Alike(f, pair.m, pair.n)
  }

  lemma FewBad<F(!new)>(f: Field<F>, betas: seq<F>, pair: Pair<F>, size: nat)
    requires IsField(f) && Distinct(betas) && Differ(f, pair, size)
    ensures |Where(f, betas, pair, true)| <= size
  {
    hide IsField, Key, Alike;
    var bad := Where(f, betas, pair, true);
    WhereAre(f, betas, pair, true);
    if |bad| > size {
      forall i | 0 <= i < |bad| ensures Key(f, bad[i], pair.m) == Key(f, bad[i], pair.n) {
        assert bad[i] in bad && Collides(f, bad[i], pair);
      }
      FewCollisions(f, pair.m, pair.n, bad);
    }
  }

  /** Among more betas than `size` for each pair, some beta separates all pairs. */
  lemma {:induction false} SomeBetaSeparates<F(!new)>(f: Field<F>, betas: seq<F>, pairs: seq<Pair<F>>, size: nat)
    returns (beta: F)
    requires IsField(f) && Distinct(betas) && |betas| > |pairs| * size
    requires forall i | 0 <= i < |pairs| :: Differ(f, pairs[i], size)
    ensures beta in betas && forall i | 0 <= i < |pairs| :: !Collides(f, beta, pairs[i])
    decreases |pairs|
  {
    hide IsField, Collides, Differ, Where, Distinct;
    if pairs == [] {
      beta := betas[0];
    } else {
      var k := |pairs| - 1;
      var good := Where(f, betas, pairs[k], false);
      WhereAre(f, betas, pairs[k], false);
      WhereSplit(f, betas, pairs[k]);
      FewBad(f, betas, pairs[k], size);
      assert |pairs| * size == k * size + size;
      beta := SomeBetaSeparates(f, good, pairs[..k], size);
      forall i | 0 <= i < |pairs| ensures !Collides(f, beta, pairs[i]) {
        if i < k { assert pairs[..k][i] == pairs[i]; }
      }
    }
  }
}
