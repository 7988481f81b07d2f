/** The converse of balance: sums that vanish at enough challenges force every message's
    multiplicities to cancel. */
module LogUpSoundness {
  import opened Collections
  import opened Fields
  import opened Polynomials
  import opened LogUp
  import opened LogUpFingerprint
  import opened LogUpBalance

  /** The messages of the claims, each once. */
  ghost function Messages<F>(cs: seq<Claim<F>>): seq<Message<F>>
    decreases |cs|
  {
    if cs == [] then []
    else
      var m := cs[|cs| - 1].message;
      Messages(Without(cs, m)) + [m]
  }

  ghost function Nets<F>(f: Field<F>, cs: seq<Claim<F>>, ms: seq<Message<F>>): (r: seq<F>)
    ensures |r| == |ms| && forall i | 0 <= i < |ms| :: r[i] == Net(f, cs, ms[i])
  {
    seq(|ms|, i requires 0 <= i < |ms| => Net(f, cs, ms[i]))
  }

  function Keys<F>(f: Field<F>, beta: F, ms: seq<Message<F>>): (r: seq<F>)
    ensures |r| == |ms| && forall i | 0 <= i < |ms| :: r[i] == Key(f, beta, ms[i])
  {
    seq(|ms|, i requires 0 <= i < |ms| => Key(f, beta, ms[i]))
  }

  ghost predicate Says<F>(cs: seq<Claim<F>>, m: Message<F>) {
    exists i | 0 <= i < |cs| :: cs[i].message == m
  }

  lemma {:induction false} WithoutSays<F>(cs: seq<Claim<F>>, m: Message<F>, n: Message<F>)
    ensures Says(Without(cs, m), n) <==> n != m && Says(cs, n)
  {
    if cs != [] {
      var k := |cs| - 1;
      var front, c := cs[..k], cs[k];
      WithoutSays(front, m, n);
      SaysSnoc(front, c, n);
      assert cs == front + [c];
      if c.message != m { SaysSnoc(Without(front, m), c, n); }
      else { assert Without(cs, m) == Without(front, m); }
    }
  }

  lemma SaysSnoc<F>(cs: seq<Claim<F>>, c: Claim<F>, n: Message<F>)
    ensures Says(cs + [c], n) <==> Says(cs, n) || c.message == n
  {
    var t := cs + [c];
    if Says(cs, n) {
      var i :| 0 <= i < |cs| && cs[i].message == n;
      assert t[i].message == n;
    }
    assert t[|cs|] == c;
    if Says(t, n) {
      var i :| 0 <= i < |t| && t[i].message == n;
      if i < |cs| { assert cs[i].message == n; }
    }
  }

  lemma {:induction false} MessagesAre<F(!new)>(cs: seq<Claim<F>>)
    ensures forall m :: m in Messages(cs) <==> Says(cs, m)
    ensures forall i, j | 0 <= i < j < |Messages(cs)| :: Messages(cs)[i] != Messages(cs)[j]
    decreases |cs|
  {
    if cs != [] {
      var m := cs[|cs| - 1].message;
      var rest := Without(cs, m);
      MessagesAre(rest);
      forall n ensures n in Messages(cs) <==> Says(cs, n) {
        WithoutSays(cs, m, n);
        assert cs[|cs| - 1].message == m;
      }
      WithoutSays(cs, m, m);
      assert m !in Messages(rest);
    }
  }

  lemma {:induction false} NetOfUnsaid<F(!new)>(f: Field<F>, cs: seq<Claim<F>>, m: Message<F>)
    requires IsField(f) && !Says(cs, m)
    ensures Net(f, cs, m) == f.zero
  {
    if cs != [] {
      var k := |cs| - 1;
      SaysSnoc(cs[..k], cs[k], m);
      assert cs == cs[..k] + [cs[k]];
      NetOfUnsaid(f, cs[..k], m);
      AddZero(f, f.zero);
    }
  }

  /** The weighted claims as a sum of one fraction per message. */
  lemma {:induction false} WeightedIsFractional<F(!new)>(f: Field<F>, ch: Challenge<F>, cs: seq<Claim<F>>)
    requires IsField(f)
    ensures
      var ms := Messages(cs);
      Weighted(f, ch, cs) == Fractional(f, Nets(f, cs, ms), Keys(f, ch.beta, ms), ch.alpha)
    decreases |cs|
  {
    if cs == [] {
      assert Nets(f, cs, []) == [] && Keys(f, ch.beta, []) == [];
    } else {
      hide IsField, Fingerprint, Key, Net, Weighted, Fractional, Nets, Keys;
      var m := cs[|cs| - 1].message;
      var rest := Without(cs, m);
      var front := Messages(rest);
      WeightedIsFractional(f, ch, rest);
      WeightedWithout(f, ch, cs, m);
      FingerprintIs(f, ch, m);
      NetsSplit(f, cs, m);
      KeysSplit(f, ch.beta, front, m);
      FractionalSnoc(f, Nets(f, rest, front), Keys(f, ch.beta, front), Net(f, cs, m), Key(f, ch.beta, m), ch.alpha);
    }
  }

  /** Taking out the last message leaves the other net multiplicities alone. */
  lemma NetsSplit<F(!new)>(f: Field<F>, cs: seq<Claim<F>>, m: Message<F>)
    requires IsField(f)
    ensures
      var rest := Without(cs, m);
      Nets(f, cs, Messages(rest) + [m]) == Nets(f, rest, Messages(rest)) + [Net(f, cs, m)]
  {
    hide IsField, Net, Says;
    var rest := Without(cs, m);
    var front := Messages(rest);
    MessagesAre(rest);
    WithoutSays(cs, m, m);
    forall i | 0 <= i < |front| ensures Net(f, rest, front[i]) == Net(f, cs, front[i]) {
      assert front[i] in front;
      NetWithout(f, cs, m, front[i]);
    }
  }

  lemma KeysSplit<F>(f: Field<F>, beta: F, ms: seq<Message<F>>, m: Message<F>)
    ensures Keys(f, beta, ms + [m]) == Keys(f, beta, ms) + [Key(f, beta, m)]
  {
    hide Key;
  }

  lemma FractionalSnoc<F>(f: Field<F>, ns: seq<F>, cs: seq<F>, n: F, c: F, x: F)
    requires |ns| == |cs|
    ensures Fractional(f, ns + [n], cs + [c], x) == f.add(Fractional(f, ns, cs, x), f.Div(n, f.add(x, c)))
  {
    assert (ns + [n])[..|ns|] == ns && (cs + [c])[..|cs|] == cs;
  }

  /** Beta tells the messages of the claims apart. */
  ghost predicate Separates<F(!new)>(f: Field<F>, beta: F, cs: seq<Claim<F>>) {
    forall m, n | Says(cs, m) && Says(cs, n) && Key(f, beta, m) == Key(f, beta, n) :: m == n
  }

  /** No claim has a zero fingerprint. */
  ghost predicate Fingerprinted<F(!new)>(f: Field<F>, ch: Challenge<F>, cs: seq<Claim<F>>) {
    forall m | Says(cs, m) :: Fingerprint(f, ch, m) != f.zero
  }

  /** As many challenges as messages, all with one separating beta and different alphas. */
  ghost predicate Enough<F(!new)>(f: Field<F>, beta: F, alphas: seq<F>, cs: seq<Claim<F>>) {
    && |Messages(cs)| <= |alphas| && Distinct(alphas) && Separates(f, beta, cs)
    && forall j | 0 <= j < |alphas| :: Fingerprinted(f, Challenge(alphas[j], beta), cs)
  }

  lemma KeysDistinct<F(!new)>(f: Field<F>, beta: F, cs: seq<Claim<F>>)
    requires Separates(f, beta, cs)
    ensures Distinct(Keys(f, beta, Messages(cs)))
  {
    hide Key, Says;
    var ms := Messages(cs);
    MessagesAre(cs);
    forall i, j | 0 <= i < j < |ms| ensures Key(f, beta, ms[i]) != Key(f, beta, ms[j]) {
      assert ms[i] in ms && ms[j] in ms;
    }
  }

  lemma KeysDefined<F(!new)>(f: Field<F>, ch: Challenge<F>, cs: seq<Claim<F>>)
    requires IsField(f) && Fingerprinted(f, ch, cs)
    ensures Defined(f, Keys(f, ch.beta, Messages(cs)), ch.alpha)
  {
    hide IsField, Key, Says, Fingerprint;
    var ms := Messages(cs);
    MessagesAre(cs);
    forall i | 0 <= i < |ms| ensures f.add(ch.alpha, Key(f, ch.beta, ms[i])) != f.zero {
      assert ms[i] in ms;
      FingerprintIs(f, ch, ms[i]);
    }
  }

  /** Claims that weigh nothing at enough challenges are balanced; with `BalancedIsZero`, they
      weigh nothing there exactly when they are. */
  lemma ZeroExactlyWhenBalanced<F(!new)>(f: Field<F>, beta: F, alphas: seq<F>, cs: seq<Claim<F>>)
    requires IsField(f) && Enough(f, beta, alphas, cs)
    ensures (forall j | 0 <= j < |alphas| :: Weighted(f, Challenge(alphas[j], beta), cs) == f.zero)
            <==> Balanced(f, cs)
  {
    hide IsField, Weighted, Net, Separates, Fingerprinted, Fractional, Defined;
    if Balanced(f, cs) {
      forall j | 0 <= j < |alphas| ensures Weighted(f, Challenge(alphas[j], beta), cs) == f.zero {
        BalancedIsZero(f, Challenge(alphas[j], beta), cs);
      }
    }
    if forall j | 0 <= j < |alphas| :: Weighted(f, Challenge(alphas[j], beta), cs) == f.zero {
      ZeroIsBalanced(f, beta, alphas, cs);
    }
  }

  lemma ZeroIsBalanced<F(!new)>(f: Field<F>, beta: F, alphas: seq<F>, cs: seq<Claim<F>>)
    requires IsField(f) && Enough(f, beta, alphas, cs)
    requires forall j | 0 <= j < |alphas| :: Weighted(f, Challenge(alphas[j], beta), cs) == f.zero
    ensures Balanced(f, cs)
  {
    hide IsField, Weighted, Net, Separates, Fingerprinted, Fractional, Defined, Says;
    var ms := Messages(cs);
    var ns, ks := Nets(f, cs, ms), Keys(f, beta, ms);
    KeysDistinct(f, beta, cs);
    forall j | 0 <= j < |alphas|
      ensures Defined(f, ks, alphas[j]) && Fractional(f, ns, ks, alphas[j]) == f.zero
    {
      var ch := Challenge(alphas[j], beta);
      KeysDefined(f, ch, cs);
      WeightedIsFractional(f, ch, cs);
    }
    VanishingFractions(f, ns, ks, alphas);
    MessagesAre(cs);
    forall m ensures Net(f, cs, m) == f.zero {
      if Says(cs, m) {
        var i :| 0 <= i < |ms| && ms[i] == m;
        assert ns[i] == f.zero;
      } else {
        NetOfUnsaid(f, cs, m);
      }
    }
  }

  /** For a whole shard: at enough challenges the local cumulative sums total zero if and only
      if the lookups of all chips and rows balance. */
  lemma ShardSumsZeroExactlyWhenBalanced<F(!new)>(f: Field<F>, beta: F, alphas: seq<F>, chips: seq<Chip<F>>)
    requires IsField(f) && Enough(f, beta, alphas, ShardClaims(f, chips))
    ensures (forall j | 0 <= j < |alphas| :: Sum(f, ShardSums(f, Challenge(alphas[j], beta), chips)) == f.zero)
            <==> Balanced(f, ShardClaims(f, chips))
  {
    hide IsField, Weighted, Enough, Balanced, Sum, ShardSums, ShardClaims;
    forall j | 0 <= j < |alphas|
      ensures Sum(f, ShardSums(f, Challenge(alphas[j], beta), chips))
           == Weighted(f, Challenge(alphas[j], beta), ShardClaims(f, chips))
    {
      ShardWeighted(f, Challenge(alphas[j], beta), chips);
    }
    ZeroExactlyWhenBalanced(f, beta, alphas, ShardClaims(f, chips));
  }

  // ---------------------------------------------------------------------------------------
  // A grid of challenges
  // ---------------------------------------------------------------------------------------

  /** Different messages of the claims have different coefficients, and at most `size` values:
      so it is when all messages with one argument have one length, and arguments are below
      the characteristic. */
  ghost predicate Distinguishable<F(!new)>(f: Field<F>, cs: seq<Claim<F>>, size: nat) {
    && (forall m | Says(cs, m) :: |m.values| <= size)
    && forall m, n | Says(cs, m) && Says(cs, n) && Alike(f, m, n) :: m == n
  }

  /** Every two of the messages. */
  function AllPairs<F>(ms: seq<Message<F>>): seq<Pair<F>> {
    if ms == [] then []
    else
      var k := |ms| - 1;
      AllPairs(ms[..k]) + seq(k, i requires 0 <= i < k => Pair(ms[i], ms[k]))
  }

  lemma {:induction false} PairCount<F>(ms: seq<Message<F>>)
    ensures |AllPairs(ms)| <= |ms| * |ms|
  {
    if ms != [] {
      var k := |ms| - 1;
      PairCount(ms[..k]);
      assert |ms| * |ms| == k * k + 2 * k + 1;
    }
  }

  lemma {:induction false} PairsDiffer<F(!new)>(f: Field<F>, ms: seq<Message<F>>, size: nat)
    requires forall i | 0 <= i < |ms| :: |ms[i].values| <= size
    requires forall i, j | 0 <= i < j < |ms| :: !Alike(f, ms[i], ms[j])
    ensures forall i | 0 <= i < |AllPairs(ms)| :: Differ(f, AllPairs(ms)[i], size)
  {
    hide Alike;
    if ms != [] { PairsDiffer(f, ms[..|ms| - 1], size); }
  }

  lemma {:induction false} PairsSeparate<F(!new)>(f: Field<F>, beta: F, ms: seq<Message<F>>, i: nat, j: nat)
    requires forall k | 0 <= k < |AllPairs(ms)| :: !Collides(f, beta, AllPairs(ms)[k])
    requires i < j < |ms|
    ensures Key(f, beta, ms[i]) != Key(f, beta, ms[j])
  {
    hide Key;
    var k := |ms| - 1;
    var front := AllPairs(ms[..k]);
    if j == k {
      assert AllPairs(ms)[|front| + i] == Pair(ms[i], ms[k]);
    } else {
      forall l | 0 <= l < |front| ensures !Collides(f, beta, front[l]) {
        assert AllPairs(ms)[l] == front[l];
      }
      PairsSeparate(f, beta, ms[..k], i, j);
    }
  }

  /** Among more than n n `size` betas, for n messages, some beta separates them all. */
  lemma SomeBeta<F(!new)>(f: Field<F>, betas: seq<F>, cs: seq<Claim<F>>, size: nat) returns (beta: F)
    requires IsField(f) && Distinct(betas) && Distinguishable(f, cs, size)
    requires |betas| > |Messages(cs)| * |Messages(cs)| * size
    ensures beta in betas && Separates(f, beta, cs)
  {
    hide IsField, Alike, Key, Collides, Distinct, Differ, AllPairs, Says;
    var ms := Messages(cs);
    MessagesAre(cs);
    forall i | 0 <= i < |ms| ensures |ms[i].values| <= size { assert ms[i] in ms; }
    forall i, j | 0 <= i < j < |ms| ensures !Alike(f, ms[i], ms[j]) {
      assert ms[i] in ms && ms[j] in ms;
    }
    PairsDiffer(f, ms, size);
    PairCount(ms);
    Fewer(|AllPairs(ms)|, |ms| * |ms|, size);
    beta := SomeBetaSeparates(f, betas, AllPairs(ms), size);
    forall m, n | Says(cs, m) && Says(cs, n) && Key(f, beta, m) == Key(f, beta, n) ensures m == n {
      var i :| 0 <= i < |ms| && ms[i] == m;
      var j :| 0 <= j < |ms| && ms[j] == n;
      if i < j { PairsSeparate(f, beta, ms, i, j); }
      if j < i { PairsSeparate(f, beta, ms, j, i); }
    }
  }

  lemma Fewer(a: nat, b: nat, c: nat)
    requires a <= b
    ensures a * c <= b * c
  {
  }

  /** No assumption on any beta: over a grid with enough alphas and betas, the fractions sum
      to zero at every challenge if and only if every message's multiplicities cancel. */
  lemma GridZeroExactlyWhenBalanced<F(!new)>(f: Field<F>, alphas: seq<F>, betas: seq<F>, cs: seq<Claim<F>>,
                                             size: nat)
    requires IsField(f) && Distinct(alphas) && Distinct(betas) && Distinguishable(f, cs, size)
    requires |alphas| >= |Messages(cs)| && |betas| > |Messages(cs)| * |Messages(cs)| * size
    requires forall a, b | a in alphas && b in betas :: Fingerprinted(f, Challenge(a, b), cs)
    ensures (forall a, b | a in alphas && b in betas :: Weighted(f, Challenge(a, b), cs) == f.zero)
            <==> Balanced(f, cs)
  {
    hide IsField, Distinct, Distinguishable, Weighted, Balanced, Fingerprinted, Separates;
    if Balanced(f, cs) {
      forall a, b | a in alphas && b in betas ensures Weighted(f, Challenge(a, b), cs) == f.zero {
        BalancedIsZero(f, Challenge(a, b), cs);
      }
    }
    if forall a, b | a in alphas && b in betas :: Weighted(f, Challenge(a, b), cs) == f.zero {
      var beta := SomeBeta(f, betas, cs, size);
      assert forall j | 0 <= j < |alphas| :: alphas[j] in alphas;
      ZeroIsBalanced(f, beta, alphas, cs);
    }
  }
}
