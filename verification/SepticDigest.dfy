/** Sums of digests (crates/stark/src/septic_digest.rs) and the check of the global cumulative
    sums (crates/stark/src/types.rs, crates/stark/src/machine.rs). A digest is a curve point
    that carries an offset: the zero digest stands for the neutral element. */
module SepticDigest {
  import opened Fields
  import opened Options
  import opened Powers
  import opened EllipticCurve

  /** The curve, the offset `zero`, the starting point of a sum, and the group of the curve:
      an abelian group with an injective map from the points into it. */
  datatype Digests<!E, !G> = Digests(c: Curve<E>, zero: Point<E>, start: Point<E>,
                                     m: Monoid<G>, inverse: G -> G, pt: Point<E> -> G)
  {
    /** What a digest contributes: its point less the offset. */
    function Value(d: Point<E>): G { m.mul(pt(d), inverse(pt(zero))) }
  }

  ghost predicate InverseAt<E, G>(g: Digests<E, G>, x: G) { g.m.mul(x, g.inverse(x)) == g.m.one }

  /** Chords add in the group. */
  ghost predicate ChordAt<E, G>(g: Digests<E, G>, p: Point<E>, q: Point<E>) {
    g.c.On(p) && g.c.On(q) && p.x != q.x ==>
      g.pt(AddIncomplete(g.c.k, p, q)) == g.m.mul(g.pt(p), g.pt(q))
  }

  ghost predicate MirrorAt<E, G>(g: Digests<E, G>, p: Point<E>) {
    g.c.On(p) ==> g.pt(Neg(g.c.k, p)) == g.inverse(g.pt(p))
  }

  ghost predicate InjectiveAt<E, G>(g: Digests<E, G>, p: Point<E>, q: Point<E>) {
    g.c.On(p) && g.c.On(q) && g.pt(p) == g.pt(q) ==> p == q
  }

  /** The group law of the curve, and that both constants are on it. */
  ghost predicate GroupLaw<E(!new), G(!new)>(g: Digests<E, G>) {
    && IsField(g.c.k) && IsMonoid(g.m)
    && (forall x :: InverseAt(g, x))
    && (forall p, q :: ChordAt(g, p, q))
    && (forall p :: MirrorAt(g, p))
    && (forall p, q :: InjectiveAt(g, p, q))
    && g.c.On(g.zero) && g.c.On(g.start)
  }

  // ---------------------------------------------------------------------------------------
  // The sum
  // ---------------------------------------------------------------------------------------

  function SubIncomplete<E>(k: Field<E>, p: Point<E>, q: Point<E>): Point<E> {
    AddIncomplete(k, p, Neg(k, q))
  }

  /** The accumulator after the digests. */
  function Accumulated<E, G>(g: Digests<E, G>, ds: seq<Point<E>>): Point<E> {
    if ds == [] then g.start
    else
      var acc := Accumulated(g, ds[..|ds| - 1]);
      SubIncomplete(g.c.k, AddIncomplete(g.c.k, acc, ds[|ds| - 1]), g.zero)
  }

  function SumOf<E, G>(g: Digests<E, G>, ds: seq<Point<E>>): Point<E> {
    SubIncomplete(g.c.k, AddIncomplete(g.c.k, Accumulated(g, ds), g.zero), g.start)
  }

  /** No addition of the run meets two points with one x. */
  predicate StepsRegular<E(==), G>(g: Digests<E, G>, ds: seq<Point<E>>) {
    ds == [] ||
    var acc := Accumulated(g, ds[..|ds| - 1]);
    && StepsRegular(g, ds[..|ds| - 1])
    && acc.x != ds[|ds| - 1].x
    && AddIncomplete(g.c.k, acc, ds[|ds| - 1]).x != g.zero.x
  }

  predicate Regular<E(==), G>(g: Digests<E, G>, ds: seq<Point<E>>) {
    var acc := Accumulated(g, ds);
    && StepsRegular(g, ds)
    && acc.x != g.zero.x
    && AddIncomplete(g.c.k, acc, g.zero).x != g.start.x
  }

  ghost predicate AllOn<E>(c: Curve<E>, ds: seq<Point<E>>) {
    forall i | 0 <= i < |ds| :: c.On(ds[i])
  }

  /** `add_incomplete` as it runs: two points with one x make it divide by zero and panic. */
  method TryAdd<E(==)>(k: Field<E>, p: Point<E>, q: Point<E>) returns (r: Option<Point<E>>)
    ensures r == if p.x == q.x then None else Some(AddIncomplete(k, p, q))
  {
    r := if p.x == q.x then None else Some(AddIncomplete(k, p, q));
  }

  lemma {:induction false} StaysIrregular<E, G>(g: Digests<E, G>, ds: seq<Point<E>>, i: nat)
    requires i <= |ds| && !StepsRegular(g, ds[..i])
    ensures !StepsRegular(g, ds)
  {
    if i < |ds| {
      assert ds[..|ds| - 1][..i] == ds[..i];
      StaysIrregular(g, ds[..|ds| - 1], i);
    } else {
      assert ds[..i] == ds;
    }
  }

  /** `Sum::sum`: a fold, then `add_assign` and `sub_assign`. It panics exactly when some
      addition of the run meets two points with one x. */
  method Sum<E(==), G>(g: Digests<E, G>, ds: seq<Point<E>>) returns (ret: Option<Point<E>>)
    ensures ret == if Regular(g, ds) then Some(SumOf(g, ds)) else None
  {
    hide AddIncomplete;
    var k := g.c.k;
    var acc := g.start;
    for i := 0 to |ds|
      invariant acc == Accumulated(g, ds[..i]) && StepsRegular(g, ds[..i])
    {
      assert ds[..i + 1][..i] == ds[..i];
      var sumOffset := TryAdd(k, acc, ds[i]);
      if sumOffset.None? {
        StaysIrregular(g, ds, i + 1);
        return None;
      }
      var next := TryAdd(k, sumOffset.value, Neg(k, g.zero));
      if next.None? {
        StaysIrregular(g, ds, i + 1);
        return None;
      }
      acc := next.value;
    }
    assert ds[..|ds|] == ds;
    var offset := TryAdd(k, acc, g.zero);
    if offset.None? { return None; }
    ret := TryAdd(k, offset.value, Neg(k, g.start));
  }

  // ---------------------------------------------------------------------------------------
  // The sum in the group
  // ---------------------------------------------------------------------------------------

  /** The contributions of a list of digests, added up in the group. */
  function Total<E, G>(g: Digests<E, G>, ds: seq<Point<E>>): G {
    if ds == [] then g.m.one
    else g.m.mul(Total(g, ds[..|ds| - 1]), g.Value(ds[|ds| - 1]))
  }

  lemma Law<E(!new), G(!new)>(g: Digests<E, G>)
    requires GroupLaw(g)
    ensures IsField(g.c.k) && IsMonoid(g.m) && g.c.On(g.zero) && g.c.On(g.start)
  {}

  lemma Inverts<E(!new), G(!new)>(g: Digests<E, G>, x: G)
    requires GroupLaw(g)
    ensures g.m.mul(x, g.inverse(x)) == g.m.one
  {
    assert InverseAt(g, x);
  }

  lemma Injective<E(!new), G(!new)>(g: Digests<E, G>, p: Point<E>, q: Point<E>)
    requires GroupLaw(g) && g.c.On(p) && g.c.On(q)
    ensures g.pt(p) == g.pt(q) <==> p == q
  {
    assert InjectiveAt(g, p, q);
  }

  lemma AddsInGroup<E(!new), G(!new)>(g: Digests<E, G>, p: Point<E>, q: Point<E>)
    requires GroupLaw(g) && g.c.On(p) && g.c.On(q) && p.x != q.x
    ensures g.c.On(AddIncomplete(g.c.k, p, q))
    ensures g.pt(AddIncomplete(g.c.k, p, q)) == g.m.mul(g.pt(p), g.pt(q))
  {
    SumOnCurve(g.c, p, q);
    assert ChordAt(g, p, q);
  }

  lemma SubtractsInGroup<E(!new), G(!new)>(g: Digests<E, G>, p: Point<E>, q: Point<E>)
    requires GroupLaw(g) && g.c.On(p) && g.c.On(q) && p.x != q.x
    ensures g.c.On(SubIncomplete(g.c.k, p, q))
    ensures g.pt(SubIncomplete(g.c.k, p, q)) == g.m.mul(g.pt(p), g.inverse(g.pt(q)))
  {
    NegOnCurve(g.c, q);
    assert MirrorAt(g, q);
    AddsInGroup(g, p, Neg(g.c.k, q));
  }

  lemma {:induction false} AccumulatedIs<E(!new), G(!new)>(g: Digests<E, G>, ds: seq<Point<E>>)
    requires GroupLaw(g) && AllOn(g.c, ds) && StepsRegular(g, ds)
    ensures g.c.On(Accumulated(g, ds))
    ensures g.pt(Accumulated(g, ds)) == g.m.mul(g.pt(g.start), Total(g, ds))
  {
    hide GroupLaw, IsField, IsMonoid, AddIncomplete, Neg;
    Law(g);
    if ds == [] {
      Unit(g.m, g.pt(g.start));
    } else {
      var front, d := ds[..|ds| - 1], ds[|ds| - 1];
      AccumulatedIs(g, front);
      var acc := Accumulated(g, front);
      AddsInGroup(g, acc, d);
      SubtractsInGroup(g, AddIncomplete(g.c.k, acc, d), g.zero);
      Assoc(g.m, g.pt(acc), g.pt(d), g.inverse(g.pt(g.zero)));
      Assoc(g.m, g.pt(g.start), Total(g, front), g.Value(d));
    }
  }

  /** A regular sum is the offset plus the contributions: x + z - start cancels the start. */
  lemma SumIsTotal<E(!new), G(!new)>(g: Digests<E, G>, ds: seq<Point<E>>)
    requires GroupLaw(g) && AllOn(g.c, ds) && Regular(g, ds)
    ensures g.c.On(SumOf(g, ds))
    ensures g.pt(SumOf(g, ds)) == g.m.mul(Total(g, ds), g.pt(g.zero))
  {
    hide GroupLaw, IsField, IsMonoid, AddIncomplete, Neg, Total, Accumulated;
    Law(g);
    var acc := Accumulated(g, ds);
    AccumulatedIs(g, ds);
    AddsInGroup(g, acc, g.zero);
    SubtractsInGroup(g, AddIncomplete(g.c.k, acc, g.zero), g.start);
    var m, st, t, z := g.m, g.pt(g.start), Total(g, ds), g.pt(g.zero);
    Assoc(m, st, t, z);
    Comm(m, st, m.mul(t, z));
    Assoc(m, m.mul(t, z), st, g.inverse(st));
    Inverts(g, st);
    Unit(m, m.mul(t, z));
  }

  /** The contribution of a sum is the total, so sums can be summed again. */
  lemma ValueOfSum<E(!new), G(!new)>(g: Digests<E, G>, ds: seq<Point<E>>)
    requires GroupLaw(g) && AllOn(g.c, ds) && Regular(g, ds)
    ensures g.Value(SumOf(g, ds)) == Total(g, ds)
  {
    hide GroupLaw, IsField, IsMonoid, SumOf, Total;
    Law(g);
    SumIsTotal(g, ds);
    Assoc(g.m, Total(g, ds), g.pt(g.zero), g.inverse(g.pt(g.zero)));
    Inverts(g, g.pt(g.zero));
    Unit(g.m, Total(g, ds));
  }

  lemma ValueOfZero<E(!new), G(!new)>(g: Digests<E, G>)
    requires GroupLaw(g)
    ensures g.Value(g.zero) == g.m.one
  {
    Inverts(g, g.pt(g.zero));
  }

  // ---------------------------------------------------------------------------------------
  // Totals
  // ---------------------------------------------------------------------------------------

  lemma {:induction false} TotalConcat<E(!new), G(!new)>(g: Digests<E, G>, a: seq<Point<E>>,
                                                         b: seq<Point<E>>)
    requires IsMonoid(g.m)
    ensures Total(g, a + b) == g.m.mul(Total(g, a), Total(g, b))
    decreases |b|
  {
    hide IsMonoid;
    if b == [] {
      assert a + b == a;
      Unit(g.m, Total(g, a));
    } else {
      var k := |b| - 1;
      assert (a + b)[..|a + b| - 1] == a + b[..k];
      TotalConcat(g, a, b[..k]);
      Assoc(g.m, Total(g, a), Total(g, b[..k]), g.Value(b[k]));
    }
  }

  lemma TotalOne<E(!new), G(!new)>(g: Digests<E, G>, d: Point<E>)
    requires IsMonoid(g.m)
    ensures Total(g, [d]) == g.Value(d)
  {
    assert [d][..0] == [];
    Unit(g.m, g.Value(d));
  }

  /** The order of the digests does not matter. */
  lemma {:induction false} TotalOfPermutation<E(!new), G(!new)>(g: Digests<E, G>, a: seq<Point<E>>,
                                                                b: seq<Point<E>>)
    requires IsMonoid(g.m) && multiset(a) == multiset(b)
    ensures Total(g, a) == Total(g, b)
    decreases |a|
  {
    if a == [] {
      assert |multiset(b)| == |b| == 0;
    } else {
      var k := |a| - 1;
      assert a[k] in multiset(b);
      var i :| 0 <= i < |b| && b[i] == a[k];
      var rest := b[..i] + b[i + 1..];
      SameWithout(a, b, i);
      TotalOfPermutation(g, a[..k], rest);
      MoveToEnd(g, b, i);
    }
  }

  lemma SameWithout<T>(a: seq<T>, b: seq<T>, i: nat)
    requires a != [] && i < |b| && b[i] == a[|a| - 1] && multiset(a) == multiset(b)
    ensures multiset(a[..|a| - 1]) == multiset(b[..i] + b[i + 1..])
  {
    assert a == a[..|a| - 1] + [a[|a| - 1]];
    assert multiset(a[..|a| - 1]) == multiset(a) - multiset{b[i]};
    assert b == b[..i] + ([b[i]] + b[i + 1..]);
    assert multiset(b) == multiset(b[..i]) + multiset{b[i]} + multiset(b[i + 1..]);
    assert multiset(b[..i] + b[i + 1..]) == multiset(b) - multiset{b[i]};
  }

  lemma MoveToEnd<E(!new), G(!new)>(g: Digests<E, G>, b: seq<Point<E>>, i: nat)
    requires IsMonoid(g.m) && i < |b|
    ensures Total(g, b) == g.m.mul(Total(g, b[..i] + b[i + 1..]), g.Value(b[i]))
  {
    hide IsMonoid, Total;
    var x, y, d := b[..i], b[i + 1..], b[i];
    assert b == x + ([d] + y);
    TotalConcat(g, x, [d] + y);
    TotalConcat(g, [d], y);
    TotalOne(g, d);
    TotalConcat(g, x, y);
    Comm(g.m, g.Value(d), Total(g, y));
    Assoc(g.m, Total(g, x), Total(g, y), g.Value(d));
  }

  /** Regular sums of the same digests in any order are equal. */
  lemma OrderDoesNotMatter<E(!new), G(!new)>(g: Digests<E, G>, a: seq<Point<E>>, b: seq<Point<E>>)
    requires GroupLaw(g) && AllOn(g.c, a) && AllOn(g.c, b) && Regular(g, a) && Regular(g, b)
    requires multiset(a) == multiset(b)
    ensures SumOf(g, a) == SumOf(g, b)
  {
    hide GroupLaw, IsField, IsMonoid, SumOf, Total, Regular;
    Law(g);
    SumIsTotal(g, a);
    SumIsTotal(g, b);
    TotalOfPermutation(g, a, b);
    Injective(g, SumOf(g, a), SumOf(g, b));
  }

  // ---------------------------------------------------------------------------------------
  // The machine's check
  // ---------------------------------------------------------------------------------------

  function Flatten<T>(xs: seq<seq<T>>): seq<T> {
    if xs == [] then [] else Flatten(xs[..|xs| - 1]) + xs[|xs| - 1]
  }

  /** `global_cumulative_sum` of every shard. */
  function ShardSums<E, G>(g: Digests<E, G>, shards: seq<seq<Point<E>>>): seq<Point<E>> {
    if shards == [] then []
    else ShardSums(g, shards[..|shards| - 1]) + [SumOf(g, shards[|shards| - 1])]
  }

  ghost predicate ShardsRegular<E(!new), G(!new)>(g: Digests<E, G>, shards: seq<seq<Point<E>>>) {
    forall i | 0 <= i < |shards| :: AllOn(g.c, shards[i]) && Regular(g, shards[i])
  }

  lemma AllOnSnoc<E(!new)>(c: Curve<E>, ds: seq<Point<E>>, d: Point<E>)
    requires AllOn(c, ds) && c.On(d)
    ensures AllOn(c, ds + [d])
  {}

  lemma NothingOn<E(!new)>(c: Curve<E>)
    ensures AllOn(c, [])
  {}

  /** Summing the sums of the parts is summing everything. */
  lemma {:induction false} TotalOfSums<E(!new), G(!new)>(g: Digests<E, G>, shards: seq<seq<Point<E>>>)
    requires GroupLaw(g) && ShardsRegular(g, shards)
    ensures Total(g, ShardSums(g, shards)) == Total(g, Flatten(shards))
    ensures AllOn(g.c, ShardSums(g, shards))
  {
    hide GroupLaw, IsField, IsMonoid, SumOf, Regular, AllOn, Total;
    Law(g);
    NothingOn(g.c);
    if shards != [] {
      var k := |shards| - 1;
      var front := ShardSums(g, shards[..k]);
      TotalOfSums(g, shards[..k]);
      SumIsTotal(g, shards[k]);
      ValueOfSum(g, shards[k]);
      TotalOne(g, SumOf(g, shards[k]));
      TotalConcat(g, front, [SumOf(g, shards[k])]);
      TotalConcat(g, Flatten(shards[..k]), shards[k]);
      AllOnSnoc(g.c, front, SumOf(g, shards[k]));
    }
  }

  datatype Verdict = Accepted | Refused | Panicked

  /** The check of `verify`: is the sum of the shards' sums and the key's digest zero? */
  method GlobalCheck<E(==), G>(g: Digests<E, G>, shards: seq<seq<Point<E>>>, vk: Point<E>)
    returns (r: Verdict)
    ensures r == Panicked <==> !(SumsRegular(g, shards) && Regular(g, ShardSums(g, shards) + [vk]))
    ensures r == Accepted ==> SumOf(g, ShardSums(g, shards) + [vk]) == g.zero
    ensures r == Refused ==> SumOf(g, ShardSums(g, shards) + [vk]) != g.zero
  {
    hide SumOf, Regular;
    var sums: seq<Point<E>> := [];
    for i := 0 to |shards|
      invariant sums == ShardSums(g, shards[..i])
      invariant forall j | 0 <= j < i :: Regular(g, shards[j])
    {
      assert shards[..i + 1][..i] == shards[..i];
      var s := Sum(g, shards[i]);
      if s.None? { return Panicked; }
      sums := sums + [s.value];
    }
    assert shards[..|shards|] == shards;
    var total := Sum(g, sums + [vk]);
    r := if total.None? then Panicked else if total.value == g.zero then Accepted else Refused;
  }

  predicate SumsRegular<E(==), G>(g: Digests<E, G>, shards: seq<seq<Point<E>>>) {
    forall j | 0 <= j < |shards| :: Regular(g, shards[j])
  }

  ghost predicate ShardsOn<E>(c: Curve<E>, shards: seq<seq<Point<E>>>) {
    forall i | 0 <= i < |shards| :: AllOn(c, shards[i])
  }

  /** On the curve, a check that does not panic accepts exactly when all contributions, over
      all shards and chips and the key, cancel. */
  lemma AcceptedIffCancelling<E(!new), G(!new)>(g: Digests<E, G>, shards: seq<seq<Point<E>>>,
                                                vk: Point<E>)
    requires GroupLaw(g) && ShardsOn(g.c, shards) && g.c.On(vk)
    requires SumsRegular(g, shards) && Regular(g, ShardSums(g, shards) + [vk])
    ensures SumOf(g, ShardSums(g, shards) + [vk]) == g.zero
            <==> Total(g, Flatten(shards) + [vk]) == g.m.one
  {
    assert ShardsRegular(g, shards);
    hide GroupLaw, IsField, IsMonoid, SumOf, Total, Regular, ShardsRegular, Flatten;
    Law(g);
    var all := ShardSums(g, shards) + [vk];
    TotalOfSums(g, shards);
    TotalConcat(g, ShardSums(g, shards), [vk]);
    TotalConcat(g, Flatten(shards), [vk]);
    AllOnSnoc(g.c, ShardSums(g, shards), vk);
    SumIsTotal(g, all);
    ValueOfSum(g, all);
    ValueOfZero(g);
    Unit(g.m, g.pt(g.zero));
    Injective(g, SumOf(g, all), g.zero);
  }

  /** Accept, refuse or panic, for every input on the curve. */
  method GlobalVerdict<E(==, !new), G(!new)>(g: Digests<E, G>, shards: seq<seq<Point<E>>>, vk: Point<E>)
    returns (r: Verdict)
    requires GroupLaw(g) && ShardsOn(g.c, shards) && g.c.On(vk)
    ensures r == Panicked <==> !(SumsRegular(g, shards) && Regular(g, ShardSums(g, shards) + [vk]))
    ensures r != Panicked ==> (r == Accepted <==> Total(g, Flatten(shards) + [vk]) == g.m.one)
  {
    hide GroupLaw, SumOf, Total, Regular, ShardsOn, SumsRegular, Flatten, ShardSums;
    r := GlobalCheck(g, shards, vk);
    if r != Panicked { AcceptedIffCancelling(g, shards, vk); }
  }
}
