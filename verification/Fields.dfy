/** An arbitrary field, as the generic code of crates/stark sees one: a record of
    operations, and the laws as a hypothesis.  Each law is wrapped in a predicate,
    so that it is used only where a lemma names it. */
module Fields {
  datatype Field<!F> = Field(zero: F, one: F, add: (F, F) -> F, neg: F -> F, mul: (F, F) -> F, inv: F -> F) {
    function Sub(x: F, y: F): F {
      add(x, neg(y))
    }

    function Div(x: F, y: F): F {
      mul(x, inv(y))
    }
  }

  ghost predicate AddCommAt<F>(f: Field<F>, x: F, y: F) { f.add(x, y) == f.add(y, x) }
  ghost predicate AddAssocAt<F>(f: Field<F>, x: F, y: F, z: F) { f.add(f.add(x, y), z) == f.add(x, f.add(y, z)) }
  ghost predicate AddUnitAt<F>(f: Field<F>, x: F) { f.add(x, f.zero) == x && f.add(x, f.neg(x)) == f.zero }
  ghost predicate MulCommAt<F>(f: Field<F>, x: F, y: F) { f.mul(x, y) == f.mul(y, x) }
  ghost predicate MulAssocAt<F>(f: Field<F>, x: F, y: F, z: F) { f.mul(f.mul(x, y), z) == f.mul(x, f.mul(y, z)) }
  ghost predicate MulUnitAt<F>(f: Field<F>, x: F) {
    f.mul(x, f.one) == x && (x != f.zero ==> f.mul(x, f.inv(x)) == f.one)
  }
  ghost predicate DistribAt<F>(f: Field<F>, x: F, y: F, z: F) {
    f.mul(x, f.add(y, z)) == f.add(f.mul(x, y), f.mul(x, z))
  }

  ghost predicate IsField<F(!new)>(f: Field<F>) {
    && f.zero != f.one
    && (forall x, y :: AddCommAt(f, x, y))
    && (forall x, y, z :: AddAssocAt(f, x, y, z))
    && (forall x :: AddUnitAt(f, x))
    && (forall x, y :: MulCommAt(f, x, y))
    && (forall x, y, z :: MulAssocAt(f, x, y, z))
    && (forall x :: MulUnitAt(f, x))
    && (forall x, y, z :: DistribAt(f, x, y, z))
  }

  // ----- The laws, one by one -----

  lemma AddComm<F(!new)>(f: Field<F>, x: F, y: F)
    requires IsField(f)
    ensures f.add(x, y) == f.add(y, x)
  {
    assert AddCommAt(f, x, y);
  }

  lemma AddAssoc<F(!new)>(f: Field<F>, x: F, y: F, z: F)
    requires IsField(f)
    ensures f.add(f.add(x, y), z) == f.add(x, f.add(y, z))
  {
    assert AddAssocAt(f, x, y, z);
  }

  lemma AddZero<F(!new)>(f: Field<F>, x: F)
    requires IsField(f)
    ensures f.add(x, f.zero) == x && f.add(f.zero, x) == x
  {
    assert AddUnitAt(f, x);
    AddComm(f, x, f.zero);
  }

  lemma AddNeg<F(!new)>(f: Field<F>, x: F)
    requires IsField(f)
    ensures f.add(x, f.neg(x)) == f.zero && f.add(f.neg(x), x) == f.zero
  {
    assert AddUnitAt(f, x);
    AddComm(f, x, f.neg(x));
  }

  lemma MulComm<F(!new)>(f: Field<F>, x: F, y: F)
    requires IsField(f)
    ensures f.mul(x, y) == f.mul(y, x)
  {
    assert MulCommAt(f, x, y);
  }

  lemma MulAssoc<F(!new)>(f: Field<F>, x: F, y: F, z: F)
    requires IsField(f)
    ensures f.mul(f.mul(x, y), z) == f.mul(x, f.mul(y, z))
  {
    assert MulAssocAt(f, x, y, z);
  }

  lemma MulOne<F(!new)>(f: Field<F>, x: F)
    requires IsField(f)
    ensures f.mul(x, f.one) == x && f.mul(f.one, x) == x
  {
    assert MulUnitAt(f, x);
    MulComm(f, x, f.one);
  }

  lemma MulInv<F(!new)>(f: Field<F>, x: F)
    requires IsField(f) && x != f.zero
    ensures f.mul(x, f.inv(x)) == f.one && f.mul(f.inv(x), x) == f.one
  {
    assert MulUnitAt(f, x);
    MulComm(f, x, f.inv(x));
  }

  lemma Distrib<F(!new)>(f: Field<F>, x: F, y: F, z: F)
    requires IsField(f)
    ensures f.mul(x, f.add(y, z)) == f.add(f.mul(x, y), f.mul(x, z))
    ensures f.mul(f.add(y, z), x) == f.add(f.mul(y, x), f.mul(z, x))
  {
    assert DistribAt(f, x, y, z);
    MulComm(f, x, f.add(y, z));
    MulComm(f, x, y);
    MulComm(f, x, z);
  }

  // ----- Consequences -----

  lemma AddCancel<F(!new)>(f: Field<F>, a: F, x: F, y: F)
    requires IsField(f) && f.add(a, x) == f.add(a, y)
    ensures x == y
  {
    AddAssoc(f, f.neg(a), a, x);
    AddAssoc(f, f.neg(a), a, y);
    AddNeg(f, a);
    AddZero(f, x);
    AddZero(f, y);
  }

  lemma MulZero<F(!new)>(f: Field<F>, x: F)
    requires IsField(f)
    ensures f.mul(x, f.zero) == f.zero && f.mul(f.zero, x) == f.zero
  {
    Distrib(f, x, f.zero, f.zero);
    AddZero(f, f.zero);
    AddZero(f, f.mul(x, f.zero));
    AddCancel(f, f.mul(x, f.zero), f.mul(x, f.zero), f.zero);
    MulComm(f, x, f.zero);
  }

  lemma SubZero<F(!new)>(f: Field<F>, x: F, y: F)
    requires IsField(f)
    ensures f.Sub(x, y) == f.zero <==> x == y
  {
    AddNeg(f, y);
    if f.Sub(x, y) == f.zero {
      AddComm(f, x, f.neg(y));
      AddComm(f, y, f.neg(y));
      AddCancel(f, f.neg(y), x, y);
    }
  }

  /** `x - y == z` says `x == y + z`. */
  lemma SubIs<F(!new)>(f: Field<F>, x: F, y: F, z: F)
    requires IsField(f)
    ensures f.Sub(x, y) == z <==> x == f.add(y, z)
  {
    SubAdd(f, y, z);
    if f.Sub(x, y) == z {
      AddComm(f, x, f.neg(y));
      AddAssoc(f, y, f.neg(y), x);
      AddNeg(f, y);
      AddZero(f, x);
    }
  }

  lemma SubAdd<F(!new)>(f: Field<F>, y: F, z: F)
    requires IsField(f)
    ensures f.Sub(f.add(y, z), y) == z
  {
    AddComm(f, y, z);
    AddAssoc(f, z, y, f.neg(y));
    AddNeg(f, y);
    AddZero(f, z);
  }

  lemma MulCancel<F(!new)>(f: Field<F>, a: F, x: F, y: F)
    requires IsField(f) && a != f.zero && f.mul(a, x) == f.mul(a, y)
    ensures x == y
  {
    MulAssoc(f, f.inv(a), a, x);
    MulAssoc(f, f.inv(a), a, y);
    MulInv(f, a);
    MulOne(f, x);
    MulOne(f, y);
  }

  lemma NoZeroDivisor<F(!new)>(f: Field<F>, a: F, b: F)
    requires IsField(f)
    ensures f.mul(a, b) == f.zero <==> a == f.zero || b == f.zero
  {
    MulZero(f, a);
    MulZero(f, b);
    if f.mul(a, b) == f.zero && a != f.zero {
      MulCancel(f, a, b, f.zero);
    }
  }

  lemma NegMul<F(!new)>(f: Field<F>, x: F, y: F)
    requires IsField(f)
    ensures f.mul(f.neg(x), y) == f.neg(f.mul(x, y)) && f.mul(y, f.neg(x)) == f.neg(f.mul(y, x))
  {
    Distrib(f, y, x, f.neg(x));
    AddNeg(f, x);
    MulZero(f, y);
    AddNeg(f, f.mul(x, y));
    AddNeg(f, f.mul(y, x));
    AddCancel(f, f.mul(x, y), f.mul(f.neg(x), y), f.neg(f.mul(x, y)));
    AddCancel(f, f.mul(y, x), f.mul(y, f.neg(x)), f.neg(f.mul(y, x)));
  }

  /** Swaps the inner two of four summands. */
  lemma AddSwap<F(!new)>(f: Field<F>, a: F, b: F, c: F, d: F)
    requires IsField(f)
    ensures f.add(f.add(a, b), f.add(c, d)) == f.add(f.add(a, c), f.add(b, d))
  {
    AddAssoc(f, a, b, f.add(c, d));
    AddAssoc(f, b, c, d);
    AddComm(f, b, c);
    AddAssoc(f, c, b, d);
    AddAssoc(f, a, c, f.add(b, d));
  }

  // ----- Differences -----

  lemma NegAdd<F(!new)>(f: Field<F>, x: F, y: F)
    requires IsField(f)
    ensures f.neg(f.add(x, y)) == f.add(f.neg(x), f.neg(y))
  {
    AddSwap(f, x, y, f.neg(x), f.neg(y));
    AddNeg(f, x);
    AddNeg(f, y);
    AddNeg(f, f.add(x, y));
    AddZero(f, f.zero);
    AddCancel(f, f.add(x, y), f.neg(f.add(x, y)), f.add(f.neg(x), f.neg(y)));
  }

  lemma NegNeg<F(!new)>(f: Field<F>, x: F)
    requires IsField(f)
    ensures f.neg(f.neg(x)) == x
  {
    AddNeg(f, x);
    AddNeg(f, f.neg(x));
    AddCancel(f, f.neg(x), f.neg(f.neg(x)), x);
  }

  /** (a + b) - (c + d) = (a - c) + (b - d). */
  lemma SubPairs<F(!new)>(f: Field<F>, a: F, b: F, c: F, d: F)
    requires IsField(f)
    ensures f.Sub(f.add(a, b), f.add(c, d)) == f.add(f.Sub(a, c), f.Sub(b, d))
  {
    NegAdd(f, c, d);
    AddSwap(f, a, b, f.neg(c), f.neg(d));
  }

  /** (a + c) - (b + c) = a - b. */
  lemma SubCommon<F(!new)>(f: Field<F>, a: F, b: F, c: F)
    requires IsField(f)
    ensures f.Sub(f.add(a, c), f.add(b, c)) == f.Sub(a, b)
  {
    SubPairs(f, a, c, b, c);
    AddNeg(f, c);
    AddZero(f, f.Sub(a, b));
  }

  /** (a - b) + (b - c) = a - c. */
  lemma Telescope<F(!new)>(f: Field<F>, a: F, b: F, c: F)
    requires IsField(f)
    ensures f.add(f.Sub(a, b), f.Sub(b, c)) == f.Sub(a, c)
  {
    AddAssoc(f, a, f.neg(b), f.Sub(b, c));
    AddAssoc(f, f.neg(b), b, f.neg(c));
    AddNeg(f, b);
    AddZero(f, f.neg(c));
  }

  lemma MulSub<F(!new)>(f: Field<F>, x: F, y: F, z: F)
    requires IsField(f)
    ensures f.mul(x, f.Sub(y, z)) == f.Sub(f.mul(x, y), f.mul(x, z))
    ensures f.mul(f.Sub(y, z), x) == f.Sub(f.mul(y, x), f.mul(z, x))
  {
    Distrib(f, x, y, f.neg(z));
    NegMul(f, z, x);
  }

  // ----- Sums and products, folded from the left -----

  function Sum<F>(f: Field<F>, xs: seq<F>): F {
    if xs == [] then f.zero else f.add(Sum(f, xs[..|xs| - 1]), xs[|xs| - 1])
  }

  function Product<F>(f: Field<F>, xs: seq<F>): F {
    if xs == [] then f.one else f.mul(Product(f, xs[..|xs| - 1]), xs[|xs| - 1])
  }

  function FromNat<F>(f: Field<F>, n: nat): F {
    if n == 0 then f.zero else f.add(FromNat(f, n - 1), f.one)
  }

  ghost predicate AllZero<F>(f: Field<F>, xs: seq<F>) {
    forall i | 0 <= i < |xs| :: xs[i] == f.zero
  }

  lemma SumSnoc<F>(f: Field<F>, xs: seq<F>, x: F)
    ensures Sum(f, xs + [x]) == f.add(Sum(f, xs), x)
  {
    assert (xs + [x])[..|xs|] == xs;
  }

  lemma ProductSnoc<F>(f: Field<F>, xs: seq<F>, x: F)
    ensures Product(f, xs + [x]) == f.mul(Product(f, xs), x)
  {
    assert (xs + [x])[..|xs|] == xs;
  }

  lemma {:induction false} SumConcat<F(!new)>(f: Field<F>, a: seq<F>, b: seq<F>)
    requires IsField(f)
    ensures Sum(f, a + b) == f.add(Sum(f, a), Sum(f, b))
    decreases |b|
  {
    if b == [] {
      assert a + b == a;
      AddZero(f, Sum(f, a));
    } else {
      var b', x := b[..|b| - 1], b[|b| - 1];
      assert a + b == (a + b') + [x];
      SumSnoc(f, a + b', x);
      SumConcat(f, a, b');
      AddAssoc(f, Sum(f, a), Sum(f, b'), x);
    }
  }

  lemma SumOne<F(!new)>(f: Field<F>, x: F)
    requires IsField(f)
    ensures Sum(f, [x]) == x
  {
    assert [x] == [] + [x];
    SumSnoc(f, [], x);
    AddZero(f, x);
  }

  lemma {:induction false} ProductNonzero<F(!new)>(f: Field<F>, xs: seq<F>)
    requires IsField(f) && forall i | 0 <= i < |xs| :: xs[i] != f.zero
    ensures Product(f, xs) != f.zero
  {
    if xs != [] {
      ProductNonzero(f, xs[..|xs| - 1]);
      NoZeroDivisor(f, Product(f, xs[..|xs| - 1]), xs[|xs| - 1]);
    }
  }

  lemma {:induction false} ProductConcat<F(!new)>(f: Field<F>, a: seq<F>, b: seq<F>)
    requires IsField(f)
    ensures Product(f, a + b) == f.mul(Product(f, a), Product(f, b))
    decreases |b|
  {
    if b == [] {
      assert a + b == a;
      MulOne(f, Product(f, a));
    } else {
      var b', x := b[..|b| - 1], b[|b| - 1];
      assert a + b == (a + b') + [x];
      ProductSnoc(f, a + b', x);
      ProductConcat(f, a, b');
      MulAssoc(f, Product(f, a), Product(f, b'), x);
    }
  }
}
