/** Constraint folding (crates/stark/src/folder.rs): the prover multiplies by indexed
    reversed powers of the challenge, the verifier folds by Horner's rule. */
module Folding {
  import opened Fields
  import opened Powers
  import opened LogUp
  import opened LogUpTrace

  function ProverFold<F>(f: Field<F>, powers: seq<F>, xs: seq<F>): F
    requires |xs| <= |powers|
  {
    if xs == [] then f.zero
    else
      var k := |xs| - 1;
      f.add(ProverFold(f, powers, xs[..k]), f.mul(powers[k], xs[k]))
  }

  function HornerFold<F>(f: Field<F>, alpha: F, xs: seq<F>): F {
    if xs == [] then f.zero
    else
      var k := |xs| - 1;
      f.add(f.mul(HornerFold(f, alpha, xs[..k]), alpha), xs[k])
  }

  /** `alpha.powers().take(n)`, reversed. */
  function ReversedPowers<F>(f: Field<F>, alpha: F, n: nat): (r: seq<F>)
    ensures |r| == n && forall i | 0 <= i < n :: r[i] == Power(f, alpha, n - 1 - i)
  {
    seq(n, i requires 0 <= i < n => Power(f, alpha, n - 1 - i))
  }

  /** `ProverConstraintFolder`. */
  class ProverConstraintFolder<F> {
    const f: Field<F>
    const powers: seq<F>
    var accumulator: F
    var constraintIndex: nat

    constructor (f: Field<F>, powers: seq<F>)
      ensures this.f == f && this.powers == powers && accumulator == f.zero && constraintIndex == 0
    {
      this.f, this.powers, this.accumulator, this.constraintIndex := f, powers, f.zero, 0;
    }

    ghost predicate Folded(xs: seq<F>)
      reads this
    {
      constraintIndex == |xs| <= |powers| && accumulator == ProverFold(f, powers, xs)
    }

    method AssertZero(x: F, ghost xs: seq<F>)
      requires Folded(xs) && constraintIndex < |powers|
      modifies this
      ensures Folded(xs + [x])
    {
      accumulator := f.add(accumulator, f.mul(powers[constraintIndex], x));
      constraintIndex := constraintIndex + 1;
      assert (xs + [x])[..|xs|] == xs;
    }
  }

  /** `GenericVerifierConstraintFolder`. */
  class VerifierConstraintFolder<F> {
    const f: Field<F>
    const alpha: F
    var accumulator: F

    constructor (f: Field<F>, alpha: F)
      ensures this.f == f && this.alpha == alpha && accumulator == f.zero
    {
      this.f, this.alpha, this.accumulator := f, alpha, f.zero;
    }

    ghost predicate Folded(xs: seq<F>)
      reads this
    {
      accumulator == HornerFold(f, alpha, xs)
    }

    method AssertZero(x: F, ghost xs: seq<F>)
      requires Folded(xs)
      modifies this
      ensures Folded(xs + [x])
    {
      accumulator := f.mul(accumulator, alpha);
      accumulator := f.add(accumulator, x);
      assert (xs + [x])[..|xs|] == xs;
    }
  }

  /** With more powers than constraints the prover's value is the verifier's times a
      power of the challenge; with as many, they are equal. */
  lemma {:induction false} FoldsDifferByPower<F(!new)>(f: Field<F>, alpha: F, n: nat, xs: seq<F>)
    requires IsField(f) && |xs| <= n
    ensures ProverFold(f, ReversedPowers(f, alpha, n), xs)
         == f.mul(Power(f, alpha, n - |xs|), HornerFold(f, alpha, xs))
    decreases |xs|
  {
    hide IsField;
    if xs == [] {
      MulZero(f, Power(f, alpha, n));
    } else {
      var k := |xs| - 1;
      var h, x, a := HornerFold(f, alpha, xs[..k]), xs[k], Power(f, alpha, n - |xs|);
      FoldsDifferByPower(f, alpha, n, xs[..k]);
      Distrib(f, a, f.mul(h, alpha), x);
      MulComm(f, h, alpha);
      MulAssoc(f, a, alpha, h);
    }
  }

  lemma FoldsAgree<F(!new)>(f: Field<F>, alpha: F, xs: seq<F>)
    requires IsField(f)
    ensures ProverFold(f, ReversedPowers(f, alpha, |xs|), xs) == HornerFold(f, alpha, xs)
  {
    FoldsDifferByPower(f, alpha, |xs|, xs);
    MulOne(f, HornerFold(f, alpha, xs));
  }

  /** A wrong count is visible: one power too many and the values agree only when the
      folded constraint is zero or the challenge is one. */
  lemma CountOffByOne<F(!new)>(f: Field<F>, alpha: F, xs: seq<F>)
    requires IsField(f)
    ensures ProverFold(f, ReversedPowers(f, alpha, |xs| + 1), xs) == HornerFold(f, alpha, xs)
       <==> HornerFold(f, alpha, xs) == f.zero || alpha == f.one
  {
    var h := HornerFold(f, alpha, xs);
    FoldsDifferByPower(f, alpha, |xs| + 1, xs);
    assert Power(f, alpha, 1) == f.mul(Power(f, alpha, 0), alpha);
    MulOne(f, alpha);
    MulOne(f, h);
    MulZero(f, alpha);
    MulComm(f, alpha, h);
    MulComm(f, f.one, h);
    if h != f.zero && f.mul(alpha, h) == h {
      MulCancel(f, h, alpha, f.one);
    }
  }

  /** The prover takes as many powers as `setup` counted: the chip's own constraints
      plus the permutation counter.  So for every chip and every row, it folds the
      asserted values to what the verifier computes. */
  lemma ChipFoldsAgree<F(!new)>(f: Field<F>, alpha: F, own: seq<F>, ch: Challenge<F>, sends: seq<Lookup<F>>,
      receives: seq<Lookup<F>>, batch: nat, scope: Scope, row: Row<F>, perm: seq<F>, next: seq<F>, sel: Selectors<F>,
      sum: F, digest: Digest<F>)
    requires IsField(f) && batch > 0
    requires |perm| == |next| == TraceWidth(|LocalLookups(sends, receives)|, batch)
    requires scope == Global ==> |row.main| >= 14 && |digest.x| == 7 && |digest.y| == 7
    ensures
      var xs := own + LocalValues(f, ch, LocalLookups(sends, receives), batch, row, perm, next, sel, sum)
                + GlobalValues(f, scope, row.main, sel, digest, 0);
      var n := |own| + CountPermutationConstraints(sends, receives, batch, scope);
      |xs| == n && ProverFold(f, ReversedPowers(f, alpha, n), xs) == HornerFold(f, alpha, xs)
  {
    hide LocalValues, GlobalValues, IsField;
    LocalCount(f, ch, LocalLookups(sends, receives), batch, row, perm, next, sel, sum);
    GlobalCount(f, scope, row.main, sel, digest, 0);
    FoldsAgree(f, alpha, own + LocalValues(f, ch, LocalLookups(sends, receives), batch, row, perm, next, sel, sum)
                + GlobalValues(f, scope, row.main, sel, digest, 0));
  }
}
