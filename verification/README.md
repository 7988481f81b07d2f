# Verified models of the Ziren proving stack

This project models the parts of the repository where the proving stack's own logic lives, and
proves what that logic promises. The proof system underneath (commitments, FRI, the challenger,
Poseidon2) is opaque: challenges are arbitrary field elements, fields are arbitrary records of
operations with the field laws as a hypothesis.

| component | files |
|---|---|
| recursive compression pipeline | `CompressTree`, `CompressPipeline`, `CompressInvariant`, `CompressTheorems` |
| LogUp permutation argument and constraint folding | `Fields`, `Powers`, `Polynomials`, `LogUp`, `LogUpTrace`, `LogUpBalance`, `LogUpFingerprint`, `LogUpSoundness`, `Folding`, `LogUpShape` |
| Picus guard simplifier | `PicusLang`, `PicusText`, `PicusGuards`, `PicusUses`, `PicusRewrite`, `PicusRounds`, `PicusExact`, `PicusOccurrences`, `PicusLimits` |
| septic extension, curve and digest | `SepticExtension`, `SepticFrobenius`, `Cipolla`, `SepticRoot`, `EllipticCurve`, `SepticCurve`, `SepticDigest` |
| core proof acceptance | `CoreAcceptance`, `ChipAlignment` |
| Go guest encoder and decoder | `GoValues`, `GoCodec`, `GoRoundTrip`, `GoDecoding`, `GoFormat`, `GoReading`, `GoRuntime` |
| maximal shapes, zerofier table | `MaximalShapes`, `Zerofier` |

`Arithmetic`, `Collections` and `Options` are shared. `dafny verify dfyconfig.toml` checks everything.

## How to read the models

**Compression.** `compress` spawns a sender, trace workers, provers and a next-layer worker, joined
in a cycle by three bounded channels and ordered by three turn counters. One step of the model is
one blocking operation of one thread; a run is any interleaving of enabled steps. `Inv` says where
every item made so far is: the items are numbered in one global order, each stage holds a contiguous
window of them, and the proofs not yet consumed form at most two layers whose leaves, read left to
right, are all inputs. From it follow exactly-once coverage, agreement with the separately computed
height, deadlock freedom and a fixed number of steps. A proof is identified by what it attests, a
tree over first-layer inputs.

**LogUp.** `LocalValues` and `GlobalValues` are the values the evaluator asserts, computed by loops
as in the source. `IsGenerated` says what the columns mean: each batch column is the sum of its
signed fractions, the last column is the running sum. The central result is that the assertions hold
exactly for the generated trace. `Balanced` is about messages and multiplicities only; it makes the sums
vanish at every challenge, and sums that vanish on a large enough grid of challenges force it. A
fingerprint is alpha plus a polynomial in beta whose coefficients are the argument and the values.

**Picus.** Expressions have a value over the integers modulo a prime, comparisons compare canonical
representatives, and division by an element without inverse gives zero. A round of the simplifier is
a relation between modules. Two of its promises are not unconditional. A model of the result need not
be one of the input: `GuardedBoundAddsModels` is the witness, and the exact condition, for one round
and for all rounds, is that every rewritten strict comparison guarded on both sides has its guard on.
A model of the input need not give one of the result: `DifferentGuardsLoseModels` is the witness. For
the assignments that change a model only in variables all of whose guards are off, the exact condition
is that the stripped constraints of mixed variables (one guard off, another on) are met by the values
those variables have; a model that changes other hidden variables too may exist without it. Repetitions are recognised by printed text, which is
proved to be injective for the names the code generates.

**Septic field.** Multiplication is proved to be multiplication modulo z^7 + 2z - 8 at the roots of
that polynomial in any field the coefficients map into. For the Frobenius maps, inverse and square root, `Granted`
collects what is taken as known: the base field satisfies Fermat's little theorem, its generator
generates, the p-th power is additive, the extension is a field, the two tables hold z^(ip) and
z^(ip^2), and norms lie in the base field. Everything else is proved: that the sums over the tables are
the powers p and p^2 at every element, that the search for a non-residue ends, Cipolla's algorithm, and
the case where the search stops at a candidate equal to zero. For digests, `GroupLaw`
is the group law of the curve: an abelian group with an injective map from the points that turns
chords into sums.

**Core acceptance.** Each pass of `verify` is a loop over the shards with its own running state.
`CompleteRun` describes a whole run without reference to the passes, with integer counters.

**Go codec.** Values are trees; types may refer to declared types by number, so they can be
recursive behind pointers and slices. Decoding ends because the bytes left, the rank of the type and
the type itself decrease lexicographically.

## Where the code and its documentation differ

- The comment on `count_permutation_constraints` counts the full trace width plus three; the code
  counts the width less one plus three, which is what the evaluator emits.
- The comment on the digest pass of `verify` says a digest following a zero digest should be zero;
  the code lets it change on any shard with a CPU, and the model follows the code.
- A comment in `verify` says the execution shard stays the same on shards without a CPU; the code
  does not look at it there.
- `log_degree_cpu` runs before the chip ordering is validated, so an ordering that places the CPU
  outside the opened chips panics instead of being refused; the model has that outcome.
- `Shape::partial_cmp` does not order a shape below one that only has more chips; `Below` says what
  it does order, so shapes that differ only in extra chips stay side by side in the list
  (`ExtraChipsDoNotCount`).
- A non-byte Go array is meant to be reported as unsupported, but building the message asks for the
  element of an array value and panics; both count as "does not encode" here.

## Model

| member | source | states |
|---|---|---|
| CompressTheorems.EveryRun | crates/prover/src/lib.rs:617-952 | in every run of every interleaving, some thread can step until the answer is there; then exactly one proof is left, its leaves read left to right are shards 0, 1, 2, ... (the first marked first, complete exactly when it is the only input) and then deferred proofs 0, 1, ..., no two equal, it has the expected height, it is marked complete and nothing below it is, and the number of steps is a function of the configuration |
| CompressTree.InputsInOrder | crates/prover/src/lib.rs:529-616 | the first-layer inputs are the shards in order and then the deferred proofs in order |
| CompressTheorems.RunBound | crates/prover/src/lib.rs:648-939 | no run is longer than a bound fixed in advance, so every interleaving terminates |
| CompressTheorems.Progress | crates/prover/src/lib.rs:648-939 | deadlock freedom despite the cycle of bounded channels: before the answer, a concrete step is enabled |
| CompressTheorems.InFlightBound | crates/prover/src/lib.rs:788-796 | items in flight plus the batch never exceed the number of inputs |
| CompressTheorems.ProofChannelNeverBlocks | crates/prover/src/lib.rs:788-796 | in every run the proofs channel holds at most n of its 2n places |
| CompressTheorems.StepKeeps | crates/prover/src/lib.rs:648-939 | every step of every thread keeps the invariant and advances the step measure by one |
| CompressTheorems.RunInv | crates/prover/src/lib.rs:648-939 | every reachable state satisfies the invariant, with as many steps done as the run is long |
| CompressTheorems.StageMoves | crates/core/machine/src/utils/concurrency.rs:16-28 | in a stage that holds items, some worker has sent or holds the item whose turn it is |
| CompressTheorems.NeverDisconnected | crates/prover/src/lib.rs:869-939 | the next-layer worker never finds its channel closed while it still collects |
| CompressTheorems.Answer | crates/prover/src/lib.rs:941-952 | when provers and next-layer worker have ended, the one proof left covers all inputs and carries the only completeness mark |
| CompressInvariant.JoinFrontier | crates/prover/src/lib.rs:886-933 | joining a full batch, or the last proof of an odd layer alone, keeps leaves, order, layers and the number of nodes still to make |
| CompressTree.ExpectedHeight | crates/prover/src/lib.rs:634-641 | the div_ceil loop computes the number of halvings to one |
| CompressTree.LevelsIsLeast | crates/prover/src/lib.rs:634-641 | that number is the least h with 2^h >= n |
| CompressTree.TotalBound | crates/prover/src/lib.rs:634-641 | the number of proofs made lies between n and 2n plus the height |
| LogUpTrace.LogUpExact | crates/stark/src/permutation.rs:205-333 | without zero fingerprints, trace and sum satisfy all local constraints if and only if every batch column is its sum of signed fractions, the last column is the running sum, and the cumulative sum is the sum over all rows and lookups |
| LogUpTrace.GeneratePermutationTrace | crates/stark/src/permutation.rs:102-196 | the generator produces exactly that trace and sum, and zero columns without local lookups |
| LogUpTrace.PopulateRow | crates/stark/src/permutation.rs:29-69 | fills the batch columns of a row in place with the sums of their chunks' fractions and leaves the last column alone |
| LogUp.BatchConstraint | crates/stark/src/permutation.rs:292-311 | the product-of-others polynomial is zero exactly when the column is the sum of the fractions |
| LogUp.EvalBatch | crates/stark/src/permutation.rs:292-311 | the nested loops compute that polynomial |
| LogUp.ChunkCount | crates/stark/src/permutation.rs:17-23 | the trace width has one column per chunk |
| LogUpTrace.EvalPermutationConstraints | crates/stark/src/permutation.rs:205-347 | emits the local and global values in order, and as many as `count_permutation_constraints` says, for every lookup list, batch size and scope |
| LogUpTrace.RunningSum | crates/stark/src/permutation.rs:314-333 | first-row, transition and last-row constraints force every row to be the generated one |
| LogUpBalance.BalancedShardSumsToZero | crates/stark/src/types.rs:101-103 | if signed multiplicities of every message cancel over all chips and rows, the local cumulative sums total zero for every challenge |
| LogUpBalance.BalancedShardAccepted | crates/stark/src/verifier.rs:290-299 | the same for the sums claimed by any traces that satisfy the constraints, whatever the batch sizes and heights |
| LogUpFingerprint.FingerprintIs | crates/stark/src/permutation.rs:47-58 | the fingerprint is alpha plus the polynomial in beta with the argument as its constant and the values as its further coefficients |
| LogUpFingerprint.ValueCounts | crates/stark/src/permutation.rs:47-58 | changing value k by d changes the fingerprint by d beta^(k+1) |
| LogUpFingerprint.ArgumentCounts | crates/stark/src/permutation.rs:47-58 | raising the argument by one raises the fingerprint by one |
| LogUpFingerprint.EmptyMessage | crates/stark/src/permutation.rs:47-58 | an empty message with argument zero has fingerprint alpha |
| LogUpFingerprint.FewCollisions | crates/stark/src/permutation.rs:38-68 | two messages agree at more betas than they have values if and only if they have the same coefficients |
| LogUpFingerprint.AlikeIsEqual | crates/stark/src/permutation.rs:38-68 | messages of one length with arguments below the characteristic have the same coefficients only if they are equal |
| LogUpSoundness.GridZeroExactlyWhenBalanced | crates/stark/src/permutation.rs:38-68 | over a grid with as many alphas as messages and more than n n L betas, for n messages of at most L values, the fractions sum to zero at every challenge if and only if every message's multiplicities cancel; no beta is assumed to separate messages |
| LogUpShape.LocalLookupsAre | crates/stark/src/permutation.rs:72-99 | the local lookups are exactly the local sends in order and then the local receives in order |
| LogUpShape.ChunkIs | crates/stark/src/permutation.rs:41-48 | column i takes the lookups from i batch up to (i + 1) batch |
| LogUpShape.WidthIsLeast | crates/stark/src/permutation.rs:17-23 | the number of batch columns is the least with room for all lookups |
| LogUpShape.OneLookup | crates/stark/src/permutation.rs:47-67 | on one row a send adds its multiplicity over its fingerprint and a receive subtracts it |
| LogUpShape.GlobalColumns | crates/stark/src/permutation.rs:335-346 | on the last row the global values vanish exactly when the last fourteen columns are the digest's x and then its y |
| LogUpShape.FoldIsPolynomial | crates/stark/src/folder.rs:245-250 | the folded value is the polynomial in the challenge with the constraints as coefficients, the last one constant |
| LogUpSoundness.ZeroExactlyWhenBalanced | crates/stark/src/permutation.rs:38-68 | for a beta that separates the messages, and as many different alphas as messages with no zero fingerprint, the fractions sum to zero at all of them if and only if every message's multiplicities cancel |
| LogUpSoundness.ShardSumsZeroExactlyWhenBalanced | crates/stark/src/verifier.rs:290-299 | the same for the local cumulative sums of a whole shard |
| LogUpBalance.BalancedIsZero | crates/stark/src/permutation.rs:38-68 | messages with cancelling multiplicities weigh nothing at any challenge |
| Folding.FoldsAgree | crates/stark/src/prover.rs:447-456 | the indexed sum with reversed powers equals Horner's accumulator |
| Folding.FoldsDifferByPower | crates/stark/src/folder.rs:79-102 | with n powers for fewer constraints the two differ by exactly the missing power |
| Folding.CountOffByOne | crates/stark/src/prover.rs:447-456 | with one power too many they agree only if the folded value is zero or the challenge is one |
| Folding.ChipFoldsAgree | crates/stark/src/machine.rs:426-444 | with the count kept by `setup`, prover and verifier fold every chip's assertions to the same value |
| Folding.ProverConstraintFolder.AssertZero | crates/stark/src/folder.rs:79-102 | extends the folded prefix by one constraint |
| Folding.VerifierConstraintFolder.AssertZero | crates/stark/src/folder.rs:245-250 | extends the Horner fold by one constraint |
| PicusGuards.CollectKnownGuards | crates/picus/src/main.rs:406-424 | the fixpoint loop ends with exactly the variables that have a finite derivation from bit constraints and from aliases, in either order, of products and complements of derived variables |
| PicusGuards.KnownExactly | crates/picus/src/main.rs:387-424 | the least set closed under inference is the set of derivable variables |
| PicusExact.GuardExactly | crates/picus/src/main.rs:354-385 | an expression is a guard if and only if it is a product of known guards, ones and complements other than of one, and not of ones only |
| PicusGuards.KnownGuardsSound | crates/picus/src/main.rs:387-424 | in every assignment satisfying the constraints, over every prime field, every known guard is 0 or 1 |
| PicusGuards.GuardValue | crates/picus/src/main.rs:354-385 | an expression with guard count 0 has value 1, one with a count has value 0 or 1 |
| PicusGuards.BooleanGuardValue | crates/picus/src/main.rs:336-352 | a boolean guard expression has value 0 or 1 |
| PicusUses.EveryUseSeen | crates/picus/src/main.rs:426-522 | the collector records every variable, as guarded exactly when some guard encloses it |
| PicusUses.DominationIsNoninterference | crates/picus/src/main.rs:426-670 | changing dominated variables while every guard enclosing them is 0 changes no constraint, postcondition, interface or call value |
| PicusOccurrences.UsesExactly | crates/picus/src/main.rs:426-522 | a variable is recorded as guarded exactly when some single occurrence stands under a guard, as unguarded exactly when some occurrence does not |
| PicusOccurrences.DominatedExactly | crates/picus/src/main.rs:591-670 | a variable is dominated if and only if it is not protected, occurs, and every occurrence in the module stands under a guard |
| PicusRewrite.RewriteIsStripping | crates/picus/src/main.rs:750-813 | every rewrite removes one guard from a constraint on a dominated variable |
| PicusExact.GuardedIsRewritten | crates/picus/src/main.rs:672-813 | every guard times a bit or range constraint on a dominated variable is rewritten to that constraint |
| PicusExact.OnlyGuardedIsRewritten | crates/picus/src/main.rs:750-813 | and nothing else is rewritten |
| PicusExact.RoundStripsAll | crates/picus/src/main.rs:815-849 | in a round every guarded constraint on a dominated variable loses its guard |
| PicusRewrite.DedupIs | crates/picus/src/main.rs:829-843 | nothing is kept twice, everything is kept once, in its old order |
| PicusRewrite.StrippingMeaning | crates/picus/src/main.rs:672-813 | with the guard 1 both constraints mean the same; with the guard 0 the original holds, except a strict comparison, which then says its constant bound is positive |
| PicusRewrite.StrippedImpliesOriginal | crates/picus/src/main.rs:750-813 | the result implies the original if and only if a guard on both sides of a strict comparison is 1 |
| PicusRewrite.RoundReflectsModels | crates/picus/src/main.rs:815-849 | a model of the result is a model of the input if and only if the guards on both sides of rewritten strict comparisons are 1 |
| PicusRewrite.RoundKeepsModels | crates/picus/src/main.rs:815-849 | a model of the input, with the dominated variables switched off where all their guards are 0, is a model of the result if and only if the stripped constraints of mixed variables are met; what the module shows never changes |
| PicusRewrite.NoOtherChoiceHelps | crates/picus/src/main.rs:815-849 | the same condition is necessary for every other choice of values for the variables that are off |
| PicusRewrite.AgreeingGuardsSuffice | crates/picus/src/main.rs:815-849 | guards that agree leave no variable mixed |
| PicusRewrite.RoundKeepsGuards | crates/picus/src/main.rs:815-849 | a round keeps every guard already inferred |
| PicusRounds.RoundsReflectModels | crates/picus/src/main.rs:815-849 | over all rounds, a model of the result is a model of the input if and only if every rewritten strict comparison guarded on both sides has its guard on in the round that rewrites it |
| PicusRounds.RoundsKeepModels | crates/picus/src/main.rs:815-849 | over all rounds, a model of the input, switched off round by round, is a model of the result with the same interface values if and only if in every round the stripped constraints of mixed variables are met |
| PicusRounds.SharedGuardsKeepModels | crates/picus/src/main.rs:815-849 | so when all uses of each rewritten variable share one guard, every model survives with its interface values |
| PicusRounds.BareIsNotDominated | crates/picus/src/main.rs:591-670 | the variable of a stripped constraint is never dominated again |
| PicusRewrite.NormalizeShrinks | crates/picus/src/main.rs:750-813 | a rewrite strictly shrinks its constraint |
| PicusRewrite.NormalizePass | crates/picus/src/main.rs:829-843 | the loop, which compares printed text, rewrites every constraint, drops exactly the repetitions, and reports a change exactly when the list shrank |
| PicusText.RenderedInjective | crates/picus/src/pcl/program.rs:210-255 | two constraints print alike only if they are equal |
| PicusText.PrintSplit | crates/picus/src/pcl/program.rs:210-255 | unique readability: a text that starts with a printed tree determines the tree and the rest |
| PicusText.GeneratedNamesAreGood | crates/derive/src/picus_annotations.rs:300-308 | names made of a field and a column number, or of "fresh" and the number, are distinct words that do not look like numbers |
| PicusRewrite.PostprocessModule | crates/picus/src/main.rs:815-849 | terminates; the result is reached by rounds and is a fixed point, and other chips are left alone |
| PicusLimits.DifferentGuardsLoseModels | crates/picus/src/main.rs:591-670 | over every field with more than five elements, a module with a model whose rewritten form has none with the same interface values, because two guards of one variable differ |
| PicusLimits.GuardedBoundAddsModels | crates/picus/src/main.rs:788-810 | over every field with more than three elements, a model of the result that is none of the input, because a strict comparison guarded on both sides has its guard off |
| SepticExtension.Multiply | crates/stark/src/septic_extension.rs:306-323 | the two loops compute coefficient k as the convolution with z^7 replaced by 8 - 2z |
| SepticExtension.MulIsModularAbove | crates/stark/src/septic_extension.rs:306-323 | at every root of z^7 + 2z - 8, in every field the coefficients map into, the product evaluates to the product of the values |
| SepticExtension.MulIsModular | crates/stark/src/septic_extension.rs:306-323 | the same for a root in the coefficient field |
| SepticExtension.ScaleIsMul | crates/stark/src/septic_extension.rs:388-402 | scaling coefficient by coefficient is multiplying by the embedded base element |
| SepticFrobenius.FrobeniusIs | crates/stark/src/septic_extension.rs:580-604 | the sums over the two tables are the powers p and p^2, at every element |
| SepticExtension.MulByZ | crates/stark/src/septic_extension.rs:306-323 | below degree six, multiplying by z shifts the coefficients |
| SepticRoot.PowRLessOneRaises | crates/stark/src/septic_extension.rs:606-612 | `pow_r_1` raises to p + p^2 + ... + p^6 |
| SepticRoot.InvIsInverse | crates/stark/src/septic_extension.rs:614-619 | `inv` is the inverse of every nonzero element |
| SepticRoot.HalfPower | crates/stark/src/septic_extension.rs:645-652 | the 29 squarings compute n^((p+1)/2) |
| SepticRoot.ChainReachesHalf | crates/stark/src/septic_extension.rs:645-652 | 1 + 2^23 + ... + 2^29 = (p+1)/2 for p = 2^31 - 2^24 + 1 |
| SepticRoot.DenominatorSquared | crates/stark/src/septic_extension.rs:654-661 | the denominator squares to n times its norm |
| SepticRoot.Sqrt | crates/stark/src/septic_extension.rs:632-680 | returns a root whenever one exists, and `None` only when no element squares to n |
| SepticRoot.IsSquare | crates/stark/src/septic_extension.rs:621-628 | computes the norm, and for a nonzero element whether it has a square root |
| SepticRoot.SearchEnds | crates/stark/src/septic_extension.rs:663-672 | the search for a non-residue ends for every base it is called with: such a base is an even power g^(2k) of the generator, and candidate k is zero |
| Cipolla.CipollaRoot | crates/stark/src/septic_extension.rs:663-679 | for a base with Euler power one, the real part of (a + sqrt(w))^((p+1)/2) squares to the base, also when w is zero |
| Cipolla.PairAssoc | crates/stark/src/septic_extension.rs:717-722 | `mul_ext` is associative |
| Cipolla.PowerConjugates | crates/stark/src/septic_extension.rs:717-722 | over a non-residue the p-th power conjugates |
| Cipolla.FindNonresidue | crates/stark/src/septic_extension.rs:663-672 | the search stops at the first power of the generator whose candidate is not Euler-one |
| Powers.SquareAndMultiply | crates/stark/src/septic_extension.rs:724-736 | the loop over the bits computes the power |
| EllipticCurve.SumOnCurve | crates/stark/src/septic_curve.rs:51-58 | the sum of two points of the curve with different x is on the curve |
| EllipticCurve.DoubleOnCurve | crates/stark/src/septic_curve.rs:67-84 | so is the double of a point when 2y is not zero |
| EllipticCurve.DoubleExact | crates/stark/src/septic_curve.rs:67-84 | a point is the double if and only if it satisfies the tangent's two division-free equations |
| EllipticCurve.CheckersExact | crates/stark/src/septic_curve.rs:159-176 | both checkers are zero if and only if p3 is the sum |
| EllipticCurve.AddOnCurve | crates/stark/src/septic_curve.rs:198-217 | complete addition stays on the curve and gives infinity exactly for opposite points, unless it doubles a point with 2y = 0 |
| EllipticCurve.AddExactly | crates/stark/src/septic_curve.rs:198-217 | infinity is neutral, different x give the point where both checkers vanish, a point and itself the point of the tangent's equations |
| EllipticCurve.NegOnCurve | crates/stark/src/septic_curve.rs:45-49 | negation stays on the curve, both ways |
| SepticCurve.NegationSwaps | crates/stark/src/septic_extension.rs:683-698 | negation swaps sends and receives, and every element is exactly one of receive, send, exception |
| SepticCurve.CurveAtRoots | crates/stark/src/septic_curve.rs:100-122 | at every root of z^7 + 2z - 8 in every field above, a point of the curve satisfies w^2 = v^3 + 3zv - 3 with v and w the values of x and y |
| SepticCurve.CurveIs | crates/stark/src/septic_curve.rs:100-122 | the two constants of the formula are 3 times z and 3 |
| SepticCurve.SignIs | crates/stark/src/septic_extension.rs:683-698 | a receive has a last coefficient smaller than its opposite's, a send a larger one, an exception none |
| SepticCurve.TrialIs | crates/stark/src/septic_curve.rs:132-140 | the x tried has 256 times the last coefficient plus the offset, modulo p |
| SepticCurve.LiftX | crates/stark/src/septic_curve.rs:130-153 | returns the unique receive on y^2 = x^3 + 3zx - 3 at the first of 256 offsets where one exists, and panics exactly when none exists |
| SepticDigest.Sum | crates/stark/src/septic_digest.rs:61-75 | the fold and the two final updates compute the sum, and panic exactly when some addition meets two points with one x |
| SepticDigest.SumIsTotal | crates/stark/src/septic_digest.rs:61-75 | a sum without exceptional additions is the offset plus all contributions |
| SepticDigest.OrderDoesNotMatter | crates/stark/src/septic_digest.rs:61-75 | sums of the same digests in any order are equal |
| SepticDigest.ValueOfZero | crates/stark/src/septic_digest.rs:31-42 | the zero digest contributes nothing |
| SepticDigest.TotalOfSums | crates/stark/src/types.rs:105-107 | summing the shards' sums is one flat sum over all chips |
| SepticDigest.AcceptedIffCancelling | crates/stark/src/machine.rs:711-726 | the sum the machine checks is zero exactly when all contributions, with the key's, cancel |
| SepticDigest.GlobalCheck | crates/stark/src/machine.rs:711-726 | accepts, refuses, or panics exactly when some addition of some sum is exceptional |
| SepticDigest.GlobalVerdict | crates/stark/src/machine.rs:711-726 | for every input on the curve, a check that does not panic accepts exactly when all contributions cancel |
| CoreAcceptance.Verify | crates/prover/src/verify.rs:60-296 | accepts exactly the complete runs that the machine accepts; otherwise returns the verdict of the earliest pass on its earliest shard, in the order of the code |
| CoreAcceptance.AcceptedRunsAreComplete | crates/prover/src/verify.rs:66-288 | the passes succeed if and only if, h being the last CPU shard, the counter is zero exactly from h on, shard and execution-shard numbers count 1, 2, 3, ... as integers, each digest is zero up to one CPU shard and one constant from there, address bits move only with their chip, and sizes and exit codes are in bounds |
| CoreAcceptance.CounterHalts | crates/prover/src/verify.rs:132-171 | the program-counter pass succeeds exactly when execution halts at the last CPU shard |
| CoreAcceptance.NumbersDoNotWrap | crates/prover/src/verify.rs:90-130 | up to 65536 shards the field counters are integers |
| CoreAcceptance.SettledExactly | crates/prover/src/verify.rs:232-283 | the digest rule holds at every shard exactly when the digest is set at most once, on a CPU shard |
| CoreAcceptance.ProgramCounterComplaints | crates/prover/src/verify.rs:145-171 | the exact condition of each complaint of the program-counter pass |
| CoreAcceptance.MemoryComplaints | crates/prover/src/verify.rs:203-230 | the exact condition of each complaint of the address pass |
| CoreAcceptance.DigestComplaints | crates/prover/src/verify.rs:253-283 | the exact condition of each complaint of the digest pass |
| CoreAcceptance.CpuDegreeComplaints | crates/prover/src/verify.rs:77-88 | when the size pass panics and when it refuses |
| CoreAcceptance.ZerosAre | crates/prover/src/verify.rs:201-252 | the initial address bits and digests are 32 zero bits, eight words of four zeros and eight zeros |
| CoreAcceptance.CpuCountIs | crates/prover/src/verify.rs:118-130 | the execution counter is the number of shards with a CPU |
| CoreAcceptance.CheckCpuDegree | crates/prover/src/verify.rs:76-88 | stops at the first CPU shard that is too large, or panics at the first whose index is out of range |
| CoreAcceptance.CheckShardNumbers | crates/prover/src/verify.rs:97-108 | stops at the first shard whose number is not the field counter |
| CoreAcceptance.CheckExecutionShards | crates/prover/src/verify.rs:109-130 | stops at the first CPU shard whose number is not the count of CPU shards so far |
| CoreAcceptance.CheckProgramCounter | crates/prover/src/verify.rs:132-171 | stops at the first shard that breaks the hand-over of the program counter |
| CoreAcceptance.CheckExitCodes | crates/prover/src/verify.rs:173-184 | stops at the first nonzero exit code |
| CoreAcceptance.CheckMemoryAddresses | crates/prover/src/verify.rs:186-230 | stops at the first shard whose address bits do not continue, or move without their chip |
| CoreAcceptance.CheckDigests | crates/prover/src/verify.rs:232-283 | stops at the first shard that changes a digest it may not change |
| ChipAlignment.ValidateMachine | crates/stark/src/machine.rs:180-228 | for any order of the hash map, accepts exactly the bijections onto 0..n from known names that contain the preprocessed chips; never reports "not contiguous" |
| ChipAlignment.ValidateShard | crates/stark/src/verifier.rs:30-80 | the verifier's own check accepts exactly when there are n chips and the ordering is such a bijection |
| ChipAlignment.SecondCheckExactly | crates/stark/src/verifier.rs:107-111 | after the first validation the second fails only when two chips share a name that the ordering uses |
| ChipAlignment.ChipsMeetTheirOpenings | crates/stark/src/machine.rs:167-178 | filter and sort put the chip of place i at position i, and a name's place finds its chip |
| ChipAlignment.AlignShard | crates/stark/src/verifier.rs:180-200 | every opening is paired with the chip whose place it is |
| GoRoundTrip.RoundTrip | crates/go-runtime/zkvm_runtime/deserialize.go:48-206 | decoding an encoding, anywhere in the data, returns the value and the offset behind it if and only if every non-byte slice is within the limit, and reports a too long slice otherwise |
| GoRoundTrip.PrefixFree | crates/go-runtime/zkvm_runtime/serialize.go:23-109 | encodings of one type are injective and prefix-free, for all values |
| GoDecoding.DecodeNormalizes | crates/go-runtime/zkvm_runtime/deserialize.go:48-206 | what is decoded is typed; encoding it again writes as many bytes as were read, which decode to the same value |
| GoDecoding.ReadsOnlyWhatItConsumes | crates/go-runtime/zkvm_runtime/deserialize.go:37-206 | a successful decoding depends only on the bytes it consumes |
| GoFormat.EncodesFormat | crates/go-runtime/zkvm_runtime/serialize.go:23-109 | the encoder writes exactly the bytes of a format stated kind by kind: a bool is 1 or 0, a number its base-256 digits modulo its width, a slice or string eight length digits and then its items or text, a pointer 0 or 1 and its target, a struct its fields in order |
| GoReading.DecodesReads | crates/go-runtime/zkvm_runtime/deserialize.go:48-206 | the decoder returns a value and an offset exactly when the value stands there, kind by kind |
| GoReading.FailuresAre | crates/go-runtime/zkvm_runtime/deserialize.go:37-205 | which failure is reported at a value, and when |
| GoRuntime.SerializeData | crates/go-runtime/zkvm_runtime/serialize.go:11-13 | returns exactly the bytes of the format, and none if the value has none |
| GoRuntime.Serialize | crates/go-runtime/zkvm_runtime/serialize.go:23-109 | the recursion with loops computes the encoding, or fails where it has none |
| GoRuntime.Deserialize | crates/go-runtime/zkvm_runtime/deserialize.go:48-206 | the recursion with a carried offset computes the decoding, and ends for recursive types |
| GoRuntime.DeserializeData | crates/go-runtime/zkvm_runtime/deserialize.go:9-35 | returns exactly the value that stands in the whole input, with slices up to 1,000,000 items; on the encoding of a value it returns that value, or panics exactly when a slice is over the limit |
| GoValues.LittleEndianDigit | crates/go-runtime/zkvm_runtime/serialize.go:34-60 | byte i of a number or length is its digit i in base 256, lowest first |
| GoValues.NumRoundTrip | crates/go-runtime/zkvm_runtime/serialize.go:30-57 | little-endian two's complement of every width decodes to the number |
| MaximalShapes.PartialCmp | crates/stark/src/shape/mod.rs:140-192 | the scans over the chips decide the order, in both directions |
| MaximalShapes.BelowIsStrict | crates/stark/src/shape/mod.rs:140-192 | the order is irreflexive, asymmetric and transitive |
| MaximalShapes.RaisedIsGreater | crates/prover/scripts/find_maximal_shapes.rs:253-270 | raising a chip makes a shape greater, and insertion keeps the raised one |
| MaximalShapes.ExtraChipsDoNotCount | crates/stark/src/shape/mod.rs:140-192 | shapes that differ only in extra chips are incomparable |
| MaximalShapes.MaximalList.Insert | crates/prover/scripts/find_maximal_shapes.rs:253-270 | scan, removal from the back and push leave the list unchanged if the element is dominated, else without what it dominates and with it at the end; the list stays an antichain |
| MaximalShapes.ExactlyTheMaximal | crates/prover/scripts/find_maximal_shapes.rs:253-270 | after any insertions from the empty list it holds exactly the maximal elements of everything inserted, each once |
| MaximalShapes.OrderDoesNotMatter | crates/prover/scripts/find_maximal_shapes.rs:253-270 | which shapes are kept does not depend on the order of insertion |
| MaximalShapes.NoPendingRemovals | crates/prover/scripts/find_maximal_shapes.rs:253-270 | the early return discards no pending removal |
| Zerofier.TableIsZerofier | crates/stark/src/zerofier_coset.rs:22-42 | for every i, as far as the field has two-adic generators, `eval(i)` is (s w^i)^n - 1 and `eval_inverse(i)` its inverse when it is nonzero |
| Zerofier.LagrangeEntry | crates/stark/src/zerofier_coset.rs:58-71 | entry j times (s w^j - g_H^i) is Z_H(s w^j), and no denominator is zero off H |

## Left out

- FRI, polynomial commitments, the challenger, Poseidon2, quotient recomputation: opaque; challenges are parameters and the machine's own verdict is a parameter of `Verify`.
- The numbers in the `z_pow_p` and `z_pow_p2` tables, irreducibility of z^7 + 2z - 8, Fermat's little theorem, that the generator generates, additivity of the p-th power, associativity of the curve group, and that the curve's constants are points of it: hypotheses (`Granted`, `GroupLaw`).
- CompressTheorems.EveryRun: does not model capacity-zero channels, errors and panics of workers, or what a proof contains; channels, workers and inputs are otherwise arbitrary.
- LogUpTrace.GeneratePermutationTrace: does not model the parallel evaluation of rows and of the prefix sum, nor the assertion that preprocessed and main traces have the same height.
- `Det` constraints and `assume_deterministic` speak of pairs of assignments; `Holds` lets them restrict nothing.
- CoreAcceptance.Verify: does not model the casts from a flat list of public values; each shard carries its public values.
- GoRuntime.Deserialize: does not model decoding into a target that already holds pointers (aliasing), unexported fields, or the difference between nil and empty slices; values are trees, so cyclic pointers have no value here.
- The order in which a hash map hands out its keys is a parameter of the chip validators and an arbitrary choice in `PartialCmp`.
- EllipticCurve.DoubleOnCurve: requires 2y to be nonzero, because the code divides by it and panics otherwise; EllipticCurve.AddOnCurve does so for a point added to itself.
- Picus's builder and partial evaluator, the recursion circuits, the executor, the SDK, the CLI and the gnark bindings: not modelled.
- `eval_inverse_packed`, the construction of the opening points and the byte-lookup multiplicity bound of `verify_shard` are not modelled.
