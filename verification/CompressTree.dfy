/** The values that travel through the recursive compression pipeline: first-layer
    inputs, reduction trees and indexed items, with the height computation of
    `ZKMProver::compress`. */
module CompressTree {
  import opened Arithmetic

  /** A first-layer witness.  Every chunk holds one proof, because the first layer
      is batched by one. */
  datatype Input =
    | Core(shard: nat, isComplete: bool, isFirstShard: bool)
    | Deferred(proof: nat)

  /** A proof, identified by what it attests: one input, or a batch of proofs. */
  datatype Tree =
    | Leaf(input: Input)
    | Node(children: seq<Tree>, isComplete: bool)

  /** What the channels carry: position in the global order, layer, content. */
  datatype Item = Item(index: nat, height: nat, tree: Tree)

  function CoreInputs(shards: nat, isComplete: bool): seq<Input> {
    seq(shards, (i: nat) => Core(i, isComplete, i == 0))
  }

  function FirstLayerInputs(shards: nat, deferred: nat): seq<Input> {
    CoreInputs(shards, shards == 1 && deferred == 0) + seq(deferred, (i: nat) => Deferred(i))
  }

  /** The inputs of a proof, one by one: its shards in order and then its deferred proofs in
      order, the first shard marked first, and complete exactly when there is only one input. */
  predicate InOrder(leaves: seq<Input>, shards: nat, deferred: nat) {
    && |leaves| == shards + deferred
    && (forall i | 0 <= i < shards :: leaves[i] == Core(i, shards + deferred == 1, i == 0))
    && (forall j | 0 <= j < deferred :: leaves[shards + j] == Deferred(j))
  }

  lemma InputsInOrder(shards: nat, deferred: nat)
    requires shards >= 1
    ensures InOrder(FirstLayerInputs(shards, deferred), shards, deferred)
  {
  }

  /** Every input is there exactly once. */
  lemma OrderedOnce(leaves: seq<Input>, shards: nat, deferred: nat)
    requires InOrder(leaves, shards, deferred)
    ensures forall i, j | 0 <= i < j < |leaves| :: leaves[i] != leaves[j]
  {
    forall i, j | 0 <= i < j < |leaves| ensures leaves[i] != leaves[j] {
      if i >= shards { assert leaves[i] == leaves[shards + (i - shards)] == Deferred(i - shards); }
      if j >= shards { assert leaves[j] == leaves[shards + (j - shards)] == Deferred(j - shards); }
    }
  }

  predicate InputIsComplete(i: Input) {
    i.Core? && i.isComplete
  }

  /** The proof itself, not one below it, is marked complete. */
  predicate RootMarked(t: Tree) {
    match t
    case Leaf(input) => InputIsComplete(input)
    case Node(_, isComplete) => isComplete
  }

  /** The inputs below a tree, read left to right. */
  function Leaves(t: Tree): seq<Input>
    decreases t, 1
  {
    match t
    case Leaf(i) => [i]
    case Node(cs, _) => AllLeaves(cs)
  }

  function AllLeaves(ts: seq<Tree>): seq<Input>
    decreases ts, 0
  {
    if ts == [] then [] else Leaves(ts[0]) + AllLeaves(ts[1..])
  }

  /** How many witnesses inside the tree were marked `is_complete`. */
  function CompleteMarks(t: Tree): nat
    decreases t, 1
  {
    match t
    case Leaf(i) => if InputIsComplete(i) then 1 else 0
    case Node(cs, c) => (if c then 1 else 0) + AllCompleteMarks(cs)
  }

  function AllCompleteMarks(ts: seq<Tree>): nat
    decreases ts, 0
  {
    if ts == [] then 0 else CompleteMarks(ts[0]) + AllCompleteMarks(ts[1..])
  }

  /** Every path from the root to an input has length `h`, and every inner node
      joins one or two proofs. */
  predicate Uniform(t: Tree, h: nat)
    decreases t
  {
    match t
    case Leaf(_) => h == 0
    case Node(cs, _) => h > 0 && 1 <= |cs| <= 2 && forall c | c in cs :: Uniform(c, h - 1)
  }

  function Trees(items: seq<Item>): (ts: seq<Tree>)
    ensures |ts| == |items| && forall i | 0 <= i < |items| :: ts[i] == items[i].tree
  {
    seq(|items|, i requires 0 <= i < |items| => items[i].tree)
  }

  function ItemLeaves(items: seq<Item>): seq<Input> {
    AllLeaves(Trees(items))
  }

  lemma AllLeavesCons(t: Tree, ts: seq<Tree>)
    ensures AllLeaves([t] + ts) == Leaves(t) + AllLeaves(ts)
  {
    hide Leaves;
    assert ([t] + ts)[1..] == ts;
  }

  lemma NoneLeaves()
    ensures AllLeaves([]) == []
  {
  }

  lemma {:induction false} AllLeavesConcat(a: seq<Tree>, b: seq<Tree>)
    ensures AllLeaves(a + b) == AllLeaves(a) + AllLeaves(b)
    decreases |a|
  {
    hide AllLeaves, Leaves;
    if a == [] {
      assert a + b == b;
      NoneLeaves();
    } else {
      var t, ts := a[0], a[1..];
      AllLeavesConcat(ts, b);
      AllLeavesCons(t, ts);
      AllLeavesCons(t, ts + b);
      assert a == [t] + ts;
      assert a + b == [t] + (ts + b);
    }
  }

  lemma ItemLeavesConcat(a: seq<Item>, b: seq<Item>)
    ensures ItemLeaves(a + b) == ItemLeaves(a) + ItemLeaves(b)
  {
    AllLeavesConcat(Trees(a), Trees(b));
    assert Trees(a + b) == Trees(a) + Trees(b);
  }

  lemma ItemLeavesOne(x: Item)
    ensures ItemLeaves([x]) == Leaves(x.tree)
  {
    assert Trees([x]) == [x.tree];
    assert AllLeaves([x.tree]) == Leaves(x.tree) + AllLeaves([]);
  }

  /** Number of layers above a layer of `m` proofs. */
  function Levels(m: nat): nat {
    if m <= 1 then 0 else 1 + Levels((m + 1) / 2)
  }

  /** Number of proofs made when `m` proofs are reduced to one, the `m` included. */
  function Total(m: nat): nat {
    if m <= 1 then m else m + Total((m + 1) / 2)
  }

  /** `compress` computes the height before anything runs, with a halving loop that
      stops at the batch size. */
  method ExpectedHeight(n: nat) returns (height: nat)
    ensures n >= 1 ==> height == Levels(n)
    ensures n == 0 ==> height == 1
  {
    height := if n == 1 then 0 else 1;
    var layer := n;
    while layer > 2
      invariant n <= 1 ==> layer == n
      invariant n == 0 ==> height == 1
      invariant n == 1 ==> height == 0
      invariant n >= 2 ==> layer >= 2 && height - 1 + Levels(layer) == Levels(n) && height >= 1
    {
      layer := (layer + 1) / 2;
      height := height + 1;
    }
    assert n >= 2 ==> Levels(2) == 1 + Levels(1);
  }

  /** The height is the least `h` such that a binary tree of height `h` has room
      for `n` leaves. */
  lemma {:induction false} LevelsIsLeast(n: nat, h: nat)
    requires n >= 1
    ensures Pow2(h) >= n <==> h >= Levels(n)
    decreases h
  {
    if h > 0 && n > 1 {
      LevelsIsLeast((n + 1) / 2, h - 1);
    } else if h > 0 {
      LevelsIsLeast(n, h - 1);
    }
  }

  lemma {:induction false} TotalBound(n: nat)
    requires n >= 1
    ensures n <= Total(n) <= 2 * n + Levels(n)
  {
    if n > 1 {
      TotalBound((n + 1) / 2);
    }
  }
}
