/** What every run of the compression pipeline does: it never gets stuck, it makes a
    number of steps known in advance, and it leaves one proof, of all the inputs in
    order. */
module CompressTheorems {
  import opened CompressTree
  import opened CompressPipeline
  import opened CompressInvariant

  ghost function InitHistory(c: Config): History {
    History(seq(c.N(), i requires 0 <= i < c.N() => FirstItem(c, i)), 0, 0, 0, 0, 0, 0, c.N(), 0)
  }

  lemma {:induction false} FirstLeaves(c: Config, items: seq<Item>, k: nat)
    requires k + |items| <= c.N() && forall i | 0 <= i < |items| :: items[i] == FirstItem(c, k + i)
    ensures ItemLeaves(items) == c.Inputs()[k..k + |items|]
  {
    if items == [] {
      assert Trees(items) == [];
    } else {
      FirstLeaves(c, items[1..], k + 1);
      ItemLeavesConcat([items[0]], items[1..]);
      ItemLeavesOne(items[0]);
      assert items == [items[0]] + items[1..];
    }
  }

  lemma InitInv(c: Config)
    requires c.Valid()
    ensures Inv(c, Init(c), InitHistory(c)) && StepsDone(c, Init(c), InitHistory(c)) == 0
  {
    hide Levels, Total, FrontierParts, FirstItem;
    var s, h := Init(c), InitHistory(c);
    InitParts(c, h.made);
    assert Frontier(s.next, s.batch, h.made, 0) == h.made;
    assert h.made[..c.N()] == h.made && h.made[c.N()..] == [];
    NoneCounted(s.tracers.workers);
    NoneCounted(s.provers.workers);
    InitMade(c);
    LevelsZero(c.N());
  }

  lemma InitMade(c: Config)
    ensures MadeInv(c, InitHistory(c).made)
  {
  }

  lemma NoneCounted(ws: seq<Worker>)
    requires forall w | 0 <= w < |ws| :: ws[w] == Idle
    ensures multiset(ws)[Exited] == 0
  {
    assert Exited !in ws;
  }

  lemma LevelsZero(n: nat)
    ensures Levels(n) == 0 <==> n <= 1
  {
  }

  lemma FirstItemFacts(c: Config, i: nat)
    requires c.Valid() && i < c.N()
    ensures
      var x := FirstItem(c, i);
      && x.height == 0 && Uniform(x.tree, 0)
      && CompleteMarks(x.tree) == (if c.N() == 1 then 1 else 0)
      && (c.N() == 1 ==> RootMarked(x.tree))
  {
  }

  lemma InitParts(c: Config, made: seq<Item>)
    requires c.Valid() && |made| == c.N() && forall i | 0 <= i < c.N() :: made[i] == FirstItem(c, i)
    ensures FrontierParts(c, made, [], 0)
  {
    hide Uniform, CompleteMarks, FirstItem, FirstLayerInputs, Levels, ItemLeaves;
    FirstLeaves(c, made, 0);
    assert c.Inputs()[0..c.N()] == c.Inputs() by { InputCount(c); }
    NoLeaves();
    forall x | x in made
      ensures x.height == 0 && Uniform(x.tree, 0)
      ensures CompleteMarks(x.tree) == (if |made| == 1 then 1 else 0) && (|made| == 1 ==> RootMarked(x.tree))
    {
      var i :| 0 <= i < |made| && made[i] == x;
      FirstItemFacts(c, i);
    }
  }

  lemma InputCount(c: Config)
    ensures |c.Inputs()| == c.N()
  {
  }

  /** The next-layer worker is never cut off: provers outlive its last receive. */
  lemma NeverDisconnected(c: Config, s: State, h: History)
    requires c.Valid() && Inv(c, s, h)
    ensures !Enabled(c, s, NextDisconnect)
  {
    hide BatchInv, MadeInv, StageInv, SenderInv, Channel;
    if AllExited(s.provers) {
      assert Is(s.provers, 0, Exited);
      assert Is(s.tracers, 0, Exited);
    }
  }

  /** Every step keeps the invariant and adds one to the steps done. */
  lemma StepKeeps(c: Config, s: State, h: History, step: Step) returns (h': History)
    requires c.Valid() && Inv(c, s, h) && Enabled(c, s, step)
    ensures Inv(c, Apply(c, s, step), h')
    ensures StepsDone(c, Apply(c, s, step), h') == StepsDone(c, s, h) + 1
  {
    hide Inv, StepsDone, Apply, Enabled;
    match step {
      case FeedSend => h' := FeedSendKeeps(c, s, h);
      case FeedAdvance => h' := FeedAdvanceKeeps(c, s, h);
      case TraceRecv(w) => h' := TraceRecvKeeps(c, s, h, w);
      case TraceSend(w) => h' := TraceSendKeeps(c, s, h, w);
      case TraceAdvance(w) => h' := TraceAdvanceKeeps(c, s, h, w);
      case TraceExit(w) => TraceExitKeeps(c, s, h, w); h' := h;
      case ProveRecv(w) => h' := ProveRecvKeeps(c, s, h, w);
      case ProveSend(w) => h' := ProveSendKeeps(c, s, h, w);
      case ProveAdvance(w) => h' := ProveAdvanceKeeps(c, s, h, w);
      case ProveExit(w) => ProveExitKeeps(c, s, h, w); h' := h;
      case NextSkip => NextSkipKeeps(c, s, h); h' := h;
      case NextRecv => if s.batch == [] { h' := CollectKeeps(c, s, h); } else { h' := JoinKeeps(c, s, h); }
      case NextSend => h' := NextSendKeeps(c, s, h);
      case NextAdvance => h' := NextAdvanceKeeps(c, s, h);
      case NextDisconnect => NeverDisconnected(c, s, h); assert false;
    }
  }

  lemma {:induction false} RunInv(c: Config, states: seq<State>, steps: seq<Step>) returns (h: History)
    requires c.Valid() && Run(c, states, steps)
    ensures Inv(c, states[|steps|], h) && StepsDone(c, states[|steps|], h) == |steps|
    decreases |steps|
  {
    hide Inv, StepsDone, Apply, Enabled;
    if steps == [] {
      InitInv(c);
      h := InitHistory(c);
    } else {
      var k := |steps| - 1;
      var h0 := RunInv(c, states[..k + 1], steps[..k]);
      h := StepKeeps(c, states[k], h0, steps[k]);
    }
  }

  // ----- Progress -----

  /** A stage that holds items always has one worker that can move: the one that has
      yet to advance the turn, or the one holding the item whose turn it is. */
  lemma StageMoves(st: Stage, made: seq<Item>, put: nat, got: nat) returns (w: nat)
    requires StageInv(st, made, put, got) && (put < got || AnySent(st))
    ensures Is(st, w, Sent) || InTurn(st, w)
  {
    if AnySent(st) {
      w :| Is(st, w, Sent);
    } else {
      assert Held(st, put);
      w :| HeldBy(st, put, w);
    }
  }

  /** Without items and without a pending advance, every worker is idle or gone. */
  lemma StageRests(st: Stage, made: seq<Item>, put: nat, got: nat, w: nat)
    requires StageInv(st, made, put, got) && put >= got && !AnySent(st) && w < |st.workers|
    ensures Is(st, w, Idle) || Is(st, w, Exited)
  {
    assert !Is(st, w, Sent);
  }

  /** The items between the next-layer worker and the end of the history, together
      with the batch, never exceed the number of inputs; so the proofs channel, of
      twice that capacity, is never full. */
  lemma InFlightBound(c: Config, s: State, h: History)
    requires Inv(c, s, h)
    ensures |Kept(s.next, s.batch)| + |h.made| - h.proofGot <= c.N()
    ensures |s.proofs| <= c.N()
  {
    hide MadeInv, StageInv, SenderInv, ExitInv, FrontierInv, ToMake, Levels;
    FrontierSize(c, Frontier(s.next, s.batch, h.made, h.proofGot), h.oldest, h.layer);
  }

  /** Deadlock freedom: before the main thread can read its answer, some thread can
      take a step. */
  lemma Progress(c: Config, s: State, h: History) returns (step: Step)
    requires c.Valid() && Inv(c, s, h) && !Terminal(s)
    ensures Enabled(c, s, step)
  {
    hide BatchInv, MadeInv, StageInv, SenderInv, Levels;
    InFlightBound(c, s, h);
    if h.proofPut < h.traceGot || AnySent(s.provers) {
      var w := StageMoves(s.provers, h.made, h.proofPut, h.traceGot);
      step := if Is(s.provers, w, Sent) then ProveAdvance(w) else ProveSend(w);
    } else if s.traces != [] {
      StageRests(s.provers, h.made, h.proofPut, h.traceGot, 0);
      step := ProveRecv(0);
    } else if h.tracePut < h.inputGot || AnySent(s.tracers) {
      var w := StageMoves(s.tracers, h.made, h.tracePut, h.inputGot);
      step := if Is(s.tracers, w, Sent) then TraceAdvance(w) else TraceSend(w);
    } else if s.inputs != [] {
      StageRests(s.tracers, h.made, h.tracePut, h.inputGot, 0);
      step := TraceRecv(0);
    } else if InputClosed(c, s) {
      step := ClosingStep(c, s, h);
    } else {
      step := SenderStep(c, s, h);
    }
  }

  lemma StageOrder(st: Stage, made: seq<Item>, put: nat, got: nat)
    requires StageInv(st, made, put, got)
    ensures put <= got
  {
  }

  /** With the input channel closed and drained, some worker can leave. */
  lemma ClosingStep(c: Config, s: State, h: History) returns (step: Step)
    requires c.Valid() && Inv(c, s, h) && !Terminal(s) && InputClosed(c, s) && s.inputs == [] && s.traces == []
    requires h.proofPut >= h.traceGot && !AnySent(s.provers)
    requires h.tracePut >= h.inputGot && !AnySent(s.tracers)
    ensures Enabled(c, s, step)
  {
    hide BatchInv, MadeInv, StageInv, SenderInv, Levels;
    StageOrder(s.provers, h.made, h.proofPut, h.traceGot);
    StageOrder(s.tracers, h.made, h.tracePut, h.inputGot);
    if w :| 0 <= w < |s.tracers.workers| && !s.tracers.workers[w].Exited? {
      StageRests(s.tracers, h.made, h.tracePut, h.inputGot, w);
      step := TraceExit(w);
    } else {
      var w :| 0 <= w < |s.provers.workers| && !s.provers.workers[w].Exited?;
      StageRests(s.provers, h.made, h.proofPut, h.traceGot, w);
      step := ProveExit(w);
    }
  }

  /** With both inner channels drained and the input channel open, the first-layer
      sender or the next-layer worker can move. */
  lemma SenderStep(c: Config, s: State, h: History) returns (step: Step)
    requires c.Valid() && Inv(c, s, h) && !InputClosed(c, s) && s.inputs == [] && s.traces == []
    requires h.proofPut >= h.traceGot && h.tracePut >= h.inputGot
    ensures Enabled(c, s, step)
  {
    hide MadeInv, StageInv, ExitInv, FrontierInv, ToMake, Levels, Total;
    StageOrder(s.provers, h.made, h.proofPut, h.traceGot);
    StageOrder(s.tracers, h.made, h.tracePut, h.inputGot);
    if s.feedSent {
      step := FeedAdvance;
    } else if s.fed < c.N() {
      step := FeedSend;
    } else {
      match s.next {
        case Emit(_, _) => step := NextSend;
        case Emitted(_) => step := NextAdvance;
        case Collect => step := if c.Height() == 0 then NextSkip else NextRecv;
        case Done =>
      }
    }
  }

  // ----- Results -----

  /** A finished state holds one proof: of every input, in order, exactly once,
      uniformly at the precomputed height, and with one `is_complete` mark, at its root. */
  lemma Answer(c: Config, s: State, h: History)
    requires c.Valid() && Inv(c, s, h) && Terminal(s)
    ensures |s.proofs| == 1
    ensures InOrder(Leaves(s.proofs[0].tree), c.shards, c.deferred)
    ensures s.proofs[0].height == c.Height() && Uniform(s.proofs[0].tree, c.Height())
    ensures CompleteMarks(s.proofs[0].tree) == 1 && RootMarked(s.proofs[0].tree)
    ensures |h.made| == Total(c.N())
    ensures StepsDone(c, s, h) == 9 * Total(c.N()) - 1 + c.traceWorkers + c.provers + (if c.N() == 1 then 1 else 0)
  {
    assert Is(s.provers, 0, Exited);
    assert Is(s.tracers, 0, Exited);
    StageEnds(s.provers, h.made, h.proofPut, h.traceGot);
    StageEnds(s.tracers, h.made, h.tracePut, h.inputGot);
    RootFrontier(c, s, h);
    InputsInOrder(c.shards, c.deferred);
    LevelsZero(c.N());
    AllCounted(s.tracers.workers);
    AllCounted(s.provers.workers);
  }

  lemma {:induction false} AllCounted(ws: seq<Worker>)
    requires forall w | 0 <= w < |ws| :: ws[w].Exited?
    ensures multiset(ws)[Exited] == |ws|
  {
    if ws != [] {
      AllCounted(ws[1..]);
      assert ws == [ws[0]] + ws[1..];
    }
  }

  lemma StageEnds(st: Stage, made: seq<Item>, put: nat, got: nat)
    requires StageInv(st, made, put, got) && AllExited(st)
    ensures put == got && st.turn == put
  {
    assert !AnySent(st) && !Held(st, put);
  }

  lemma RootParts(c: Config, root: Item, layer: nat)
    requires FrontierParts(c, [root], [], layer)
    ensures root.height == layer == c.Height() && Uniform(root.tree, layer)
    ensures Leaves(root.tree) == c.Inputs() && CompleteMarks(root.tree) == 1 && RootMarked(root.tree)
  {
    hide Uniform, CompleteMarks, FirstLayerInputs, Levels, ItemLeaves;
    ItemLeavesOne(root);
    NoLeaves();
    assert root in [root];
    LevelsZero(1);
  }

  lemma ToMakeZero()
    ensures ToMake(1, 1) == 0
  {
  }

  lemma RootFrontier(c: Config, s: State, h: History)
    requires Inv(c, s, h) && s.next.Done?
    ensures h.proofGot == |h.made| - 1 && |h.made| == Total(c.N())
    ensures
      var root := h.made[h.proofGot];
      && root.height == c.Height() && Uniform(root.tree, c.Height())
      && Leaves(root.tree) == c.Inputs() && CompleteMarks(root.tree) == 1 && RootMarked(root.tree)
  {
    hide MadeInv, StageInv, SenderInv, ExitInv, BatchInv, Uniform, CompleteMarks, Leaves, Levels, Total,
         FirstLayerInputs, Channel, RootMarked;
    OneLeft(c, s.batch, h.made, h.proofGot, h.oldest, h.layer);
    RootParts(c, h.made[h.proofGot], h.layer);
  }

  /** When the next-layer worker is done, the frontier is the last item made. */
  lemma OneLeft(c: Config, batch: seq<Item>, made: seq<Item>, consumed: nat, oldest: nat, layer: nat)
    requires BatchInv(c, Done, batch, made, consumed, oldest, layer)
    ensures consumed == |made| - 1 && |made| == Total(c.N())
    ensures FrontierParts(c, [made[consumed]], [], layer)
  {
    hide FrontierParts, ToMake, Total, Levels;
    var f := Frontier(Done, batch, made, consumed);
    assert f == made[consumed..] == [made[consumed]];
    FrontierSize(c, f, oldest, layer);
    assert f[..1] == [made[consumed]] && f[1..] == [];
    ToMakeZero();
  }

  /** Every run, whatever the interleaving, can be extended until the answer is there,
      and when it is there it is the one proof of all inputs, after a number of
      steps that depends only on the configuration. */
  lemma EveryRun(c: Config, states: seq<State>, steps: seq<Step>)
    requires c.Valid() && Run(c, states, steps)
    ensures !Terminal(states[|steps|]) ==> exists step :: Enabled(c, states[|steps|], step)
    ensures Terminal(states[|steps|]) ==>
      && |steps| == 9 * Total(c.N()) - 1 + c.traceWorkers + c.provers + (if c.N() == 1 then 1 else 0)
      && |states[|steps|].proofs| == 1
      && var root := states[|steps|].proofs[0];
         && InOrder(Leaves(root.tree), c.shards, c.deferred)
         && (forall i, j | 0 <= i < j < |Leaves(root.tree)| :: Leaves(root.tree)[i] != Leaves(root.tree)[j])
         && root.height == c.Height() && Uniform(root.tree, c.Height())
         && CompleteMarks(root.tree) == 1 && RootMarked(root.tree)
  {
    hide Inv, StepsDone, Apply, Enabled;
    var h := RunInv(c, states, steps);
    if Terminal(states[|steps|]) {
      Answer(c, states[|steps|], h);
      OrderedOnce(Leaves(states[|steps|].proofs[0].tree), c.shards, c.deferred);
    } else {
      var step := Progress(c, states[|steps|], h);
    }
  }

  /** No run is longer than a bound known in advance, so with `EveryRun` every
      interleaving reaches the answer. */
  lemma RunBound(c: Config, states: seq<State>, steps: seq<Step>)
    requires c.Valid() && Run(c, states, steps)
    ensures |steps| <= 9 * Total(c.N()) + c.traceWorkers + c.provers + 1
  {
    hide Apply, Enabled, MadeInv, FrontierInv, Total, Levels, ToMake;
    var h := RunInv(c, states, steps);
    var s := states[|steps|];
    var f := Frontier(s.next, s.batch, h.made, h.proofGot);
    FrontierSize(c, f, h.oldest, h.layer);
    ToMakePositive(|f|, h.oldest);
    CountBound(s.tracers.workers);
    CountBound(s.provers.workers);
  }

  lemma ToMakePositive(size: nat, oldest: nat)
    requires 1 <= oldest <= size
    ensures ToMake(size, oldest) >= 0
  {
    TotalBound(oldest);
    TotalBound(size - oldest + (oldest + 1) / 2);
  }

  lemma {:induction false} CountBound(ws: seq<Worker>)
    ensures multiset(ws)[Exited] <= |ws|
  {
    if ws != [] {
      CountBound(ws[1..]);
      assert ws == [ws[0]] + ws[1..];
    }
  }

  /** The proofs channel is never full and never holds more than one proof for each
      input, in any run. */
  lemma ProofChannelNeverBlocks(c: Config, states: seq<State>, steps: seq<Step>)
    requires c.Valid() && Run(c, states, steps)
    ensures |states[|steps|].proofs| <= c.N() < 2 * c.N() == c.ProofCapacity()
  {
    var h := RunInv(c, states, steps);
    InFlightBound(c, states[|steps|], h);
  }
}
