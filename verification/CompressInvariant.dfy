/** Every step of the compression pipeline keeps the invariant. */
module CompressInvariant {
  import opened CompressTree
  import opened CompressPipeline

  // ----- Stages -----

  lemma StageRecv(st: Stage, made: seq<Item>, put: nat, got: nat, w: nat)
    requires StageInv(st, made, put, got) && got < |made| && made[got].index == got
    requires Is(st, w, Idle)
    ensures StageInv(Put(st, w, Holding(made[got])), made, put, got + 1)
  {
    var st' := Put(st, w, Holding(made[got]));
    forall i | put <= i < got + 1 ensures Held(st', i) {
      if i == got {
        assert HeldBy(st', i, w);
      } else {
        assert Held(st, i);
        var v :| HeldBy(st, i, v);
        assert HeldBy(st', i, v);
      }
    }
    assert AnySent(st) == AnySent(st') by {
      if AnySent(st) { var v :| Is(st, v, Sent); assert Is(st', v, Sent); }
      if AnySent(st') { var v :| Is(st', v, Sent); assert Is(st, v, Sent); }
    }
  }

  lemma StageSend(st: Stage, made: seq<Item>, put: nat, got: nat, w: nat)
    requires StageInv(st, made, put, got) && InTurn(st, w)
    ensures put < got && st.workers[w].item == made[put]
    ensures StageInv(Put(st, w, Sent), made, put + 1, got)
  {
    assert !AnySent(st) && st.turn == put;
    var st' := Put(st, w, Sent);
    forall i | put + 1 <= i < got ensures Held(st', i) {
      assert Held(st, i);
      var v :| HeldBy(st, i, v);
      assert HeldBy(st', i, v);
    }
    assert Is(st', w, Sent);
    forall v, v' | 0 <= v < |st'.workers| && 0 <= v' < |st'.workers|
        && st'.workers[v].Sent? && st'.workers[v'].Sent?
      ensures v == v'
    {
      assert !Is(st, v, Sent) && !Is(st, v', Sent);
    }
  }

  lemma StageAdvance(st: Stage, made: seq<Item>, put: nat, got: nat, w: nat)
    requires StageInv(st, made, put, got) && Is(st, w, Sent)
    ensures StageInv(Put(st, w, Idle).(turn := st.turn + 1), made, put, got)
  {
    var st' := Put(st, w, Idle).(turn := st.turn + 1);
    assert AnySent(st);
    assert forall v :: Is(st', v, Sent) ==> Is(st, v, Sent) && v != w;
    StageKeeps(st, st', made, put, got, w);
  }

  lemma StageKeeps(st: Stage, st': Stage, made: seq<Item>, put: nat, got: nat, w: nat)
    requires StageInv(st, made, put, got) && w < |st.workers| && !st.workers[w].Holding?
    requires |st'.workers| == |st.workers| && !st'.workers[w].Holding?
    requires forall v | 0 <= v < |st.workers| && v != w :: st'.workers[v] == st.workers[v]
    ensures forall i | put <= i < got :: Held(st', i)
  {
    forall i | put <= i < got ensures Held(st', i) {
      assert Held(st, i);
      var v :| HeldBy(st, i, v);
      assert HeldBy(st', i, v);
    }
  }

  lemma StageExit(st: Stage, made: seq<Item>, put: nat, got: nat, w: nat)
    requires StageInv(st, made, put, got) && Is(st, w, Idle)
    ensures StageInv(Put(st, w, Exited), made, put, got)
  {
    var st' := Put(st, w, Exited);
    StageKeeps(st, st', made, put, got, w);
    assert AnySent(st) == AnySent(st') by {
      if AnySent(st) { var v :| Is(st, v, Sent); assert Is(st', v, Sent); }
      if AnySent(st') { var v :| Is(st', v, Sent); assert Is(st, v, Sent); }
    }
  }

  /** A stage's items depend only on the part of the history it has received. */
  lemma StageExtend(st: Stage, made: seq<Item>, more: seq<Item>, put: nat, got: nat)
    requires StageInv(st, made, put, got)
    ensures StageInv(st, made + more, put, got)
  {
  }

  // ----- The frontier -----

  /** The node made from two proofs of one layer. */
  lemma PairNode(c: Config, x: Item, y: Item, layer: nat, count: nat)
    requires Layer([x], layer) && Layer([y], layer)
    ensures !IsLast([x, y])
    ensures
      var node := Join(c, [x, y], count);
      && Layer([node], layer + 1)
      && Leaves(node.tree) == Leaves(x.tree) + Leaves(y.tree)
      && (node.tree.isComplete <==> layer + 1 == c.Height())
      && CompleteMarks(node.tree) ==
           (if node.tree.isComplete then 1 else 0) + CompleteMarks(x.tree) + CompleteMarks(y.tree)
  {
    assert x in [x] && y in [y];
    var t := Join(c, [x, y], count).tree;
    assert Trees([x, y]) == [x.tree, y.tree];
    assert t.children == [x.tree, y.tree] && t.children[1..] == [y.tree];
    assert AllCompleteMarks([y.tree]) == CompleteMarks(y.tree) + AllCompleteMarks([]);
    assert AllLeaves([y.tree]) == Leaves(y.tree) + AllLeaves([]);
  }

  /** The node made from the last proof of an odd layer. */
  lemma LoneNode(c: Config, x: Item, y: Item, layer: nat, count: nat)
    requires Layer([x], layer) && Layer([y], layer + 1)
    ensures IsLast([x, y])
    ensures
      var node := Join(c, [x, y], count);
      && Layer([node], layer + 1)
      && Leaves(node.tree) == Leaves(x.tree)
      && (node.tree.isComplete <==> layer + 1 == c.Height())
      && CompleteMarks(node.tree) == (if node.tree.isComplete then 1 else 0) + CompleteMarks(x.tree)
  {
    assert x in [x] && y in [y];
    var t := Join(c, [x, y], count).tree;
    assert [x, y][..1] == [x] && Trees([x]) == [x.tree];
    assert t.children == [x.tree] && t.children[1..] == [];
    assert AllCompleteMarks([x.tree]) == CompleteMarks(x.tree) + AllCompleteMarks([]);
    assert AllLeaves([x.tree]) == Leaves(x.tree) + AllLeaves([]);
  }

  lemma LayerConcat(a: seq<Item>, b: seq<Item>, h: nat)
    ensures Layer(a + b, h) <==> Layer(a, h) && Layer(b, h)
  {
    assert forall x :: x in a + b <==> x in a || x in b;
  }

  lemma MarkedConcat(a: seq<Item>, b: seq<Item>, m: bool)
    ensures Marked(a + b, m) <==> Marked(a, m) && Marked(b, m)
  {
    assert forall x :: x in a + b <==> x in a || x in b;
  }

  lemma LeavesOfJoin(x: seq<Item>, a: seq<Item>, b: seq<Item>, node: Item)
    requires Leaves(node.tree) == ItemLeaves(x)
    ensures ItemLeaves(b + [node]) + ItemLeaves(a) == ItemLeaves(b) + ItemLeaves(x + a)
  {
    ItemLeavesConcat(b, [node]);
    ItemLeavesOne(node);
    ItemLeavesConcat(x, a);
  }

  lemma PairLeaves(x: Item, y: Item)
    ensures ItemLeaves([x, y]) == Leaves(x.tree) + Leaves(y.tree)
  {
    ItemLeavesConcat([x], [y]);
    ItemLeavesOne(x);
    ItemLeavesOne(y);
    assert [x] + [y] == [x, y];
  }

  /** What the node made from the two oldest proofs of a layer adds to the frontier. */
  lemma PairFacts(c: Config, x: Item, y: Item, a: seq<Item>, b: seq<Item>, layer: nat, count: nat)
    requires FrontierParts(c, [x, y] + a, b, layer)
    ensures !IsLast([x, y])
    ensures
      var node := Join(c, [x, y], count);
      && (node.tree.isComplete <==> a == [] && b == [])
      && Layer(a, layer) && Layer([node], layer + 1)
      && Leaves(node.tree) == ItemLeaves([x, y])
      && Marked(a, false) && Marked([node], a == [] && b == [])
  {
    LayerConcat([x, y], a, layer);
    LayerConcat([x], [y], layer);
    assert [x] + [y] == [x, y];
    PairNode(c, x, y, layer, count);
    PairLeaves(x, y);
    MarkedConcat([x, y], a, false);
    assert x in [x, y] && y in [x, y];
    assert Levels(|a| + 2) == 1 + Levels((|a| + 3) / 2);
    assert a != [] || b != [] ==> layer + 1 < c.Height();
  }

  lemma PairLevels(c: Config, a: nat, b: nat, layer: nat)
    requires LevelsAgree(c, a + 2, b, layer)
    ensures if a == 0 then LevelsAgree(c, b + 1, 0, layer + 1) else LevelsAgree(c, a, b + 1, layer)
  {
    assert Levels(a + 2) == 1 + Levels((a + 3) / 2);
    assert (a + 3) / 2 == (a + 1) / 2 + 1;
  }

  lemma NoLeaves()
    ensures ItemLeaves([]) == []
  {
    assert Trees([]) == [];
  }

  /** Joining the two oldest proofs of a layer. */
  lemma PairJoin(c: Config, x: Item, y: Item, a: seq<Item>, b: seq<Item>, layer: nat, count: nat)
    requires FrontierParts(c, [x, y] + a, b, layer)
    ensures !IsLast([x, y])
    ensures
      var node := Join(c, [x, y], count);
      && (node.tree.isComplete <==> a == [] && b == [])
      && if a == [] then FrontierParts(c, b + [node], [], layer + 1) else FrontierParts(c, a, b + [node], layer)
  {
    var node := Join(c, [x, y], count);
    hide Levels, ItemLeaves, Join, Leaves, CompleteMarks, Uniform, FirstLayerInputs;
    PairFacts(c, x, y, a, b, layer, count);
    PairLevels(c, |a|, |b|, layer);
    LeavesOfJoin([x, y], a, b, node);
    LayerConcat(b, [node], layer + 1);
    MarkedConcat(b, [node], false);
    if a == [] {
      NoLeaves();
      if b == [] {
        assert b + [node] == [node];
      }
    }
  }

  /** Lifting the last proof of an odd layer alone. */
  lemma LoneJoin(c: Config, x: Item, y: Item, b: seq<Item>, layer: nat, count: nat)
    requires FrontierParts(c, [x], [y] + b, layer)
    ensures IsLast([x, y])
    ensures
      var node := Join(c, [x, y], count);
      !node.tree.isComplete && FrontierParts(c, [y] + b + [node], [], layer + 1)
  {
    var node := Join(c, [x, y], count);
    LayerConcat([y], b, layer + 1);
    LoneNode(c, x, y, layer, count);
    ItemLeavesOne(x);
    LeavesOfJoin([x], [], [y] + b, node);
    assert [x] + [] == [x] && ItemLeaves([]) == [];
    LayerConcat([y] + b, [node], layer + 1);
    assert x in [x];
    MarkedConcat([y] + b, [node], false);
  }

  // ----- Steps -----

  lemma ChannelPut(queue: seq<Item>, made: seq<Item>, got: nat, put: nat)
    requires Channel(queue, made, got, put) && put < |made|
    ensures Channel(queue + [made[put]], made, got, put + 1)
  {
  }

  lemma ChannelGet(queue: seq<Item>, made: seq<Item>, got: nat, put: nat)
    requires Channel(queue, made, got, put) && queue != []
    ensures got < put && queue[0] == made[got] && Channel(queue[1..], made, got + 1, put)
  {
  }

  lemma ExitKeeps(c: Config, s: State, s': State)
    requires ExitInv(c, s.tracers, s.inputs, InputClosed(c, s), s.provers, s.traces)
    requires |s'.tracers.workers| == |s.tracers.workers| && |s'.provers.workers| == |s.provers.workers|
    requires SomeExited(s.tracers) ==> s'.inputs == []
    requires InputClosed(c, s) ==> InputClosed(c, s')
    requires forall w :: Is(s'.tracers, w, Exited) ==> Is(s.tracers, w, Exited)
    requires forall w :: Is(s'.provers, w, Exited) ==> Is(s.provers, w, Exited)
    requires SomeExited(s.provers) ==> s'.traces == [] && s'.tracers == s.tracers
    ensures ExitInv(c, s'.tracers, s'.inputs, InputClosed(c, s'), s'.provers, s'.traces)
  {
    if SomeExited(s'.tracers) {
      var w :| Is(s'.tracers, w, Exited);
      assert Is(s.tracers, w, Exited);
    }
    if SomeExited(s'.provers) {
      var w :| Is(s'.provers, w, Exited);
      assert Is(s.provers, w, Exited);
    }
  }

  /** Steps done so far, read off the state: every step adds one. */
  ghost function StepsDone(c: Config, s: State, h: History): nat {
    h.inputPut + h.inputGot + h.tracePut + h.traceGot + h.proofPut + h.proofGot
    + s.inputTurn + s.tracers.turn + s.provers.turn
    + multiset(s.tracers.workers)[Exited] + multiset(s.provers.workers)[Exited]
    + (if c.Height() == 0 && s.next.Done? then 1 else 0)
  }

  lemma MadeAt(c: Config, made: seq<Item>, i: nat)
    requires MadeInv(c, made) && i < |made|
    ensures made[i].index == i
    ensures i < c.N() ==> made[i] == FirstItem(c, i)
  {
  }

  lemma FeedSendKeeps(c: Config, s: State, h: History) returns (h': History)
    requires Inv(c, s, h) && Enabled(c, s, FeedSend)
    ensures Inv(c, Apply(c, s, FeedSend), h')
    ensures StepsDone(c, Apply(c, s, FeedSend), h') == StepsDone(c, s, h) + 1
  {
    hide BatchInv, MadeInv, StageInv, Levels;
    h' := h.(inputPut := h.inputPut + 1);
    ChannelPut(s.inputs, h.made, h.inputGot, h.inputPut);
    MadeAt(c, h.made, h.inputPut);
    ExitKeeps(c, s, Apply(c, s, FeedSend));
  }

  lemma FeedAdvanceKeeps(c: Config, s: State, h: History) returns (h': History)
    requires Inv(c, s, h) && Enabled(c, s, FeedAdvance)
    ensures Inv(c, Apply(c, s, FeedAdvance), h')
    ensures StepsDone(c, Apply(c, s, FeedAdvance), h') == StepsDone(c, s, h) + 1
  {
    hide BatchInv, MadeInv, StageInv, Levels;
    h' := h;
    ExitKeeps(c, s, Apply(c, s, FeedAdvance));
  }

  lemma TraceRecvKeeps(c: Config, s: State, h: History, w: nat) returns (h': History)
    requires Inv(c, s, h) && Enabled(c, s, TraceRecv(w))
    ensures Inv(c, Apply(c, s, TraceRecv(w)), h')
    ensures StepsDone(c, Apply(c, s, TraceRecv(w)), h') == StepsDone(c, s, h) + 1
  {
    hide BatchInv, MadeInv, StageInv, SenderInv, Levels;
    h' := h.(inputGot := h.inputGot + 1);
    ChannelGet(s.inputs, h.made, h.inputGot, h.inputPut);
    MadeAt(c, h.made, h.inputGot);
    StageRecv(s.tracers, h.made, h.tracePut, h.inputGot, w);
    ExitKeeps(c, s, Apply(c, s, TraceRecv(w)));
  }

  lemma TraceSendKeeps(c: Config, s: State, h: History, w: nat) returns (h': History)
    requires Inv(c, s, h) && Enabled(c, s, TraceSend(w))
    ensures Inv(c, Apply(c, s, TraceSend(w)), h')
    ensures StepsDone(c, Apply(c, s, TraceSend(w)), h') == StepsDone(c, s, h) + 1
  {
    hide BatchInv, MadeInv, StageInv, SenderInv, Levels;
    h' := h.(tracePut := h.tracePut + 1);
    StageSend(s.tracers, h.made, h.tracePut, h.inputGot, w);
    ChannelPut(s.traces, h.made, h.traceGot, h.tracePut);
    ExitKeeps(c, s, Apply(c, s, TraceSend(w)));
  }

  lemma TraceAdvanceKeeps(c: Config, s: State, h: History, w: nat) returns (h': History)
    requires Inv(c, s, h) && Enabled(c, s, TraceAdvance(w))
    ensures Inv(c, Apply(c, s, TraceAdvance(w)), h')
    ensures StepsDone(c, Apply(c, s, TraceAdvance(w)), h') == StepsDone(c, s, h) + 1
  {
    hide BatchInv, MadeInv, StageInv, SenderInv, Levels;
    h' := h;
    StageAdvance(s.tracers, h.made, h.tracePut, h.inputGot, w);
    ExitKeeps(c, s, Apply(c, s, TraceAdvance(w)));
  }

  lemma ProveRecvKeeps(c: Config, s: State, h: History, w: nat) returns (h': History)
    requires Inv(c, s, h) && Enabled(c, s, ProveRecv(w))
    ensures Inv(c, Apply(c, s, ProveRecv(w)), h')
    ensures StepsDone(c, Apply(c, s, ProveRecv(w)), h') == StepsDone(c, s, h) + 1
  {
    hide BatchInv, MadeInv, StageInv, SenderInv, Levels;
    h' := h.(traceGot := h.traceGot + 1);
    ChannelGet(s.traces, h.made, h.traceGot, h.tracePut);
    MadeAt(c, h.made, h.traceGot);
    StageRecv(s.provers, h.made, h.proofPut, h.traceGot, w);
    ExitKeeps(c, s, Apply(c, s, ProveRecv(w)));
  }

  lemma ProveSendKeeps(c: Config, s: State, h: History, w: nat) returns (h': History)
    requires Inv(c, s, h) && Enabled(c, s, ProveSend(w))
    ensures Inv(c, Apply(c, s, ProveSend(w)), h')
    ensures StepsDone(c, Apply(c, s, ProveSend(w)), h') == StepsDone(c, s, h) + 1
  {
    hide BatchInv, MadeInv, StageInv, SenderInv, Levels;
    h' := h.(proofPut := h.proofPut + 1);
    StageSend(s.provers, h.made, h.proofPut, h.traceGot, w);
    ChannelPut(s.proofs, h.made, h.proofGot, h.proofPut);
    ExitKeeps(c, s, Apply(c, s, ProveSend(w)));
  }

  lemma ProveAdvanceKeeps(c: Config, s: State, h: History, w: nat) returns (h': History)
    requires Inv(c, s, h) && Enabled(c, s, ProveAdvance(w))
    ensures Inv(c, Apply(c, s, ProveAdvance(w)), h')
    ensures StepsDone(c, Apply(c, s, ProveAdvance(w)), h') == StepsDone(c, s, h) + 1
  {
    hide BatchInv, MadeInv, StageInv, SenderInv, Levels;
    h' := h;
    StageAdvance(s.provers, h.made, h.proofPut, h.traceGot, w);
    ExitKeeps(c, s, Apply(c, s, ProveAdvance(w)));
  }

  lemma TraceExitKeeps(c: Config, s: State, h: History, w: nat)
    requires c.Valid() && Inv(c, s, h) && Enabled(c, s, TraceExit(w))
    ensures Inv(c, Apply(c, s, TraceExit(w)), h)
    ensures StepsDone(c, Apply(c, s, TraceExit(w)), h) == StepsDone(c, s, h) + 1
  {
    hide BatchInv, MadeInv, StageInv, SenderInv, Channel, Levels;
    StageExit(s.tracers, h.made, h.tracePut, h.inputGot, w);
  }

  lemma ProveExitKeeps(c: Config, s: State, h: History, w: nat)
    requires c.Valid() && Inv(c, s, h) && Enabled(c, s, ProveExit(w))
    ensures Inv(c, Apply(c, s, ProveExit(w)), h)
    ensures StepsDone(c, Apply(c, s, ProveExit(w)), h) == StepsDone(c, s, h) + 1
  {
    hide BatchInv, MadeInv, StageInv, SenderInv, Channel, Levels;
    StageExit(s.provers, h.made, h.proofPut, h.traceGot, w);
  }

  /** Receiving the first proof of a batch. */
  lemma CollectKeeps(c: Config, s: State, h: History) returns (h': History)
    requires Inv(c, s, h) && Enabled(c, s, NextRecv) && s.batch == []
    ensures Inv(c, Apply(c, s, NextRecv), h')
    ensures StepsDone(c, Apply(c, s, NextRecv), h') == StepsDone(c, s, h) + 1
  {
    hide FrontierInv, ToMake, MadeInv, Total, Levels, StageInv, SenderInv, Channel, Frontier;
    h' := h.(proofGot := h.proofGot + 1);
    ChannelHead(s.proofs, h.made, h.proofGot, h.proofPut);
    ChannelGet(s.proofs, h.made, h.proofGot, h.proofPut);
    CollectFrontier(s, h);
    ExitKeeps(c, s, Apply(c, s, NextRecv));
  }

  lemma ChannelHead(queue: seq<Item>, made: seq<Item>, got: nat, put: nat)
    requires Channel(queue, made, got, put) && queue != []
    ensures got < put <= |made| && queue[0] == made[got]
  {
  }

  /** Moving a proof from the channel into the empty batch leaves the frontier alone. */
  lemma CollectFrontier(s: State, h: History)
    requires s.next.Collect? && s.batch == [] && s.proofs != []
    requires h.proofGot < |h.made| && s.proofs[0] == h.made[h.proofGot]
    ensures Frontier(s.next, s.batch + [s.proofs[0]], h.made, h.proofGot + 1)
         == Frontier(s.next, s.batch, h.made, h.proofGot)
  {
  }

  /** Joining keeps the count of items still to be made. */
  lemma ToMakeJoin(size: nat, oldest: nat)
    requires 1 <= oldest <= size && size >= 2
    ensures oldest > 2 ==> ToMake(size - 1, oldest - 2) == ToMake(size, oldest) - 1
    ensures oldest == 2 ==> ToMake(size - 1, size - 1) == ToMake(size, oldest) - 1
    ensures oldest == 1 ==> ToMake(size, size) == ToMake(size, oldest) - 1
  {
    assert (oldest + 1) / 2 == (oldest - 1) / 2 + 1;
    assert Total(oldest) == if oldest <= 1 then oldest else oldest + Total((oldest + 1) / 2);
  }

  /** The frontier after the batch `[x, y]` has been joined: the pair, or the last
      proof of its layer alone. */
  lemma JoinFrontier(c: Config, x: Item, y: Item, rest: seq<Item>, oldest: nat, layer: nat, count: nat)
    returns (oldest': nat, layer': nat)
    requires FrontierInv(c, [x, y] + rest, oldest, layer)
    ensures
      var item := Join(c, [x, y], count);
      var f' := (if IsLast([x, y]) then [y] else []) + rest + [item];
      && FrontierInv(c, f', oldest', layer')
      && ToMake(|f'|, oldest') == ToMake(|rest| + 2, oldest) - 1
      && (item.tree.isComplete <==> |f'| == 1)
  {
    hide FrontierParts, ToMake, Join, IsLast;
    var f := [x, y] + rest;
    var item := Join(c, [x, y], count);
    FrontierSize(c, f, oldest, layer);
    ToMakeJoin(|f|, oldest);
    if oldest >= 2 {
      var a, b := f[2..oldest], f[oldest..];
      assert f[..oldest] == [x, y] + a;
      PairJoin(c, x, y, a, b, layer, count);
      var f' := [] + rest + [item];
      assert f' == a + (b + [item]);
      if a == [] {
        oldest', layer' := |f'|, layer + 1;
        assert f'[..|f'|] == b + [item] && f'[|f'|..] == [];
      } else {
        oldest', layer' := oldest - 2, layer;
        assert f'[..|a|] == a && f'[|a|..] == b + [item];
      }
    } else {
      assert f[..1] == [x] && f[1..] == [y] + rest;
      LoneJoin(c, x, y, rest, layer, count);
      var f' := [y] + rest + [item];
      oldest', layer' := |f'|, layer + 1;
      assert f'[..|f'|] == f' && f'[|f'|..] == [];
    }
  }

  lemma FrontierSize(c: Config, f: seq<Item>, oldest: nat, layer: nat)
    requires FrontierInv(c, f, oldest, layer)
    ensures 1 <= oldest <= |f| <= c.N()
  {
  }

  lemma JoinBatch(c: Config, batch: seq<Item>, made: seq<Item>, got: nat, oldest: nat, layer: nat, count: nat)
    returns (oldest': nat, layer': nat)
    requires BatchInv(c, Collect, batch, made, got, oldest, layer) && batch != [] && got < |made|
    ensures
      var batch' := batch + [made[got]];
      var item := Join(c, batch', count);
      BatchInv(c, Emit(item, item.tree.isComplete), batch', made + [item], got + 1, oldest', layer')
  {
    hide FrontierInv, Levels, ToMake, Total, Join;
    var x, y, rest := batch[0], made[got], made[got + 1..];
    var batch' := batch + [y];
    assert batch' == [x, y];
    assert Frontier(Collect, batch, made, got) == [x, y] + rest;
    oldest', layer' := JoinFrontier(c, x, y, rest, oldest, layer, count);
    var item := Join(c, [x, y], count);
    var next := Emit(item, item.tree.isComplete);
    assert (made + [item])[got + 1..] == rest + [item];
    assert Frontier(next, [x, y], made + [item], got + 1)
        == (if item.tree.isComplete then [] else if IsLast([x, y]) then [y] else []) + rest + [item];
  }

  /** Receiving the second proof of a batch. */
  lemma JoinKeeps(c: Config, s: State, h: History) returns (h': History)
    requires Inv(c, s, h) && Enabled(c, s, NextRecv) && s.batch != []
    ensures Inv(c, Apply(c, s, NextRecv), h')
    ensures StepsDone(c, Apply(c, s, NextRecv), h') == StepsDone(c, s, h) + 1
  {
    hide BatchInv, MadeInv, StageInv, Levels, Join;
    ChannelGet(s.proofs, h.made, h.proofGot, h.proofPut);
    var oldest, layer := JoinBatch(c, s.batch, h.made, h.proofGot, h.oldest, h.layer, s.count);
    var item := Join(c, s.batch + [s.proofs[0]], s.count);
    h' := h.(made := h.made + [item], proofGot := h.proofGot + 1, oldest := oldest, layer := layer);
    StageExtend(s.tracers, h.made, [item], h.tracePut, h.inputGot);
    StageExtend(s.provers, h.made, [item], h.proofPut, h.traceGot);
    MadeExtend(c, h.made, item);
    ChannelExtend(s.inputs, h.made, h.inputGot, h.inputPut, item);
    ChannelExtend(s.traces, h.made, h.traceGot, h.tracePut, item);
    ChannelExtend(s.proofs[1..], h.made, h.proofGot + 1, h.proofPut, item);
    ExitKeeps(c, s, Apply(c, s, NextRecv));
  }

  lemma ChannelExtend(queue: seq<Item>, made: seq<Item>, got: nat, put: nat, item: Item)
    requires Channel(queue, made, got, put)
    ensures Channel(queue, made + [item], got, put)
  {
  }

  lemma MadeExtend(c: Config, made: seq<Item>, item: Item)
    requires MadeInv(c, made) && item.index == |made|
    ensures MadeInv(c, made + [item])
  {
  }

  lemma NextSendKeeps(c: Config, s: State, h: History) returns (h': History)
    requires Inv(c, s, h) && Enabled(c, s, NextSend)
    ensures Inv(c, Apply(c, s, NextSend), h')
    ensures StepsDone(c, Apply(c, s, NextSend), h') == StepsDone(c, s, h) + 1
  {
    hide FrontierInv, MadeInv, StageInv, Levels, ToMake, Total;
    h' := h.(inputPut := h.inputPut + 1);
    FedWhenInTurn(c, s, h);
    ChannelPut(s.inputs, h.made, h.inputGot, h.inputPut);
    ExitKeeps(c, s, Apply(c, s, NextSend));
  }

  /** Outside the first layer the turn is out of the first-layer sender's reach. */
  lemma FedWhenInTurn(c: Config, s: State, h: History)
    requires SenderInv(c, s.fed, s.feedSent, s.inputTurn, s.next, s.count, h.made, h.inputPut)
    requires s.inputTurn == s.count
    ensures s.fed == c.N()
  {
  }

  lemma NextAdvanceKeeps(c: Config, s: State, h: History) returns (h': History)
    requires Inv(c, s, h) && Enabled(c, s, NextAdvance)
    ensures Inv(c, Apply(c, s, NextAdvance), h')
    ensures StepsDone(c, Apply(c, s, NextAdvance), h') == StepsDone(c, s, h) + 1
  {
    hide FrontierParts, MadeInv, StageInv, ToMake, Total;
    h' := h;
    var s' := Apply(c, s, NextAdvance);
    assert Kept(s'.next, s'.batch) == Kept(s.next, s.batch);
    FrontierSize(c, Frontier(s.next, s.batch, h.made, h.proofGot), h.oldest, h.layer);
    assert c.Height() > 0 by { HeightPositive(c, s, h); }
    ExitKeeps(c, s, s');
  }

  lemma HeightPositive(c: Config, s: State, h: History)
    requires Inv(c, s, h) && |h.made| > c.N()
    ensures c.Height() > 0
  {
    hide FrontierInv, MadeInv, StageInv, SenderInv;
    FrontierSize(c, Frontier(s.next, s.batch, h.made, h.proofGot), h.oldest, h.layer);
  }

  lemma NextSkipKeeps(c: Config, s: State, h: History)
    requires Inv(c, s, h) && Enabled(c, s, NextSkip)
    ensures Inv(c, Apply(c, s, NextSkip), h)
    ensures StepsDone(c, Apply(c, s, NextSkip), h) == StepsDone(c, s, h) + 1
  {
    hide FrontierParts, MadeInv, StageInv;
    FrontierSize(c, Frontier(s.next, s.batch, h.made, h.proofGot), h.oldest, h.layer);
    ExitKeeps(c, s, Apply(c, s, NextSkip));
  }
}
