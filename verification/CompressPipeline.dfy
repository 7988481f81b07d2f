/** The threads of `ZKMProver::compress` as a step relation: the first-layer sender,
    the trace workers, the provers and the next-layer worker, joined in a cycle by
    three bounded channels and ordered by three turn counters.  One step is one
    blocking operation of one thread: a receive, a send made in its turn, or the
    turn's advance. */
module CompressPipeline {
  import opened CompressTree

  datatype Config = Config(shards: nat, deferred: nat, inputCapacity: nat, traceCapacity: nat,
                           traceWorkers: nat, provers: nat)
  {
    function Inputs(): seq<Input> {
      FirstLayerInputs(shards, deferred)
    }

    function N(): nat {
      shards + deferred
    }

    /** What the proof and the options must provide: one shard proof, one worker
        for each stage, and channels that can hold an item. */
    predicate Valid() {
      shards >= 1 && inputCapacity >= 1 && traceCapacity >= 1 && traceWorkers >= 1 && provers >= 1
    }

    function Height(): nat {
      Levels(N())
    }

    function ProofCapacity(): nat {
      N() * 2
    }
  }

  /** A trace worker or a prover.  `Sent` is the moment after the send and before
      the turn is advanced. */
  datatype Worker = Idle | Holding(item: Item) | Sent | Exited

  datatype Stage = Stage(workers: seq<Worker>, turn: nat)

  /** The next-layer worker: collecting a batch, holding the input it made, having
      sent it, or out of its loop. */
  datatype NextLayer = Collect | Emit(item: Item, complete: bool) | Emitted(complete: bool) | Done

  datatype State = State(
    fed: nat, feedSent: bool,
    inputTurn: nat, inputs: seq<Item>,
    tracers: Stage, traces: seq<Item>,
    provers: Stage, proofs: seq<Item>,
    next: NextLayer, batch: seq<Item>, count: nat)

  datatype Step =
    | FeedSend | FeedAdvance
    | TraceRecv(w: nat) | TraceSend(w: nat) | TraceAdvance(w: nat) | TraceExit(w: nat)
    | ProveRecv(w: nat) | ProveSend(w: nat) | ProveAdvance(w: nat) | ProveExit(w: nat)
    | NextSkip | NextRecv | NextSend | NextAdvance | NextDisconnect

  function Init(c: Config): State {
    State(0, false, 0, [],
          Stage(seq(c.traceWorkers, _ => Idle), 0), [],
          Stage(seq(c.provers, _ => Idle), 0), [],
          Collect, [], c.N())
  }

  function FirstItem(c: Config, i: nat): Item
    requires i < c.N()
  {
    Item(i, 0, Leaf(c.Inputs()[i]))
  }

  predicate Is(st: Stage, w: nat, x: Worker) {
    w < |st.workers| && st.workers[w] == x
  }

  predicate InTurn(st: Stage, w: nat) {
    w < |st.workers| && st.workers[w].Holding? && st.workers[w].item.index == st.turn
  }

  predicate AllExited(st: Stage) {
    forall w | 0 <= w < |st.workers| :: st.workers[w].Exited?
  }

  function Put(st: Stage, w: nat, x: Worker): Stage
    requires w < |st.workers|
  {
    st.(workers := st.workers[w := x])
  }

  /** All senders of the input channel are gone. */
  predicate InputClosed(c: Config, s: State) {
    s.fed == c.N() && s.next.Done?
  }

  /** The first element of the batch is the last of its layer. */
  predicate IsLast(batch: seq<Item>) {
    |batch| >= 2 && batch[0].height != batch[|batch| - 1].height
  }

  /** The node made from a full batch: both proofs, or only the first when the
      second belongs to the next layer. */
  function Join(c: Config, batch: seq<Item>, count: nat): (node: Item)
    requires |batch| >= 2
    ensures node.index == count && node.tree.Node?
  {
    var used := if IsLast(batch) then batch[..1] else batch;
    var height := used[0].height + 1;
    Item(count, height, Node(Trees(used), height == c.Height()))
  }

  predicate Enabled(c: Config, s: State, step: Step) {
    match step
    case FeedSend => s.fed < c.N() && !s.feedSent && s.inputTurn == s.fed && |s.inputs| < c.inputCapacity
    case FeedAdvance => s.feedSent
    case TraceRecv(w) => Is(s.tracers, w, Idle) && s.inputs != []
    case TraceSend(w) => InTurn(s.tracers, w) && |s.traces| < c.traceCapacity
    case TraceAdvance(w) => Is(s.tracers, w, Sent)
    case TraceExit(w) => Is(s.tracers, w, Idle) && s.inputs == [] && InputClosed(c, s)
    case ProveRecv(w) => Is(s.provers, w, Idle) && s.traces != []
    case ProveSend(w) => InTurn(s.provers, w) && |s.proofs| < c.ProofCapacity()
    case ProveAdvance(w) => Is(s.provers, w, Sent)
    case ProveExit(w) => Is(s.provers, w, Idle) && s.traces == [] && AllExited(s.tracers)
    case NextSkip => s.next.Collect? && c.Height() == 0
    case NextRecv => s.next.Collect? && c.Height() != 0 && s.proofs != []
    case NextSend => s.next.Emit? && s.inputTurn == s.count && |s.inputs| < c.inputCapacity
    case NextAdvance => s.next.Emitted?
    case NextDisconnect => s.next.Collect? && c.Height() != 0 && s.proofs == [] && AllExited(s.provers)
  }

  function Apply(c: Config, s: State, step: Step): State
    requires Enabled(c, s, step)
  {
    match step
    case FeedSend => s.(inputs := s.inputs + [FirstItem(c, s.fed)], feedSent := true)
    case FeedAdvance => s.(inputTurn := s.inputTurn + 1, fed := s.fed + 1, feedSent := false)
    case TraceRecv(w) => s.(inputs := s.inputs[1..], tracers := Put(s.tracers, w, Holding(s.inputs[0])))
    case TraceSend(w) => s.(traces := s.traces + [s.tracers.workers[w].item], tracers := Put(s.tracers, w, Sent))
    case TraceAdvance(w) => s.(tracers := Put(s.tracers, w, Idle).(turn := s.tracers.turn + 1))
    case TraceExit(w) => s.(tracers := Put(s.tracers, w, Exited))
    case ProveRecv(w) => s.(traces := s.traces[1..], provers := Put(s.provers, w, Holding(s.traces[0])))
    case ProveSend(w) => s.(proofs := s.proofs + [s.provers.workers[w].item], provers := Put(s.provers, w, Sent))
    case ProveAdvance(w) => s.(provers := Put(s.provers, w, Idle).(turn := s.provers.turn + 1))
    case ProveExit(w) => s.(provers := Put(s.provers, w, Exited))
    case NextSkip => s.(next := Done)
    case NextRecv =>
      var batch := s.batch + [s.proofs[0]];
      var s := s.(proofs := s.proofs[1..], batch := batch);
      if |batch| < 2 then s
      else
        var item := Join(c, batch, s.count);
        s.(next := Emit(item, item.tree.isComplete))
    case NextSend => s.(inputs := s.inputs + [s.next.item], next := Emitted(s.next.complete))
    case NextAdvance =>
      var s := s.(inputTurn := s.inputTurn + 1, count := s.count + 1);
      if s.next.complete then s.(next := Done)
      else s.(next := Collect, batch := if IsLast(s.batch) then [s.batch[1]] else [])
    case NextDisconnect => s.(next := Done)
  }

  /** The main thread has joined the provers and the next-layer worker, and reads
      its answer from the proofs channel. */
  predicate Terminal(s: State) {
    AllExited(s.provers) && s.next.Done?
  }

  /** A run: states linked by enabled steps, starting from the spawn of the threads. */
  predicate Run(c: Config, states: seq<State>, steps: seq<Step>) {
    && |states| == |steps| + 1
    && states[0] == Init(c)
    && forall i | 0 <= i < |steps| ::
         Enabled(c, states[i], steps[i]) && states[i + 1] == Apply(c, states[i], steps[i])
  }

  // ----- The invariant -----

  /** History of a run: every item made so far, how many of them have been put into
      and taken from each channel, and the shape of the frontier (`oldest` unconsumed
      proofs of height `layer`, the others one layer higher). */
  datatype History = History(
    made: seq<Item>,
    inputPut: nat, inputGot: nat, tracePut: nat, traceGot: nat, proofPut: nat, proofGot: nat,
    oldest: nat, layer: nat)

  ghost predicate HeldBy(st: Stage, i: nat, w: nat) {
    w < |st.workers| && st.workers[w].Holding? && st.workers[w].item.index == i
  }

  ghost predicate Held(st: Stage, i: nat) {
    exists w :: HeldBy(st, i, w)
  }

  ghost predicate AnySent(st: Stage) {
    exists w :: Is(st, w, Sent)
  }

  /** The workers of a stage hold exactly the items `[put, got)`, each held once, and
      the turn is the number of items put, less one while a sender has yet to
      advance it. */
  ghost predicate StageInv(st: Stage, made: seq<Item>, put: nat, got: nat) {
    && put <= got <= |made|
    && (forall w | 0 <= w < |st.workers| && st.workers[w].Holding? ::
          put <= st.workers[w].item.index < got && st.workers[w].item == made[st.workers[w].item.index])
    && (forall w, w' | 0 <= w < |st.workers| && 0 <= w' < |st.workers|
            && st.workers[w].Holding? && st.workers[w'].Holding? ::
          st.workers[w].item.index == st.workers[w'].item.index ==> w == w')
    && (forall i | put <= i < got :: Held(st, i))
    && (forall w, w' | 0 <= w < |st.workers| && 0 <= w' < |st.workers|
            && st.workers[w].Sent? && st.workers[w'].Sent? :: w == w')
    && st.turn + (if AnySent(st) then 1 else 0) == put
  }

  /** What is left of the batch once the node in hand has been sent. */
  function Kept(next: NextLayer, batch: seq<Item>): seq<Item> {
    match next
    case Collect => batch
    case Emit(_, complete) => if complete then [] else if IsLast(batch) then [batch[1]] else []
    case Emitted(complete) => if complete then [] else if IsLast(batch) then [batch[1]] else []
    case Done => []
  }

  /** The proofs not yet joined into another one. */
  ghost function Frontier(next: NextLayer, batch: seq<Item>, made: seq<Item>, consumed: nat): seq<Item>
    requires consumed <= |made|
  {
    Kept(next, batch) + made[consumed..]
  }

  ghost predicate Layer(items: seq<Item>, h: nat) {
    forall x | x in items :: x.height == h && Uniform(x.tree, h)
  }

  /** The frontier is the rest of one layer (`a`) followed by the beginning of the
      next (`b`); rotated, its leaves are all the inputs in order, and its size and
      layer still lead to the precomputed height. */
  ghost predicate FrontierParts(c: Config, a: seq<Item>, b: seq<Item>, layer: nat) {
    && a != [] && |a| + |b| <= c.N()
    && Layer(a, layer) && Layer(b, layer + 1)
    && ItemLeaves(b) + ItemLeaves(a) == c.Inputs()
    && LevelsAgree(c, |a|, |b|, layer)
    && Marked(a, |a| + |b| == 1) && Marked(b, false)
  }

  ghost predicate LevelsAgree(c: Config, a: nat, b: nat, layer: nat) {
    if b == 0 then layer + Levels(a) == c.Height()
    else layer + 1 + Levels(b + (a + 1) / 2) == c.Height()
  }

  ghost predicate Marked(items: seq<Item>, marked: bool) {
    forall x | x in items ::
      CompleteMarks(x.tree) == (if marked then 1 else 0) && (marked ==> RootMarked(x.tree))
  }

  ghost predicate FrontierInv(c: Config, f: seq<Item>, oldest: nat, layer: nat) {
    oldest <= |f| && FrontierParts(c, f[..oldest], f[oldest..], layer)
  }

  /** How many items are still to be made. */
  ghost function ToMake(size: nat, oldest: nat): int
    requires oldest <= size
  {
    var half := (oldest + 1) / 2;
    if oldest == size then Total(oldest) - oldest
    else half + Total(size - oldest + half) - (size - oldest + half)
  }

  ghost predicate MadeInv(c: Config, made: seq<Item>) {
    && c.N() <= |made|
    && (forall i | 0 <= i < |made| :: made[i].index == i)
    && forall i | 0 <= i < c.N() :: made[i] == FirstItem(c, i)
  }

  /** A channel holds the items put and not yet got, in order. */
  ghost predicate Channel(queue: seq<Item>, made: seq<Item>, got: nat, put: nat) {
    got <= put <= |made| && queue == made[got..put]
  }

  /** The two threads that put items into the input channel never overlap. */
  ghost predicate SenderInv(c: Config, fed: nat, feedSent: bool, turn: nat, next: NextLayer, count: nat,
                            made: seq<Item>, put: nat)
  {
    && fed <= c.N() <= count
    && (feedSent ==> fed < c.N())
    && (fed < c.N() ==>
          && turn == fed && put == fed + (if feedSent then 1 else 0)
          && !next.Emitted? && (next.Done? ==> c.N() == 1) && count == c.N())
    && (fed == c.N() ==> turn == count && put == count + (if next.Emitted? then 1 else 0))
    && |made| == count + (if next.Emit? || next.Emitted? then 1 else 0)
    && (next.Emit? ==> next.item == made[count])
  }

  ghost predicate BatchInv(c: Config, next: NextLayer, batch: seq<Item>, made: seq<Item>, consumed: nat,
                           oldest: nat, layer: nat)
  {
    && consumed <= |made|
    && var f := Frontier(next, batch, made, consumed);
       && FrontierInv(c, f, oldest, layer)
       && |made| + ToMake(|f|, oldest) == Total(c.N())
       && match next
          case Collect => if c.Height() == 0 then batch == [] else |batch| <= 1 && |f| >= 2
          case Emit(_, complete) => |batch| == 2 && (complete <==> |f| == 1)
          case Emitted(complete) => |batch| == 2 && (complete <==> |f| == 1)
          case Done => |f| == 1
  }

  ghost predicate SomeExited(st: Stage) {
    exists w :: Is(st, w, Exited)
  }

  /** A worker leaves only when nothing can reach it any more. */
  ghost predicate ExitInv(c: Config, tracers: Stage, inputs: seq<Item>, inputClosed: bool,
                          provers: Stage, traces: seq<Item>)
  {
    && |tracers.workers| == c.traceWorkers
    && |provers.workers| == c.provers
    && (SomeExited(tracers) ==> inputs == [] && inputClosed)
    && (SomeExited(provers) ==> traces == [] && AllExited(tracers))
  }

  ghost predicate Inv(c: Config, s: State, h: History) {
    && MadeInv(c, h.made)
    && Channel(s.inputs, h.made, h.inputGot, h.inputPut)
    && StageInv(s.tracers, h.made, h.tracePut, h.inputGot)
    && Channel(s.traces, h.made, h.traceGot, h.tracePut)
    && StageInv(s.provers, h.made, h.proofPut, h.traceGot)
    && Channel(s.proofs, h.made, h.proofGot, h.proofPut)
    && SenderInv(c, s.fed, s.feedSent, s.inputTurn, s.next, s.count, h.made, h.inputPut)
    && BatchInv(c, s.next, s.batch, h.made, h.proofGot, h.oldest, h.layer)
    && ExitInv(c, s.tracers, s.inputs, InputClosed(c, s), s.provers, s.traces)
  }
}
