/** The public-value passes over the shards of a core proof (crates/prover/src/verify.rs,
    `ZKMProver::verify`). Every pass is a loop with its own running state; the specification
    of a pass says, shard by shard, what it complains about. */
module CoreAcceptance {
  import opened Arithmetic

  const MAX_CPU_LOG_DEGREE: nat := 22
  const MAX_SHARDS: nat := 65536

  type Val = x: nat | x < P

  const ZERO_DEFERRED: seq<Val> := [0, 0, 0, 0, 0, 0, 0, 0]
  const ZERO_BITS: seq<Val> := ZERO_DEFERRED + ZERO_DEFERRED + ZERO_DEFERRED + ZERO_DEFERRED
  const ZERO_WORD: seq<Val> := [0, 0, 0, 0]
  const ZERO_COMMITTED: seq<seq<Val>> :=
    [ZERO_WORD, ZERO_WORD, ZERO_WORD, ZERO_WORD, ZERO_WORD, ZERO_WORD, ZERO_WORD, ZERO_WORD]

  datatype PublicValues = PublicValues(
    shard: Val, executionShard: Val, startPc: Val, nextPc: Val, exitCode: Val,
    previousInit: seq<Val>, lastInit: seq<Val>,
    previousFinalize: seq<Val>, lastFinalize: seq<Val>,
    committed: seq<seq<Val>>, deferred: seq<Val>)

  /** The chip names that the passes look up, and all others. */
  datatype ChipName = Cpu | MemoryGlobalInit | MemoryGlobalFinalize | Other(name: string)

  /** A shard proof: the position of every chip, the log degree of every opened chip, and
      the public values. */
  datatype Shard = Shard(chipOrdering: map<ChipName, nat>, logDegrees: seq<nat>, pv: PublicValues)
  {
    predicate HasCpu() { Cpu in chipOrdering }
    predicate HasMemoryInit() { MemoryGlobalInit in chipOrdering }
    predicate HasMemoryFinalize() { MemoryGlobalFinalize in chipOrdering }
  }

  datatype Complaint =
    | ShardIndex | ExecutionShardIndex
    | StartPcNotKey | StartPcNotPrevious | PcMovedWithoutCpu | StartedHalted | NotHalted
    | NonzeroExitCode
    | InitNotPrevious | FinalizeNotPrevious | InitMoved | FinalizeMoved
    | CommittedChanged | DeferredChanged

  datatype Error =
    | EmptyProof | MissingCpuInFirstShard | CpuLogDegreeTooLarge(logDegree: nat)
    | InvalidPublicValues(complaint: Complaint) | TooManyShards | MachineRejected

  /** How a call ends; `Panicked` is the failing index of `log_degree_cpu`. */
  datatype Outcome = Accepted | Refused(error: Error) | Panicked

  // ---------------------------------------------------------------------------------------
  // What each pass complains about
  // ---------------------------------------------------------------------------------------

  datatype Pass = CpuDegree | ShardNumber | ExecutionShard | ProgramCounter | ExitCode
                | MemoryAddresses | Digests

  function CpuCount(s: seq<Shard>): nat {
    if s == [] then 0
    else CpuCount(s[..|s| - 1]) + if s[|s| - 1].HasCpu() then 1 else 0
  }

  function Complain(c: Complaint): Outcome { Refused(InvalidPublicValues(c)) }

  function CpuDegreeAt(s: seq<Shard>, i: nat): Outcome
    requires i < |s|
  {
    if !s[i].HasCpu() then Accepted
    else if s[i].chipOrdering[Cpu] >= |s[i].logDegrees| then Panicked
    else
      var d := s[i].logDegrees[s[i].chipOrdering[Cpu]];
      if d > MAX_CPU_LOG_DEGREE then Refused(CpuLogDegreeTooLarge(d)) else Accepted
  }

  function ProgramCounterAt(s: seq<Shard>, pcStart: Val, i: nat): Outcome
    requires i < |s|
  {
    var v := s[i].pv;
    if i == 0 && v.startPc != pcStart then Complain(StartPcNotKey)
    else if i != 0 && v.startPc != s[i - 1].pv.nextPc then Complain(StartPcNotPrevious)
    else if !s[i].HasCpu() && v.startPc != v.nextPc then Complain(PcMovedWithoutCpu)
    else if s[i].HasCpu() && v.startPc == 0 then Complain(StartedHalted)
    else if i == |s| - 1 && v.nextPc != 0 then Complain(NotHalted)
    else Accepted
  }

  function MemoryAddressesAt(s: seq<Shard>, i: nat): Outcome
    requires i < |s|
  {
    var v := s[i].pv;
    if v.previousInit != (if i == 0 then ZERO_BITS else s[i - 1].pv.lastInit) then
      Complain(InitNotPrevious)
    else if v.previousFinalize != (if i == 0 then ZERO_BITS else s[i - 1].pv.lastFinalize) then
      Complain(FinalizeNotPrevious)
    else if !s[i].HasMemoryInit() && v.previousInit != v.lastInit then Complain(InitMoved)
    else if !s[i].HasMemoryFinalize() && v.previousFinalize != v.lastFinalize then
      Complain(FinalizeMoved)
    else Accepted
  }

  function CommittedBefore(s: seq<Shard>, i: nat): seq<seq<Val>>
    requires i <= |s|
  {
    if i == 0 then ZERO_COMMITTED else s[i - 1].pv.committed
  }

  function DeferredBefore(s: seq<Shard>, i: nat): seq<Val>
    requires i <= |s|
  {
    if i == 0 then ZERO_DEFERRED else s[i - 1].pv.deferred
  }

  function DigestsAt(s: seq<Shard>, i: nat): Outcome
    requires i < |s|
  {
    var v := s[i].pv;
    var c, d := CommittedBefore(s, i), DeferredBefore(s, i);
    if c != ZERO_COMMITTED && v.committed != c then Complain(CommittedChanged)
    else if d != ZERO_DEFERRED && v.deferred != d then Complain(DeferredChanged)
    else if !s[i].HasCpu() && v.committed != c then Complain(CommittedChanged)
    else if !s[i].HasCpu() && v.deferred != d then Complain(DeferredChanged)
    else Accepted
  }

  /** What `pass` says of shard `i`. The counters of the second and third pass are field
      elements, so they wrap at `P`. */
  function At(pass: Pass, s: seq<Shard>, pcStart: Val, i: nat): Outcome
    requires i < |s|
  {
    match pass
    case CpuDegree => CpuDegreeAt(s, i)
    case ShardNumber =>
      if s[i].pv.shard != (i + 1) % P then Complain(ShardIndex) else Accepted
    case ExecutionShard =>
      if s[i].HasCpu() && s[i].pv.executionShard != CpuCount(s[..i + 1]) % P
      then Complain(ExecutionShardIndex) else Accepted
    case ProgramCounter => ProgramCounterAt(s, pcStart, i)
    case ExitCode => if s[i].pv.exitCode != 0 then Complain(NonzeroExitCode) else Accepted
    case MemoryAddresses => MemoryAddressesAt(s, i)
    case Digests => DigestsAt(s, i)
  }

  predicate Clean(pass: Pass, s: seq<Shard>, pcStart: Val, n: nat)
    requires n <= |s|
  {
    forall i | 0 <= i < n :: At(pass, s, pcStart, i) == Accepted
  }

  /** `r` is what the first shard that `pass` does not accept draws. */
  predicate FirstStop(pass: Pass, s: seq<Shard>, pcStart: Val, r: Outcome) {
    if r == Accepted then Clean(pass, s, pcStart, |s|)
    else exists i | 0 <= i < |s| :: Clean(pass, s, pcStart, i) && At(pass, s, pcStart, i) == r
  }

  // ---------------------------------------------------------------------------------------
  // Which complaint is reported
  // ---------------------------------------------------------------------------------------

  /** The initial values: 32 zero bits, eight zero elements, eight words of four zeros. */
  lemma ZerosAre()
    ensures |ZERO_BITS| == 32 && forall i | 0 <= i < 32 :: ZERO_BITS[i] == 0
    ensures |ZERO_DEFERRED| == 8 && forall i | 0 <= i < 8 :: ZERO_DEFERRED[i] == 0
    ensures |ZERO_COMMITTED| == 8 && forall i | 0 <= i < 8 :: ZERO_COMMITTED[i] == [0, 0, 0, 0]
  {
  }

  /** The count is the number of shards with a CPU. */
  lemma {:induction false} CpuCountIs(s: seq<Shard>)
    ensures CpuCount(s) == |set i | 0 <= i < |s| && s[i].HasCpu()|
  {
    var all := set i | 0 <= i < |s| && s[i].HasCpu();
    if s == [] {
      assert all == {};
    } else {
      var k := |s| - 1;
      var front := set i | 0 <= i < k && s[..k][i].HasCpu();
      CpuCountIs(s[..k]);
      assert all == if s[k].HasCpu() then front + {k} else front;
    }
  }

  lemma CpuDegreeComplaints(s: seq<Shard>, i: nat)
    requires i < |s|
    ensures CpuDegreeAt(s, i) == Panicked
       <==> s[i].HasCpu() && s[i].chipOrdering[Cpu] >= |s[i].logDegrees|
    ensures s[i].HasCpu() && s[i].chipOrdering[Cpu] < |s[i].logDegrees| ==>
      var d := s[i].logDegrees[s[i].chipOrdering[Cpu]];
      CpuDegreeAt(s, i) == if d > 22 then Refused(CpuLogDegreeTooLarge(d)) else Accepted
  {
  }

  /** The counter of the shard before, or the key's. */
  function CounterBefore(s: seq<Shard>, pcStart: Val, i: nat): Val
    requires i < |s|
  {
    if i == 0 then pcStart else s[i - 1].pv.nextPc
  }

  /** Each complaint of the program-counter pass has its own condition, and no two hold. */
  lemma ProgramCounterComplaints(s: seq<Shard>, pcStart: Val, i: nat)
    requires i < |s|
    ensures
      var r, v, cpu := ProgramCounterAt(s, pcStart, i), s[i].pv, s[i].HasCpu();
      var handed := v.startPc == CounterBefore(s, pcStart, i);
      && (r == Complain(StartPcNotKey) <==> !handed && i == 0)
      && (r == Complain(StartPcNotPrevious) <==> !handed && i > 0)
      && (r == Complain(PcMovedWithoutCpu) <==> handed && !cpu && v.startPc != v.nextPc)
      && (r == Complain(StartedHalted) <==> handed && cpu && v.startPc == 0)
      && (r == Complain(NotHalted) <==>
            handed && (if cpu then v.startPc != 0 else v.startPc == v.nextPc) && i == |s| - 1 && v.nextPc != 0)
  {
  }

  lemma MemoryComplaints(s: seq<Shard>, i: nat)
    requires i < |s|
    ensures
      var r, v := MemoryAddressesAt(s, i), s[i].pv;
      var init := v.previousInit == if i == 0 then ZERO_BITS else s[i - 1].pv.lastInit;
      var final := v.previousFinalize == if i == 0 then ZERO_BITS else s[i - 1].pv.lastFinalize;
      var initRests := s[i].HasMemoryInit() || v.previousInit == v.lastInit;
      var finalRests := s[i].HasMemoryFinalize() || v.previousFinalize == v.lastFinalize;
      && (r == Complain(InitNotPrevious) <==> !init)
      && (r == Complain(FinalizeNotPrevious) <==> init && !final)
      && (r == Complain(InitMoved) <==> init && final && !initRests)
      && (r == Complain(FinalizeMoved) <==> init && final && initRests && !finalRests)
  {
  }

  lemma DigestComplaints(s: seq<Shard>, i: nat)
    requires i < |s|
    ensures
      var r, v, cpu := DigestsAt(s, i), s[i].pv, s[i].HasCpu();
      var c := if i == 0 then ZERO_COMMITTED else s[i - 1].pv.committed;
      var d := if i == 0 then ZERO_DEFERRED else s[i - 1].pv.deferred;
      var overwritten := d != ZERO_DEFERRED && v.deferred != d;
      var committed := v.committed != c && (c != ZERO_COMMITTED || (!cpu && !overwritten));
      && (r == Complain(CommittedChanged) <==> committed)
      && (r == Complain(DeferredChanged) <==> !committed && v.deferred != d && (d != ZERO_DEFERRED || !cpu))
  {
  }

  // ---------------------------------------------------------------------------------------
  // The passes
  // ---------------------------------------------------------------------------------------

  method CheckCpuDegree(s: seq<Shard>, pcStart: Val) returns (r: Outcome)
    ensures FirstStop(CpuDegree, s, pcStart, r)
  {
    for i := 0 to |s|
      invariant Clean(CpuDegree, s, pcStart, i)
    {
      if s[i].HasCpu() {
        var idx := s[i].chipOrdering[Cpu];
        if idx >= |s[i].logDegrees| { return Panicked; }
        var logDegreeCpu := s[i].logDegrees[idx];
        if logDegreeCpu > MAX_CPU_LOG_DEGREE { return Refused(CpuLogDegreeTooLarge(logDegreeCpu)); }
      }
    }
    return Accepted;
  }

  function Next(x: Val): Val { if x == P - 1 then 0 else x + 1 }

  method CheckShardNumbers(s: seq<Shard>, pcStart: Val) returns (r: Outcome)
    ensures FirstStop(ShardNumber, s, pcStart, r)
  {
    var currentShard: Val := 0;
    for i := 0 to |s|
      invariant currentShard == i % P
      invariant Clean(ShardNumber, s, pcStart, i)
    {
      currentShard := Next(currentShard);
      assert currentShard == (i + 1) % P;
      if s[i].pv.shard != currentShard { return Complain(ShardIndex); }
    }
    return Accepted;
  }

  method CheckExecutionShards(s: seq<Shard>, pcStart: Val) returns (r: Outcome)
    ensures FirstStop(ExecutionShard, s, pcStart, r)
  {
    var currentExecutionShard: Val := 0;
    for i := 0 to |s|
      invariant currentExecutionShard == CpuCount(s[..i]) % P
      invariant Clean(ExecutionShard, s, pcStart, i)
    {
      assert s[..i + 1][..i] == s[..i];
      if s[i].HasCpu() {
        currentExecutionShard := Next(currentExecutionShard);
        if s[i].pv.executionShard != currentExecutionShard { return Complain(ExecutionShardIndex); }
      }
    }
    return Accepted;
  }

  method CheckProgramCounter(s: seq<Shard>, pcStart: Val) returns (r: Outcome)
    ensures FirstStop(ProgramCounter, s, pcStart, r)
  {
    var prevNextPc: Val := 0;
    for i := 0 to |s|
      invariant i > 0 ==> prevNextPc == s[i - 1].pv.nextPc
      invariant Clean(ProgramCounter, s, pcStart, i)
    {
      var v := s[i].pv;
      if i == 0 && v.startPc != pcStart { return Complain(StartPcNotKey); }
      else if i != 0 && v.startPc != prevNextPc { return Complain(StartPcNotPrevious); }
      else if !s[i].HasCpu() && v.startPc != v.nextPc { return Complain(PcMovedWithoutCpu); }
      else if s[i].HasCpu() && v.startPc == 0 { return Complain(StartedHalted); }
      else if i == |s| - 1 && v.nextPc != 0 { return Complain(NotHalted); }
      prevNextPc := v.nextPc;
    }
    return Accepted;
  }

  method CheckExitCodes(s: seq<Shard>, pcStart: Val) returns (r: Outcome)
    ensures FirstStop(ExitCode, s, pcStart, r)
  {
    for i := 0 to |s|
      invariant Clean(ExitCode, s, pcStart, i)
    {
      if s[i].pv.exitCode != 0 { return Complain(NonzeroExitCode); }
    }
    return Accepted;
  }

  method CheckMemoryAddresses(s: seq<Shard>, pcStart: Val) returns (r: Outcome)
    ensures FirstStop(MemoryAddresses, s, pcStart, r)
  {
    var lastInitPrev, lastFinalizePrev := ZERO_BITS, ZERO_BITS;
    for i := 0 to |s|
      invariant lastInitPrev == if i == 0 then ZERO_BITS else s[i - 1].pv.lastInit
      invariant lastFinalizePrev == if i == 0 then ZERO_BITS else s[i - 1].pv.lastFinalize
      invariant Clean(MemoryAddresses, s, pcStart, i)
    {
      var v := s[i].pv;
      if v.previousInit != lastInitPrev { return Complain(InitNotPrevious); }
      else if v.previousFinalize != lastFinalizePrev { return Complain(FinalizeNotPrevious); }
      else if !s[i].HasMemoryInit() && v.previousInit != v.lastInit { return Complain(InitMoved); }
      else if !s[i].HasMemoryFinalize() && v.previousFinalize != v.lastFinalize {
        return Complain(FinalizeMoved);
      }
      lastInitPrev, lastFinalizePrev := v.lastInit, v.lastFinalize;
    }
    return Accepted;
  }

  method CheckDigests(s: seq<Shard>, pcStart: Val) returns (r: Outcome)
    ensures FirstStop(Digests, s, pcStart, r)
  {
    var committedPrev, deferredPrev := ZERO_COMMITTED, ZERO_DEFERRED;
    for i := 0 to |s|
      invariant committedPrev == CommittedBefore(s, i) && deferredPrev == DeferredBefore(s, i)
      invariant Clean(Digests, s, pcStart, i)
    {
      var v := s[i].pv;
      if committedPrev != ZERO_COMMITTED && v.committed != committedPrev {
        return Complain(CommittedChanged);
      } else if deferredPrev != ZERO_DEFERRED && v.deferred != deferredPrev {
        return Complain(DeferredChanged);
      } else if !s[i].HasCpu() && v.committed != committedPrev {
        return Complain(CommittedChanged);
      } else if !s[i].HasCpu() && v.deferred != deferredPrev {
        return Complain(DeferredChanged);
      }
      committedPrev, deferredPrev := v.committed, v.deferred;
    }
    return Accepted;
  }

  // ---------------------------------------------------------------------------------------
  // The shape of an accepted run
  // ---------------------------------------------------------------------------------------

  predicate LastCpu(s: seq<Shard>, h: nat) {
    h < |s| && s[h].HasCpu() && forall i | h < i < |s| :: !s[i].HasCpu()
  }

  /** Zeros up to shard `k`, one constant nonzero value from there on, and `k` holds the CPU. */
  predicate AppearsOnce<D(==)>(d: seq<D>, cpu: seq<bool>, zero: D, k: nat)
    requires |cpu| == |d|
  {
    k < |d| && cpu[k] && d[k] != zero
    && forall i | 0 <= i < |d| :: d[i] == if i < k then zero else d[k]
  }

  /** Zeros throughout, or one value that first appears on a CPU shard. */
  ghost predicate SetAtMostOnce<D>(d: seq<D>, cpu: seq<bool>, zero: D)
    requires |cpu| == |d|
  {
    (forall i | 0 <= i < |d| :: d[i] == zero) || exists k :: AppearsOnce(d, cpu, zero, k)
  }

  function Cpus(s: seq<Shard>): (r: seq<bool>)
    ensures |r| == |s| && forall i | 0 <= i < |s| :: r[i] == s[i].HasCpu()
  {
    seq(|s|, i requires 0 <= i < |s| => s[i].HasCpu())
  }

  function Committed(s: seq<Shard>): (r: seq<seq<seq<Val>>>)
    ensures |r| == |s| && forall i | 0 <= i < |s| :: r[i] == s[i].pv.committed
  {
    seq(|s|, i requires 0 <= i < |s| => s[i].pv.committed)
  }

  function Deferred(s: seq<Shard>): (r: seq<seq<Val>>)
    ensures |r| == |s| && forall i | 0 <= i < |s| :: r[i] == s[i].pv.deferred
  {
    seq(|s|, i requires 0 <= i < |s| => s[i].pv.deferred)
  }

  /** The numbers of a run, as integers: shards count 1, 2, 3, ..., and so do the execution
      shards of the shards with a CPU. */
  predicate Numbered(s: seq<Shard>) {
    && (forall i | 0 <= i < |s| :: s[i].pv.shard == i + 1)
    && forall i | 0 <= i < |s| && s[i].HasCpu() :: s[i].pv.executionShard == CpuCount(s[..i + 1])
  }

  /** Execution starts at the key's counter, hands the counter over from shard to shard, and
      is halted (counter 0) exactly from shard `h` on; shards past `h` start halted. */
  predicate HaltsAt(s: seq<Shard>, pcStart: Val, h: nat) {
    && |s| > 0
    && pcStart != 0 && s[0].pv.startPc == pcStart
    && (forall i | 0 < i < |s| :: s[i].pv.startPc == s[i - 1].pv.nextPc)
    && (forall i | 0 <= i < |s| && !s[i].HasCpu() :: s[i].pv.startPc == s[i].pv.nextPc)
    && (forall i | 0 <= i < |s| :: s[i].pv.nextPc == 0 <==> h <= i)
  }

  /** The address bits start at zero and move only on a shard with the matching chip. */
  predicate AddressesMoveWithChips(s: seq<Shard>) {
    && (forall i | 0 <= i < |s| ::
          s[i].pv.previousInit == if i == 0 then ZERO_BITS else s[i - 1].pv.lastInit)
    && (forall i | 0 <= i < |s| ::
          s[i].pv.previousFinalize == if i == 0 then ZERO_BITS else s[i - 1].pv.lastFinalize)
    && (forall i | 0 <= i < |s| && !s[i].HasMemoryInit() ::
          s[i].pv.lastInit == s[i].pv.previousInit)
    && (forall i | 0 <= i < |s| && !s[i].HasMemoryFinalize() ::
          s[i].pv.lastFinalize == s[i].pv.previousFinalize)
  }

  predicate CpuSizesBounded(s: seq<Shard>) {
    forall i | 0 <= i < |s| && s[i].HasCpu() ::
      s[i].chipOrdering[Cpu] < |s[i].logDegrees|
      && s[i].logDegrees[s[i].chipOrdering[Cpu]] <= 22
  }

  /** A complete run whose last CPU shard is `h`. */
  ghost predicate CompleteRun(s: seq<Shard>, pcStart: Val, h: nat) {
    && LastCpu(s, h)
    && |s| <= 65536 && s[0].HasCpu()
    && CpuSizesBounded(s)
    && Numbered(s)
    && HaltsAt(s, pcStart, h)
    && (forall i | 0 <= i < |s| :: s[i].pv.exitCode == 0)
    && AddressesMoveWithChips(s)
    && SetAtMostOnce(Committed(s), Cpus(s), ZERO_COMMITTED)
    && SetAtMostOnce(Deferred(s), Cpus(s), ZERO_DEFERRED)
  }

  predicate AllClean(s: seq<Shard>, pcStart: Val) {
    forall pass: Pass :: Clean(pass, s, pcStart, |s|)
  }

  // ---------------------------------------------------------------------------------------
  // Accepted runs are the complete runs
  // ---------------------------------------------------------------------------------------

  lemma {:induction false} LastCpuExists(s: seq<Shard>, n: nat) returns (h: nat)
    requires 0 < n <= |s| && s[0].HasCpu()
    ensures LastCpu(s[..n], h)
  {
    if s[n - 1].HasCpu() { h := n - 1; } else { h := LastCpuExists(s, n - 1); }
  }

  lemma {:induction false} CpuCountBound(s: seq<Shard>)
    ensures CpuCount(s) <= |s|
  {
    if s != [] { CpuCountBound(s[..|s| - 1]); }
  }

  lemma NumbersDoNotWrap(s: seq<Shard>, pcStart: Val)
    requires |s| <= MAX_SHARDS
    ensures (Clean(ShardNumber, s, pcStart, |s|) && Clean(ExecutionShard, s, pcStart, |s|))
            <==> Numbered(s)
  {
    forall i | 0 <= i < |s|
      ensures (i + 1) % P == i + 1
      ensures At(ShardNumber, s, pcStart, i) == Accepted <==> s[i].pv.shard == i + 1
      ensures CpuCount(s[..i + 1]) % P == CpuCount(s[..i + 1])
      ensures s[i].HasCpu() ==>
        (At(ExecutionShard, s, pcStart, i) == Accepted
         <==> s[i].pv.executionShard == CpuCount(s[..i + 1]))
      ensures !s[i].HasCpu() ==> At(ExecutionShard, s, pcStart, i) == Accepted
    {
      CpuCountBound(s[..i + 1]);
    }
  }

  /** Once past the last CPU shard, the counter stays where it is. */
  lemma {:induction false} CounterRests(s: seq<Shard>, pcStart: Val, h: nat, i: nat)
    requires LastCpu(s, h) && Clean(ProgramCounter, s, pcStart, |s|) && h <= i < |s|
    ensures s[i].pv.nextPc == 0
    decreases |s| - i
  {
    assert At(ProgramCounter, s, pcStart, i) == Accepted;
    if i < |s| - 1 {
      CounterRests(s, pcStart, h, i + 1);
      assert At(ProgramCounter, s, pcStart, i + 1) == Accepted;
    }
  }

  /** Before the last CPU shard the counter is never zero: a zero would be carried over
      shards without a CPU up to one that may not start halted. */
  lemma {:induction false} CounterRuns(s: seq<Shard>, pcStart: Val, h: nat, i: nat)
    requires LastCpu(s, h) && Clean(ProgramCounter, s, pcStart, |s|) && i < h
    ensures s[i].pv.nextPc != 0
    decreases h - i
  {
    assert At(ProgramCounter, s, pcStart, i + 1) == Accepted;
    if i + 1 < h { CounterRuns(s, pcStart, h, i + 1); }
  }

  lemma CounterHalts(s: seq<Shard>, pcStart: Val, h: nat)
    requires LastCpu(s, h) && s[0].HasCpu()
    ensures Clean(ProgramCounter, s, pcStart, |s|) <==> HaltsAt(s, pcStart, h)
  {
    if Clean(ProgramCounter, s, pcStart, |s|) {
      forall i | 0 <= i < |s|
        ensures s[i].pv.nextPc == 0 <==> h <= i
        ensures At(ProgramCounter, s, pcStart, i) == Accepted
      {
        if h <= i { CounterRests(s, pcStart, h, i); } else { CounterRuns(s, pcStart, h, i); }
      }
    }
    if HaltsAt(s, pcStart, h) {
      forall i | 0 <= i < |s| ensures At(ProgramCounter, s, pcStart, i) == Accepted {
        if s[i].HasCpu() && i > 0 { assert s[i - 1].pv.nextPc != 0; }
      }
    }
  }

  lemma AddressPass(s: seq<Shard>, pcStart: Val)
    ensures Clean(MemoryAddresses, s, pcStart, |s|) <==> AddressesMoveWithChips(s)
  {
    if Clean(MemoryAddresses, s, pcStart, |s|) {
      forall i | 0 <= i < |s|
        ensures s[i].pv.previousInit == (if i == 0 then ZERO_BITS else s[i - 1].pv.lastInit)
        ensures s[i].pv.previousFinalize == (if i == 0 then ZERO_BITS else s[i - 1].pv.lastFinalize)
        ensures !s[i].HasMemoryInit() ==> s[i].pv.lastInit == s[i].pv.previousInit
        ensures !s[i].HasMemoryFinalize() ==> s[i].pv.lastFinalize == s[i].pv.previousFinalize
      {
        assert At(MemoryAddresses, s, pcStart, i) == Accepted;
      }
    }
  }

  lemma CpuDegreePass(s: seq<Shard>, pcStart: Val)
    ensures Clean(CpuDegree, s, pcStart, |s|) <==> CpuSizesBounded(s)
  {
    if Clean(CpuDegree, s, pcStart, |s|) {
      forall i | 0 <= i < |s| && s[i].HasCpu()
        ensures s[i].chipOrdering[Cpu] < |s[i].logDegrees|
        ensures s[i].logDegrees[s[i].chipOrdering[Cpu]] <= MAX_CPU_LOG_DEGREE
      {
        assert At(CpuDegree, s, pcStart, i) == Accepted;
      }
    }
  }

  lemma ExitCodePass(s: seq<Shard>, pcStart: Val)
    ensures Clean(ExitCode, s, pcStart, |s|)
            <==> forall i | 0 <= i < |s| :: s[i].pv.exitCode == 0
  {
    if Clean(ExitCode, s, pcStart, |s|) {
      forall i | 0 <= i < |s| ensures s[i].pv.exitCode == 0 {
        assert At(ExitCode, s, pcStart, i) == Accepted;
      }
    }
  }

  /** One digest's part of the digest pass. */
  predicate Settles<D(==)>(d: seq<D>, cpu: seq<bool>, zero: D, i: nat)
    requires |cpu| == |d| && i < |d|
  {
    var prev := if i == 0 then zero else d[i - 1];
    (prev == zero && cpu[i]) || d[i] == prev
  }

  predicate AllSettle<D(==)>(d: seq<D>, cpu: seq<bool>, zero: D)
    requires |cpu| == |d|
  {
    forall i | 0 <= i < |d| :: Settles(d, cpu, zero, i)
  }

  lemma {:induction false} SettledPrefix<D>(d: seq<D>, cpu: seq<bool>, zero: D, n: nat)
    requires |cpu| == |d| && n <= |d| && AllSettle(d, cpu, zero)
    ensures SetAtMostOnce(d[..n], cpu[..n], zero)
  {
    if n > 0 {
      SettledPrefix(d, cpu, zero, n - 1);
      var m, c := d[..n - 1], cpu[..n - 1];
      assert Settles(d, cpu, zero, n - 1);
      if k :| AppearsOnce(m, c, zero, k) {
        assert m[n - 2] == d[n - 2];
        assert AppearsOnce(d[..n], cpu[..n], zero, k);
      } else if d[n - 1] != zero {
        assert AppearsOnce(d[..n], cpu[..n], zero, n - 1);
      }
    }
  }

  lemma SettledExactly<D>(d: seq<D>, cpu: seq<bool>, zero: D)
    requires |cpu| == |d|
    ensures AllSettle(d, cpu, zero) <==> SetAtMostOnce(d, cpu, zero)
  {
    assert d[..|d|] == d && cpu[..|d|] == cpu;
    if AllSettle(d, cpu, zero) { SettledPrefix(d, cpu, zero, |d|); }
  }

  lemma DigestPass(s: seq<Shard>, pcStart: Val)
    ensures Clean(Digests, s, pcStart, |s|)
            <==> SetAtMostOnce(Committed(s), Cpus(s), ZERO_COMMITTED)
                 && SetAtMostOnce(Deferred(s), Cpus(s), ZERO_DEFERRED)
  {
    hide SetAtMostOnce;
    SettledExactly(Committed(s), Cpus(s), ZERO_COMMITTED);
    SettledExactly(Deferred(s), Cpus(s), ZERO_DEFERRED);
    forall i | 0 <= i < |s|
      ensures At(Digests, s, pcStart, i) == Accepted
              <==> Settles(Committed(s), Cpus(s), ZERO_COMMITTED, i)
                   && Settles(Deferred(s), Cpus(s), ZERO_DEFERRED, i)
    {}
  }

  lemma EveryPass(s: seq<Shard>, pcStart: Val)
    requires Clean(CpuDegree, s, pcStart, |s|) && Clean(ShardNumber, s, pcStart, |s|)
    requires Clean(ExecutionShard, s, pcStart, |s|) && Clean(ProgramCounter, s, pcStart, |s|)
    requires Clean(ExitCode, s, pcStart, |s|) && Clean(MemoryAddresses, s, pcStart, |s|)
    requires Clean(Digests, s, pcStart, |s|)
    ensures AllClean(s, pcStart)
  {
    hide Clean;
    forall pass: Pass ensures Clean(pass, s, pcStart, |s|) {
      match pass {
        case CpuDegree => {} case ShardNumber => {} case ExecutionShard => {}
        case ProgramCounter => {} case ExitCode => {} case MemoryAddresses => {}
        case Digests => {}
      }
    }
  }

  /** The passes accept exactly the complete runs. */
  lemma AcceptedRunsAreComplete(s: seq<Shard>, pcStart: Val)
    ensures (s != [] && s[0].HasCpu() && AllClean(s, pcStart) && |s| <= MAX_SHARDS)
            <==> exists h :: CompleteRun(s, pcStart, h)
  {
    hide Clean, CpuSizesBounded, Numbered, HaltsAt, AddressesMoveWithChips,
         SetAtMostOnce, CpuCount;
    if s != [] && s[0].HasCpu() && |s| <= MAX_SHARDS {
      assert s[..|s|] == s;
      var last := LastCpuExists(s, |s|);
      NumbersDoNotWrap(s, pcStart);
      AddressPass(s, pcStart);
      CpuDegreePass(s, pcStart);
      ExitCodePass(s, pcStart);
      CounterHalts(s, pcStart, last);
      DigestPass(s, pcStart);
      if AllClean(s, pcStart) { assert CompleteRun(s, pcStart, last); }
      forall h | CompleteRun(s, pcStart, h) ensures AllClean(s, pcStart) {
        assert h == last;
        EveryPass(s, pcStart);
      }
    }
  }

  // ---------------------------------------------------------------------------------------
  // The whole check
  // ---------------------------------------------------------------------------------------

  function Rank(pass: Pass): nat {
    match pass
    case CpuDegree => 0
    case ShardNumber => 1
    case ExecutionShard => 2
    case ProgramCounter => 3
    case ExitCode => 4
    case MemoryAddresses => 5
    case Digests => 6
  }

  /** Every pass before `pass` is clean. */
  predicate CleanBefore(pass: Pass, s: seq<Shard>, pcStart: Val) {
    forall q: Pass | Rank(q) < Rank(pass) :: Clean(q, s, pcStart, |s|)
  }

  /** `r` is the verdict of the earliest pass that stops, on its earliest shard. */
  ghost predicate StoppedBy(s: seq<Shard>, pcStart: Val, r: Outcome) {
    exists pass: Pass ::
      CleanBefore(pass, s, pcStart) && FirstStop(pass, s, pcStart, r) && r != Accepted
  }

  lemma StoppedIsNotClean(pass: Pass, s: seq<Shard>, pcStart: Val, r: Outcome)
    requires FirstStop(pass, s, pcStart, r) && r != Accepted
    ensures !Clean(pass, s, pcStart, |s|)
  {}

  /** `ZKMProver::verify`; `machineAccepts` is the verdict of the machine's own check. */
  method Verify(s: seq<Shard>, pcStart: Val, machineAccepts: bool) returns (r: Outcome)
    ensures r == Accepted <==> machineAccepts && exists h :: CompleteRun(s, pcStart, h)
    ensures s == [] ==> r == Refused(EmptyProof)
    ensures s != [] && !s[0].HasCpu() ==> r == Refused(MissingCpuInFirstShard)
    ensures s != [] && s[0].HasCpu() && !AllClean(s, pcStart) ==> StoppedBy(s, pcStart, r)
    ensures s != [] && s[0].HasCpu() && AllClean(s, pcStart) ==>
      r == if |s| > MAX_SHARDS then Refused(TooManyShards)
           else if machineAccepts then Accepted else Refused(MachineRejected)
  {
    hide Clean, CompleteRun;
    AcceptedRunsAreComplete(s, pcStart);
    if s == [] { return Refused(EmptyProof); }
    if !s[0].HasCpu() { return Refused(MissingCpuInFirstShard); }
    r := CheckCpuDegree(s, pcStart);
    if r != Accepted {
      assert CleanBefore(CpuDegree, s, pcStart);
      StoppedIsNotClean(CpuDegree, s, pcStart, r);
      return;
    }
    r := CheckShardNumbers(s, pcStart);
    if r != Accepted {
      assert CleanBefore(ShardNumber, s, pcStart);
      StoppedIsNotClean(ShardNumber, s, pcStart, r);
      return;
    }
    r := CheckExecutionShards(s, pcStart);
    if r != Accepted {
      assert CleanBefore(ExecutionShard, s, pcStart);
      StoppedIsNotClean(ExecutionShard, s, pcStart, r);
      return;
    }
    r := CheckProgramCounter(s, pcStart);
    if r != Accepted {
      assert CleanBefore(ProgramCounter, s, pcStart);
      StoppedIsNotClean(ProgramCounter, s, pcStart, r);
      return;
    }
    r := CheckExitCodes(s, pcStart);
    if r != Accepted {
      assert CleanBefore(ExitCode, s, pcStart);
      StoppedIsNotClean(ExitCode, s, pcStart, r);
      return;
    }
    r := CheckMemoryAddresses(s, pcStart);
    if r != Accepted {
      assert CleanBefore(MemoryAddresses, s, pcStart);
      StoppedIsNotClean(MemoryAddresses, s, pcStart, r);
      return;
    }
    r := CheckDigests(s, pcStart);
    if r != Accepted {
      assert CleanBefore(Digests, s, pcStart);
      StoppedIsNotClean(Digests, s, pcStart, r);
      return;
    }
    EveryPass(s, pcStart);
    if |s| > MAX_SHARDS { return Refused(TooManyShards); }
    r := if machineAccepts then Accepted else Refused(MachineRejected);
  }
}
