/** What holds in every state of every run. */
module DispatchLaws {
  import opened Dispatch

  predicate Busy(t: Target) { t.worker != Idle && t.worker != Finished }

  function BusyCount(ts: seq<Target>): nat {
    if ts == [] then 0 else (if Busy(ts[0]) then 1 else 0) + BusyCount(ts[1..])
  }

  function InFlight(ts: seq<Target>): nat {
    if ts == [] then 0 else (if ts[0].worker == Dispatching then 1 else 0) + InFlight(ts[1..])
  }

  lemma {:induction false} BusyUpdate(ts: seq<Target>, k: nat, t: Target)
    requires k < |ts|
    ensures BusyCount(ts[k := t]) == BusyCount(ts) - (if Busy(ts[k]) then 1 else 0) + (if Busy(t) then 1 else 0)
  {
    if k == 0 {
      assert ts[0 := t][1..] == ts[1..];
    } else {
      assert ts[k := t][1..] == ts[1..][k - 1 := t];
      BusyUpdate(ts[1..], k - 1, t);
    }
  }

  lemma {:induction false} InFlightBusy(ts: seq<Target>)
    ensures InFlight(ts) <= BusyCount(ts)
  {
    if ts != [] { InFlightBusy(ts[1..]); }
  }

  lemma {:induction false} SomeBusy(ts: seq<Target>, k: nat)
    requires k < |ts| && Busy(ts[k])
    ensures BusyCount(ts) >= 1
    ensures forall m :: 0 <= m < |ts| && m != k && Busy(ts[m]) ==> BusyCount(ts) >= 2
  {
    if k > 0 {
      SomeBusy(ts[1..], k - 1);
      forall m | 0 <= m < |ts| && m != k && Busy(ts[m])
        ensures BusyCount(ts) >= 2
      {
        if m > 0 { assert ts[1..][m - 1] == ts[m]; }
      }
    } else {
      forall m | 0 < m < |ts| && Busy(ts[m])
        ensures BusyCount(ts) >= 2
      {
        assert ts[1..][m - 1] == ts[m];
        SomeBusy(ts[1..], m - 1);
      }
    }
  }

  lemma {:induction false} NoneBusy(ts: seq<Target>)
    requires forall t :: t in ts ==> !Busy(t)
    ensures BusyCount(ts) == 0
  {
    if ts != [] { NoneBusy(ts[1..]); }
  }

  /** Where the started targets end. */
  function Split(m: Main): nat { m.i }

  /** A target's own bookkeeping, by where its worker stands. */
  predicate TargetOk(t: Target) {
    match t.worker
    case Idle => t.dispatches == 0 && t.result == NotRun && t.updates == []
    case Spawned => t.dispatches == 0 && t.result == NotRun && t.updates == []
    case Dispatching => t.dispatches == 1 && t.result == NotRun && t.updates == []
    case Errored | Classifying | Updating(_) => t.dispatches == 1 && t.result == Error && t.updates == []
    case Flagging | Cancelling =>
      t.dispatches == 1 && Failed(t.result) && |t.updates| == (if t.result == Error then 1 else 0)
    case Releasing | Finished =>
      t.dispatches == 1 && t.result != NotRun && |t.updates| == (if t.result == Error then 1 else 0)
  }

  /** How many cancel updates the loop has given target k. */
  function Cancels(m: Main, k: nat): nat {
    match m
    case Loop(_) | Holding(_) => 0
    case CancelRest(i, j) => if i <= k < j then 1 else 0
    case Waiting(i) => if i <= k then 1 else 0
    case Done(i) => if i <= k then 1 else 0
  }

  ghost predicate LoopInv(s: State) {
    && Split(s.main) <= |s.targets|
    && (s.main.Holding? ==> s.main.i < |s.targets|)
    && (s.main.CancelRest? ==> s.main.i <= s.main.j <= |s.targets|)
    && (forall k :: 0 <= k < |s.targets| ==> (s.targets[k].worker == Idle <==> k >= Split(s.main)))
    && (forall k :: 0 <= k < |s.targets| ==> |s.targets[k].cancels| == Cancels(s.main, k))
    && (forall k :: 0 <= k < |s.targets| ==> TargetOk(s.targets[k]))
    && (s.main.Done? ==> forall k :: 0 <= k < |s.targets| ==> !Busy(s.targets[k]))
  }

  ghost predicate SlotInv(c: Config, s: State) {
    s.held == BusyCount(s.targets) + (if s.main.Holding? then 1 else 0) && s.held <= c.limit
  }

  predicate Reported(t: Target) { Failed(t.result) && (t.worker == Releasing || t.worker == Finished) }

  /** A target seen against the run's context: a reported failure of a fail-fast run has ended the context. */
  predicate TargetFailOk(c: Config, lease: Lease, flag: bool, canceled: bool, t: Target) {
    && (t.worker == Updating(Timeout) ==> lease == Expired)
    && (c.failFast && Reported(t) ==> lease != Active || canceled)
    && (t.worker == Flagging ==> c.failFast)
    && (t.worker == Cancelling ==> flag)
    && (Skipped in t.cancels ==> flag)
  }

  ghost predicate FailInv(c: Config, s: State) {
    && (forall k :: 0 <= k < |s.targets| ==> TargetFailOk(c, s.lease, s.flag, s.canceled, s.targets[k]))
    && (s.flag ==> c.failFast && exists k :: 0 <= k < |s.targets| && Failed(s.targets[k].result))
  }

  /** With one slot, targets run one after the other, and under fail-fast none starts after a failure. */
  ghost predicate SerialInv(c: Config, s: State) {
    c.limit == 1 ==>
      && (forall k, m :: 0 <= k < m < |s.targets| && s.targets[m].worker != Idle ==> s.targets[k].worker == Finished)
      && (c.failFast ==> forall k, m :: 0 <= k < m < |s.targets| && Failed(s.targets[k].result) ==> s.targets[m].worker == Idle)
  }

  ghost predicate Inv(c: Config, s: State) { LoopInv(s) && SlotInv(c, s) && FailInv(c, s) && SerialInv(c, s) }

  lemma InitialInv(c: Config, s: State)
    requires Initial(s)
    ensures Inv(c, s)
  {
    assert forall k :: 0 <= k < |s.targets| ==> s.targets[k] in s.targets;
    NoneBusy(s.targets);
  }

  predicate IsWorkerStep(step: Step) {
    step.Start? || step.Return? || step.Classify? || step.ReadStatus? || step.Update? || step.SetFlag?
    || step.CancelContext? || step.Release?
  }

  /** A worker's step touches its own target, which stays started and in order. */
  lemma WorkerStepLocal(c: Config, s: State, step: Step)
    requires IsWorkerStep(step) && Enabled(c, s, step) && TargetOk(s.targets[step.k])
    ensures var n := Apply(c, s, step);
            && n.main == s.main && n.targets == s.targets[step.k := n.targets[step.k]]
            && TargetOk(n.targets[step.k]) && n.targets[step.k].worker != Idle
            && n.targets[step.k].cancels == s.targets[step.k].cancels
            && Busy(s.targets[step.k])
            && (step.Return? || n.targets[step.k].result == s.targets[step.k].result)
  {
  }

  lemma StepLoopInv(c: Config, s: State, step: Step)
    requires LoopInv(s) && Enabled(c, s, step)
    ensures LoopInv(Apply(c, s, step))
  {
    if IsWorkerStep(step) {
      WorkerKeepsLoop(c, s, step);
    } else if step == CancelOne {
      CancelKeepsLoop(c, s);
    } else if step == Spawn {
      SpawnKeepsLoop(c, s);
    } else {
      MainStepKeepsLoop(c, s, step);
    }
  }

  lemma WorkerKeepsLoop(c: Config, s: State, step: Step)
    requires LoopInv(s) && Enabled(c, s, step) && IsWorkerStep(step)
    ensures LoopInv(Apply(c, s, step))
  {
    WorkerStepLocal(c, s, step);
  }

  /** The other steps leave the targets alone, and the loop's place among them. */
  lemma MainStepKeepsLoop(c: Config, s: State, step: Step)
    requires LoopInv(s) && Enabled(c, s, step)
    requires !IsWorkerStep(step) && step != CancelOne && step != Spawn
    ensures LoopInv(Apply(c, s, step))
  {
    var n := Apply(c, s, step);
    assert n.targets == s.targets;
    assert step == Join ==> forall k :: 0 <= k < |s.targets| ==> s.targets[k] in s.targets;
    forall k | 0 <= k < |s.targets|
      ensures Cancels(n.main, k) == Cancels(s.main, k) && (k >= Split(n.main) <==> k >= Split(s.main))
    {
    }
  }

  lemma CancelKeepsLoop(c: Config, s: State)
    requires LoopInv(s) && Enabled(c, s, CancelOne)
    ensures LoopInv(Apply(c, s, CancelOne))
  {
    var n := Apply(c, s, CancelOne);
    forall k | 0 <= k < |s.targets|
      ensures n.targets[k].worker == s.targets[k].worker && TargetOk(n.targets[k])
      ensures |n.targets[k].cancels| == Cancels(n.main, k)
    {
    }
  }

  lemma SpawnKeepsLoop(c: Config, s: State)
    requires LoopInv(s) && Enabled(c, s, Spawn)
    ensures LoopInv(Apply(c, s, Spawn))
  {
    var n := Apply(c, s, Spawn);
    forall k | 0 <= k < |s.targets|
      ensures TargetOk(n.targets[k]) && (n.targets[k].worker == Idle <==> k >= Split(n.main))
      ensures |n.targets[k].cancels| == Cancels(n.main, k)
    {
    }
  }

  /** The one target a step changes, if any. */
  function Touched(s: State, step: Step): int {
    if IsWorkerStep(step) then step.k
    else if step == Spawn then s.main.i
    else if step == CancelOne && s.main.CancelRest? then s.main.j
    else -1
  }

  lemma OneTargetTouched(c: Config, s: State, step: Step)
    requires Enabled(c, s, step)
    ensures var n, k := Apply(c, s, step), Touched(s, step);
            && |n.targets| == |s.targets| && -1 <= k < |s.targets|
            && (if k < 0 then n.targets == s.targets else n.targets == s.targets[k := n.targets[k]])
  {
  }

  lemma SlotsTouched(c: Config, s: State, step: Step)
    requires LoopInv(s) && Enabled(c, s, step) && Touched(s, step) >= 0
    ensures var n, k := Apply(c, s, step), Touched(s, step);
            && k < |n.targets|
            && n.held - s.held - (if n.main.Holding? then 1 else 0) + (if s.main.Holding? then 1 else 0)
               == (if Busy(n.targets[k]) then 1 else 0) - (if Busy(s.targets[k]) then 1 else 0)
            && n.held <= s.held
  {
  }

  lemma StepSlotInv(c: Config, s: State, step: Step)
    requires LoopInv(s) && SlotInv(c, s) && Enabled(c, s, step)
    ensures SlotInv(c, Apply(c, s, step))
  {
    OneTargetTouched(c, s, step);
    if Touched(s, step) >= 0 {
      SlotsTouched(c, s, step);
      BusyUpdate(s.targets, Touched(s, step), Apply(c, s, step).targets[Touched(s, step)]);
    }
  }

  /** The flag, the cancellation and the end of the lease never go away. */
  lemma ContextGrows(c: Config, s: State, step: Step, t: Target)
    requires Enabled(c, s, step) && TargetFailOk(c, s.lease, s.flag, s.canceled, t)
    ensures var n := Apply(c, s, step);
            TargetFailOk(c, n.lease, n.flag, n.canceled, t) && (s.flag ==> n.flag)
  {
  }

  lemma TouchedFailOk(c: Config, s: State, step: Step)
    requires LoopInv(s) && FailInv(c, s) && Enabled(c, s, step) && Touched(s, step) >= 0
    ensures var n, k := Apply(c, s, step), Touched(s, step);
            && k < |n.targets|
            && TargetFailOk(c, n.lease, n.flag, n.canceled, n.targets[k])
            && (Failed(s.targets[k].result) ==> Failed(n.targets[k].result))
            && (n.flag && !s.flag ==> c.failFast && Failed(n.targets[k].result))
  {
    if IsWorkerStep(step) {
      WorkerFailOk(c, s, step);
    } else {
      LoopTouchFailOk(c, s, step);
    }
  }

  lemma WorkerFailOk(c: Config, s: State, step: Step)
    requires Enabled(c, s, step) && IsWorkerStep(step) && TargetOk(s.targets[step.k])
    requires TargetFailOk(c, s.lease, s.flag, s.canceled, s.targets[step.k])
    ensures
      var n, k := Apply(c, s, step), step.k;
      && k < |n.targets|
      && TargetFailOk(c, n.lease, n.flag, n.canceled, n.targets[k])
      && (Failed(s.targets[k].result) ==> Failed(n.targets[k].result))
      && (n.flag && !s.flag ==> c.failFast && Failed(n.targets[k].result))
  {
  }

  lemma LoopTouchFailOk(c: Config, s: State, step: Step)
    requires LoopInv(s) && FailInv(c, s) && Enabled(c, s, step) && Touched(s, step) >= 0 && !IsWorkerStep(step)
    ensures
      var n, k := Apply(c, s, step), Touched(s, step);
      && k < |n.targets|
      && TargetFailOk(c, n.lease, n.flag, n.canceled, n.targets[k])
      && !Failed(s.targets[k].result) && n.flag == s.flag
  {
    assert TargetOk(s.targets[Touched(s, step)]);
  }

  lemma StepFailInv(c: Config, s: State, step: Step)
    requires LoopInv(s) && FailInv(c, s) && Enabled(c, s, step)
    ensures FailInv(c, Apply(c, s, step))
  {
    var n, touched := Apply(c, s, step), Touched(s, step);
    OneTargetTouched(c, s, step);
    if touched >= 0 { TouchedFailOk(c, s, step); }
    forall k | 0 <= k < |s.targets|
      ensures TargetFailOk(c, n.lease, n.flag, n.canceled, n.targets[k])
    {
      if k != touched { ContextGrows(c, s, step, s.targets[k]); }
    }
    if s.flag {
      var k :| 0 <= k < |s.targets| && Failed(s.targets[k].result);
      assert Failed(n.targets[k].result);
    } else if n.flag {
      FlagSetByWorker(c, s, step);
      assert Failed(n.targets[touched].result);
    }
  }

  lemma FlagSetByWorker(c: Config, s: State, step: Step)
    requires Enabled(c, s, step) && !s.flag && Apply(c, s, step).flag
    ensures Touched(s, step) >= 0
  {
  }

  lemma SpawnKeepsSerial(c: Config, s: State)
    requires Inv(c, s) && Enabled(c, s, Spawn) && c.limit == 1
    ensures SerialInv(c, Apply(c, s, Spawn))
  {
    forall k | 0 <= k < s.main.i
      ensures s.targets[k].worker == Finished && (c.failFast ==> !Failed(s.targets[k].result))
    {
      if Busy(s.targets[k]) { SomeBusy(s.targets, k); }
    }
  }

  lemma ReturnKeepsSerial(c: Config, s: State, k: nat, r: Result)
    requires Inv(c, s) && Enabled(c, s, Return(k, r)) && c.limit == 1
    ensures SerialInv(c, Apply(c, s, Return(k, r)))
  {
    WorkerStepLocal(c, s, Return(k, r));
    forall m | k < m < |s.targets|
      ensures s.targets[m].worker == Idle
    {
    }
  }

  /** Neither starting a target nor returning its result: the started, the finished and the failed only grow. */
  lemma OtherStepKeeps(c: Config, s: State, step: Step, k: nat)
    requires LoopInv(s) && Enabled(c, s, step) && step != Spawn && !step.Return? && k < |s.targets|
    ensures var t, n := s.targets[k], Apply(c, s, step).targets[k];
            && (n.worker == Idle <==> t.worker == Idle) && (t.worker == Finished ==> n.worker == Finished)
            && n.result == t.result
  {
    if IsWorkerStep(step) {
      WorkerStepLocal(c, s, step);
    }
  }

  lemma StepSerialInv(c: Config, s: State, step: Step)
    requires Inv(c, s) && Enabled(c, s, step)
    ensures SerialInv(c, Apply(c, s, step))
  {
    if c.limit == 1 {
      if step == Spawn {
        SpawnKeepsSerial(c, s);
      } else if step.Return? {
        ReturnKeepsSerial(c, s, step.k, step.result);
      } else {
        OthersKeepSerial(c, s, step);
      }
    }
  }

  lemma OthersKeepSerial(c: Config, s: State, step: Step)
    requires LoopInv(s) && SerialInv(c, s) && Enabled(c, s, step) && step != Spawn && !step.Return?
    ensures SerialInv(c, Apply(c, s, step))
  {
    var n := Apply(c, s, step);
    assert |n.targets| == |s.targets|;
    forall k | 0 <= k < |s.targets|
      ensures (n.targets[k].worker == Idle <==> s.targets[k].worker == Idle)
      ensures (s.targets[k].worker == Finished ==> n.targets[k].worker == Finished)
      ensures n.targets[k].result == s.targets[k].result
    {
      OtherStepKeeps(c, s, step, k);
    }
  }

  lemma StepInv(c: Config, s: State, step: Step)
    requires Inv(c, s) && Enabled(c, s, step)
    ensures Inv(c, Apply(c, s, step))
  {
    StepLoopInv(c, s, step);
    StepSlotInv(c, s, step);
    StepFailInv(c, s, step);
    StepSerialInv(c, s, step);
  }

  lemma {:induction false} ReachableInv(c: Config, trace: seq<State>, steps: seq<Step>, i: nat)
    requires IsRun(c, trace, steps) && i < |trace|
    ensures Inv(c, trace[i]) && |trace[i].targets| == |trace[0].targets|
  {
    if i == 0 {
      InitialInv(c, trace[0]);
    } else {
      ReachableInv(c, trace, steps, i - 1);
      RunStep(c, trace, steps, i - 1);
    }
  }

  lemma RunStep(c: Config, trace: seq<State>, steps: seq<Step>, i: nat)
    requires IsRun(c, trace, steps) && i < |steps| && Inv(c, trace[i])
    ensures Inv(c, trace[i + 1]) && |trace[i + 1].targets| == |trace[i].targets|
  {
    assert Enabled(c, trace[i], steps[i]) && trace[i + 1] == Apply(c, trace[i], steps[i]);
    StepInv(c, trace[i], steps[i]);
    OneTargetTouched(c, trace[i], steps[i]);
  }

  /** A result the dispatcher has persisted itself. */
  predicate Persisted(r: Result) { r == Succeeded || r.Outcome? }

  /** In every reachable state a target has been dispatched or given one cancel update, never both nor twice;
      when the run is over, exactly one of the two; no more dispatches are in flight than the limit; a target
      gets at most one update from the coordinator, and none if the dispatcher persisted its result. */
  lemma DispatchOnce(c: Config, trace: seq<State>, steps: seq<Step>, i: nat, k: nat)
    requires IsRun(c, trace, steps) && i < |trace| && k < |trace[i].targets|
    ensures var s, t := trace[i], trace[i].targets[k];
            && t.dispatches + |t.cancels| <= 1
            && (s.main.Done? ==> t.dispatches + |t.cancels| == 1 && (t.dispatches == 1 ==> t.result != NotRun))
            && InFlight(s.targets) <= c.limit
            && |t.updates| + |t.cancels| <= 1
            && (Persisted(t.result) ==> t.updates == [] && t.cancels == [])
            && (t.result == Error && s.main.Done? ==> |t.updates| == 1)
  {
    ReachableInv(c, trace, steps, i);
    InFlightBusy(trace[i].targets);
    assert TargetOk(trace[i].targets[k]);
  }

  /** As configured: never more dispatches in flight than max(1, MaxConcurrency), and with MaxConcurrency of at most
      one and FAIL_FAST the dispatched targets are a prefix of which all but the last succeeded. */
  lemma ConfiguredBounds(maxConcurrency: int, policy: string, trace: seq<State>, steps: seq<Step>, i: nat)
    requires IsRun(MakeConfig(maxConcurrency, policy), trace, steps) && i < |trace|
    ensures InFlight(trace[i].targets) <= if maxConcurrency > 1 then maxConcurrency else 1
    ensures maxConcurrency <= 1 && policy == "FAIL_FAST" ==>
      forall k, m :: 0 <= k < m < |trace[i].targets| && trace[i].targets[m].dispatches > 0 ==>
        trace[i].targets[k].dispatches == 1 && !Failed(trace[i].targets[k].result)
    ensures !trace[i].main.Done? ==> exists step :: !IsEnvironment(step) && Enabled(MakeConfig(maxConcurrency, policy), trace[i], step)
  {
    var c := MakeConfig(maxConcurrency, policy);
    ReachableInv(c, trace, steps, i);
    InFlightBusy(trace[i].targets);
    if maxConcurrency <= 1 && policy == "FAIL_FAST" {
      forall k, m | 0 <= k < m < |trace[i].targets| && trace[i].targets[m].dispatches > 0
        ensures trace[i].targets[k].dispatches == 1 && !Failed(trace[i].targets[k].result)
      {
        FailFastPrefix(c, trace, steps, i, k, m);
      }
    }
    if !trace[i].main.Done? {
      var step := NoDeadlock(c, trace[i]);
    }
  }

  lemma StepKeepsResult(c: Config, s: State, step: Step, k: nat)
    requires LoopInv(s) && Enabled(c, s, step) && k < |s.targets| && s.targets[k].result != NotRun
    ensures k < |Apply(c, s, step).targets| && Apply(c, s, step).targets[k].result == s.targets[k].result
  {
    assert TargetOk(s.targets[k]);
  }

  /** A returned result stays what it was. */
  lemma {:induction false} ResultStays(c: Config, trace: seq<State>, steps: seq<Step>, i: nat, j: nat, k: nat)
    requires IsRun(c, trace, steps) && i <= j < |trace| && k < |trace[i].targets| && trace[i].targets[k].result != NotRun
    ensures k < |trace[j].targets| && trace[j].targets[k].result == trace[i].targets[k].result
  {
    if i < j {
      ResultStays(c, trace, steps, i, j - 1, k);
      ReachableInv(c, trace, steps, j - 1);
      StepKeepsResult(c, trace[j - 1], steps[j - 1], k);
    }
  }

  /** Fail-fast with one slot: the dispatched targets are a prefix, and all but the last of them succeeded. */
  lemma FailFastPrefix(c: Config, trace: seq<State>, steps: seq<Step>, i: nat, k: nat, m: nat)
    requires IsRun(c, trace, steps) && i < |trace| && k < m < |trace[i].targets| && c.limit == 1 && c.failFast
    requires trace[i].targets[m].dispatches > 0
    ensures trace[i].targets[k].dispatches == 1 && trace[i].targets[k].worker == Finished
    ensures !Failed(trace[i].targets[k].result)
  {
    ReachableInv(c, trace, steps, i);
    assert TargetOk(trace[i].targets[m]) && TargetOk(trace[i].targets[k]);
  }

  /** A target is skipped only in a fail-fast run in which some target failed. */
  lemma SkippedAfterFailure(c: Config, trace: seq<State>, steps: seq<Step>, i: nat, k: nat)
    requires IsRun(c, trace, steps) && i < |trace| && k < |trace[i].targets| && Skipped in trace[i].targets[k].cancels
    ensures c.failFast && exists m :: 0 <= m < |trace[i].targets| && Failed(trace[i].targets[m].result)
  {
    ReachableInv(c, trace, steps, i);
  }

  // ---- every run ends -----------------------------------------------------------------------------------

  /** Until the run is over, the loop or some worker can move. */
  lemma NoDeadlock(c: Config, s: State) returns (step: Step)
    requires Inv(c, s) && c.limit >= 1 && !s.main.Done?
    ensures !IsEnvironment(step) && Enabled(c, s, step)
  {
    if k :| 0 <= k < |s.targets| && Busy(s.targets[k]) {
      SomeBusy(s.targets, k);
      match s.targets[k].worker
      case Spawned => step := Start(k);
      case Dispatching => step := Return(k, Succeeded);
      case Errored => step := Classify(k);
      case Classifying => step := ReadStatus(k);
      case Updating(_) => step := Update(k);
      case Flagging => step := SetFlag(k);
      case Cancelling => step := CancelContext(k);
      case Releasing => step := Release(k);
    } else {
      forall t | t in s.targets
        ensures !Busy(t)
      {
        var k :| 0 <= k < |s.targets| && s.targets[k] == t;
      }
      NoneBusy(s.targets);
      match s.main
      case Loop(i) => step := if i < |s.targets| then Acquire else LoopEnd;
      case Holding(i) => step := if RunDone(s) then CheckCanceled else Spawn;
      case CancelRest(i, j) => step := if j < |s.targets| then CancelOne else CancelEnd;
      case Waiting(i) => step := Join;
    }
  }

  function WorkerRank(w: Worker): nat {
    match w
    case Idle => 10 case Spawned => 9 case Dispatching => 8 case Errored => 7 case Classifying => 6
    case Updating(_) => 5 case Flagging => 4 case Cancelling => 3 case Releasing => 2 case Finished => 0
  }

  function TargetsRank(ts: seq<Target>): nat {
    if ts == [] then 0 else WorkerRank(ts[0].worker) + TargetsRank(ts[1..])
  }

  function MainRank(m: Main, n: int): int {
    match m
    case Loop(i) => 3 * (n - i) + 5
    case Holding(i) => 3 * (n - i) + 4
    case CancelRest(i, j) => n - j + 3
    case Waiting(_) => 2
    case Done(_) => 0
  }

  function Rank(s: State): int {
    MainRank(s.main, |s.targets|) + TargetsRank(s.targets) + if s.lease == Active then 1 else 0
  }

  lemma {:induction false} RankUpdate(ts: seq<Target>, k: nat, t: Target)
    requires k < |ts|
    ensures TargetsRank(ts[k := t]) == TargetsRank(ts) - WorkerRank(ts[k].worker) + WorkerRank(t.worker)
  {
    if k == 0 {
      assert ts[0 := t][1..] == ts[1..];
    } else {
      assert ts[k := t][1..] == ts[1..][k - 1 := t];
      RankUpdate(ts[1..], k - 1, t);
    }
  }

  lemma TouchedDescends(c: Config, s: State, step: Step)
    requires LoopInv(s) && Enabled(c, s, step) && Touched(s, step) >= 0
    ensures var n, k := Apply(c, s, step), Touched(s, step);
            && k < |n.targets| && n.lease == s.lease
            && WorkerRank(n.targets[k].worker) + MainRank(n.main, |s.targets|)
               < WorkerRank(s.targets[k].worker) + MainRank(s.main, |s.targets|)
  {
    if IsWorkerStep(step) {
      WorkerDescends(c, s, step);
    } else {
      LoopTouchDescends(c, s, step);
    }
  }

  lemma WorkerDescends(c: Config, s: State, step: Step)
    requires Enabled(c, s, step) && IsWorkerStep(step)
    ensures
      var n := Apply(c, s, step);
      n.main == s.main && n.lease == s.lease && |n.targets| == |s.targets| &&
      WorkerRank(n.targets[step.k].worker) < WorkerRank(s.targets[step.k].worker)
  {
  }

  lemma LoopTouchDescends(c: Config, s: State, step: Step)
    requires LoopInv(s) && Enabled(c, s, step) && Touched(s, step) >= 0 && !IsWorkerStep(step)
    ensures
      var n, k := Apply(c, s, step), Touched(s, step);
      && k < |n.targets| && n.lease == s.lease
      && WorkerRank(n.targets[k].worker) + MainRank(n.main, |s.targets|)
         < WorkerRank(s.targets[k].worker) + MainRank(s.main, |s.targets|)
  {
  }

  lemma StepDescends(c: Config, s: State, step: Step)
    requires LoopInv(s) && Enabled(c, s, step)
    ensures Rank(Apply(c, s, step)) < Rank(s)
  {
    OneTargetTouched(c, s, step);
    if Touched(s, step) >= 0 {
      TouchedDescends(c, s, step);
      RankUpdate(s.targets, Touched(s, step), Apply(c, s, step).targets[Touched(s, step)]);
    }
  }

  lemma {:induction false} IdleRank(ts: seq<Target>)
    requires forall t :: t in ts ==> t.worker == Idle
    ensures TargetsRank(ts) == 10 * |ts|
  {
    if ts != [] { IdleRank(ts[1..]); }
  }

  lemma RankNonNegative(s: State)
    requires LoopInv(s)
    ensures Rank(s) >= 0
  {
  }

  lemma InitialRank(s: State)
    requires Initial(s)
    ensures Rank(s) <= 13 * |s.targets| + 6
  {
    IdleRank(s.targets);
  }

  lemma {:induction false} RankFalls(c: Config, trace: seq<State>, steps: seq<Step>, i: nat)
    requires IsRun(c, trace, steps) && i < |trace|
    ensures i + Rank(trace[i]) <= Rank(trace[0])
  {
    if i > 0 {
      RankFalls(c, trace, steps, i - 1);
      ReachableInv(c, trace, steps, i - 1);
      StepDescends(c, trace[i - 1], steps[i - 1]);
    }
  }

  /** No run takes more than 13 steps per target and 6 besides. */
  lemma RunsEnd(c: Config, trace: seq<State>, steps: seq<Step>)
    requires IsRun(c, trace, steps)
    ensures |steps| <= 13 * |trace[0].targets| + 6
  {
    RankFalls(c, trace, steps, |steps|);
    ReachableInv(c, trace, steps, |steps|);
    RankNonNegative(trace[|steps|]);
    InitialRank(trace[0]);
  }
}
