/** The dispatch of one frozen backup run: a loop that takes a semaphore slot per target and starts a worker,
  workers that report failures, a lease, and fail-fast cancellation. Every interleaving of the loop, the
  workers and the environment is a sequence of the steps below.

  The dispatcher's contract is assumed: a nil return or a TaskOutcomeError means that it has already
  persisted the task's result, any other error that it has not.
*/
module Dispatch {

  datatype Status = Timeout | Skipped | Unavailable

  /** How the dispatch of a target came back. */
  datatype Result = NotRun | Succeeded | Outcome(success: bool) | Error

  datatype Worker =
    | Idle                      // not started
    | Spawned                   // goroutine started, dispatcher not yet called
    | Dispatching
    | Errored                   // plain error returned, cancellation not yet looked at
    | Classifying               // cancellation seen, status not yet read
    | Updating(status: Status)
    | Flagging                  // about to set the fail-fast flag
    | Cancelling                // flag set, about to cancel the run's context
    | Releasing                 // about to give the slot back
    | Finished

  datatype Target = Target(worker: Worker, result: Result, dispatches: nat, cancels: seq<Status>, updates: seq<Status>)

  datatype Main =
    | Loop(i: nat)              // at target i, waiting for a slot or for cancellation
    | Holding(i: nat)           // slot taken for target i
    | CancelRest(i: nat, j: nat)// cancelling targets i onwards, now at j
    | Waiting(i: nat)           // waiting for the workers of targets before i
    | Done(i: nat)

  datatype Lease = Active | Expired | Canceled

  datatype State = State(main: Main, targets: seq<Target>, held: nat, lease: Lease, flag: bool, canceled: bool)

  datatype Config = Config(limit: nat, failFast: bool)

  /** MaxConcurrency <= 0 counts as 1. */
  function MakeConfig(maxConcurrency: int, unavailablePolicy: string): Config {
    Config(if maxConcurrency <= 0 then 1 else maxConcurrency, unavailablePolicy == "FAIL_FAST")
  }

  predicate RunDone(s: State) { s.lease != Active || s.canceled }

  function StatusAfterCancel(s: State): Status {
    if s.lease == Expired then Timeout else if s.flag then Skipped else Unavailable
  }

  predicate Failed(r: Result) { r == Error || r == Outcome(false) }

  datatype Step =
    | Acquire | SeeDone | LoopEnd | CheckCanceled | Spawn | CancelOne | CancelEnd | Join
    | Start(k: nat) | Return(k: nat, result: Result) | Classify(k: nat) | ReadStatus(k: nat) | Update(k: nat)
    | SetFlag(k: nat) | CancelContext(k: nat) | Release(k: nat)
    | LeaseExpires | ParentCancels

  predicate IsEnvironment(step: Step) { step.LeaseExpires? || step.ParentCancels? }

  predicate AtWorker(s: State, k: nat, w: Worker) { k < |s.targets| && s.targets[k].worker == w }

  predicate Enabled(c: Config, s: State, step: Step) {
    match step
    case Acquire => s.main.Loop? && s.main.i < |s.targets| && s.held < c.limit
    case SeeDone => s.main.Loop? && s.main.i < |s.targets| && RunDone(s)
    case LoopEnd => s.main.Loop? && s.main.i >= |s.targets|
    case CheckCanceled => s.main.Holding? && RunDone(s) && s.held > 0
    case Spawn => s.main.Holding? && !RunDone(s) && s.main.i < |s.targets|
    case CancelOne => s.main.CancelRest? && s.main.j < |s.targets|
    case CancelEnd => s.main.CancelRest? && s.main.j >= |s.targets|
    case Join => s.main.Waiting? && forall t :: t in s.targets ==> t.worker == Idle || t.worker == Finished
    case Start(k) => AtWorker(s, k, Spawned)
    case Return(k, r) => AtWorker(s, k, Dispatching) && r != NotRun
    case Classify(k) => AtWorker(s, k, Errored)
    case ReadStatus(k) => AtWorker(s, k, Classifying)
    case Update(k) => k < |s.targets| && s.targets[k].worker.Updating?
    case SetFlag(k) => AtWorker(s, k, Flagging)
    case CancelContext(k) => AtWorker(s, k, Cancelling)
    case Release(k) => AtWorker(s, k, Releasing) && s.held > 0
    case LeaseExpires => s.lease == Active
    case ParentCancels => s.lease == Active
  }

  function SetTarget(s: State, k: nat, t: Target): State
    requires k < |s.targets|
  {
    s.(targets := s.targets[k := t])
  }

  function SetWorker(s: State, k: nat, w: Worker): State
    requires k < |s.targets|
  {
    SetTarget(s, k, s.targets[k].(worker := w))
  }

  function Apply(c: Config, s: State, step: Step): State
    requires Enabled(c, s, step)
  {
    match step
    case Acquire => s.(main := Holding(s.main.i), held := s.held + 1)
    case SeeDone => s.(main := CancelRest(s.main.i, s.main.i))
    case LoopEnd => s.(main := Waiting(s.main.i))
    case CheckCanceled => s.(main := CancelRest(s.main.i, s.main.i), held := s.held - 1)
    case Spawn => SetWorker(s, s.main.i, Spawned).(main := Loop(s.main.i + 1))
    case CancelOne =>
      var t := s.targets[s.main.j];
      SetTarget(s, s.main.j, t.(cancels := t.cancels + [StatusAfterCancel(s)])).(main := CancelRest(s.main.i, s.main.j + 1))
    case CancelEnd => s.(main := Waiting(s.main.i))
    case Join => s.(main := Done(s.main.i))
    case Start(k) =>
      SetTarget(s, k, s.targets[k].(worker := Dispatching, dispatches := s.targets[k].dispatches + 1))
    case Return(k, r) =>
      var next :=
        if r == Error then Errored
        else if r == Outcome(false) && c.failFast then Flagging
        else Releasing;
      SetTarget(s, k, s.targets[k].(worker := next, result := r))
    case Classify(k) => SetWorker(s, k, if RunDone(s) then Classifying else Updating(Unavailable))
    case ReadStatus(k) => SetWorker(s, k, Updating(StatusAfterCancel(s)))
    case Update(k) =>
      var t := s.targets[k];
      var next := if c.failFast && t.worker.status != Timeout then Flagging else Releasing;
      SetTarget(s, k, t.(worker := next, updates := t.updates + [t.worker.status]))
    case SetFlag(k) => SetWorker(s, k, Cancelling).(flag := true)
    case CancelContext(k) => SetWorker(s, k, Releasing).(canceled := true)
    case Release(k) => SetWorker(s, k, Finished).(held := s.held - 1)
    case LeaseExpires => s.(lease := Expired)
    case ParentCancels => s.(lease := Canceled)
  }

  /** A fresh run; its lease may already be over. */
  predicate Initial(s: State) {
    && s.main == Loop(0) && s.held == 0 && !s.flag && !s.canceled
    && forall t :: t in s.targets ==> t == Target(Idle, NotRun, 0, [], [])
  }

  /** trace is the states of a run that takes the given steps from its first state. */
  ghost predicate IsRun(c: Config, trace: seq<State>, steps: seq<Step>) {
    && |trace| == |steps| + 1 && Initial(trace[0])
    && forall i {:trigger steps[i]} :: 0 <= i < |steps| ==> Enabled(c, trace[i], steps[i]) && trace[i + 1] == Apply(c, trace[i], steps[i])
  }
}
