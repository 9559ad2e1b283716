/** A batch over time: one worker loop that runs it with bounded parallelism, API calls that retry and
  replay at any moment, shutdown, crash and resume.
*/
module BatchMachine {
  import opened BatchTypes
  import opened BatchEngine

  /** A target's goroutine in the current run, with the operation it was started for. */
  datatype Worker = NotScheduled | Waiting(op: nat) | Begun(op: nat) | Ended

  /** The worker loop: idle, about to mark the batch running, or running it. */
  datatype Run = NoRun | Starting(workers: seq<Worker>, summary: Summary) | InRun(workers: seq<Worker>)

  datatype State = State(db: Db, queued: nat, run: Run, shutdown: bool)

  datatype Step =
    | Dequeue                                  // take the job, read the batch
    | MarkRunning                              // write RUNNING
    | Begin(k: nat)                            // take a slot, write the target RUNNING
    | Finish(k: nat, result: TargetStatus, error: string)
    | Abort(k: nat)                            // stopped by shutdown, row left as it is
    | Finalize                                 // read, roll up, write
    | GiveUp                                   // the run ends under shutdown without a final write
    | Shutdown | Crash | Resume | RetryFailed | ReplayTimeout

  predicate IsActive(w: Worker) { w.Waiting? || w.Begun? }

  function BegunCount(ws: seq<Worker>): nat {
    if ws == [] then 0 else (if ws[0].Begun? then 1 else 0) + BegunCount(ws[1..])
  }

  /** 16 by default, 64 at most. */
  function Limit(concurrency: int): nat {
    if concurrency <= 0 then 16 else if concurrency > 64 then 64 else concurrency
  }

  /** A goroutine for every target that is not final when the run reads the batch. */
  function Schedule(rows: seq<Target>): seq<Worker> {
    seq(|rows|, k requires 0 <= k < |rows| => if Incomplete(rows[k].status) then Waiting(rows[k].op) else NotScheduled)
  }

  predicate Quiet(ws: seq<Worker>) { forall w :: w in ws ==> !IsActive(w) }

  predicate Enabled(limit: nat, s: State, step: Step) {
    match step
    case Dequeue => s.run == NoRun && s.queued > 0 && !s.shutdown
    case MarkRunning => s.run.Starting? && !s.shutdown
    case Begin(k) => s.run.InRun? && !s.shutdown && k < |s.run.workers| && s.run.workers[k].Waiting? && BegunCount(s.run.workers) < limit
    case Finish(k, result, _) => s.run.InRun? && k < |s.run.workers| && s.run.workers[k].Begun? && !Incomplete(result)
    case Abort(k) => s.shutdown && s.run.InRun? && k < |s.run.workers| && IsActive(s.run.workers[k])
    case Finalize => !s.shutdown && s.run.InRun? && Quiet(s.run.workers)
    case GiveUp => s.shutdown && (s.run.Starting? || (s.run.InRun? && Quiet(s.run.workers)))
    case Shutdown => true
    case Crash => true
    case Resume => SomeStatus(s.db.rows, Incomplete)
    case RetryFailed => SomeStatus(s.db.rows, Retryable)
    case ReplayTimeout => exists t :: t in s.db.rows && t.status == Timeout
  }

  function Apply(limit: nat, s: State, step: Step): State
    requires Enabled(limit, s, step)
  {
    match step
    case Dequeue =>
      if Final(s.db.status) then s.(queued := s.queued - 1)
      else s.(queued := s.queued - 1, run := Starting(Schedule(s.db.rows), s.db.summary))
    case MarkRunning =>
      s.(db := s.db.(status := BatchRunning, summary := s.run.summary), run := InRun(s.run.workers))
    case Begin(k) =>
      var op := s.run.workers[k].op;
      s.(db := s.db.(rows := WriteByOp(s.db.rows, op, Running, "")), run := InRun(s.run.workers[k := Begun(op)]))
    case Finish(k, result, error) =>
      s.(db := s.db.(rows := WriteByOp(s.db.rows, s.run.workers[k].op, result, error)), run := InRun(s.run.workers[k := Ended]))
    case Abort(k) => s.(run := InRun(s.run.workers[k := Ended]))
    case Finalize => s.(db := Finalized(s.db), run := NoRun)
    case GiveUp => s.(run := NoRun)
    case Shutdown => s.(shutdown := true)
    case Crash => s.(queued := 0, run := NoRun, shutdown := false)
    case Resume => s.(queued := s.queued + 1)
    case RetryFailed => s.(db := Retry(s.db), queued := s.queued + 1)
    case ReplayTimeout => s.(db := Replay(s.db), queued := s.queued + 1)
  }

  /** A batch just created and enqueued. */
  ghost predicate Initial(s: State) {
    && s.run == NoRun && s.queued == 1 && !s.shutdown
    && exists raw, firstId: nat :: s.db == Created(raw, firstId)
  }

  function Created(raw: seq<Expanded>, firstId: nat): Db {
    var rows := NewRows(raw, firstId + 1);
    Db(rows, BatchPending, SummaryOf(rows), firstId + 1 + |rows|)
  }

  ghost predicate IsRun(limit: nat, trace: seq<State>, steps: seq<Step>) {
    && |trace| == |steps| + 1 && Initial(trace[0])
    && forall i {:trigger steps[i]} :: 0 <= i < |steps| ==> Enabled(limit, trace[i], steps[i]) && trace[i + 1] == Apply(limit, trace[i], steps[i])
  }
}
