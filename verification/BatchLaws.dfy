/** What holds in every reachable state of a batch, and what never changes. */
module BatchLaws {
  import opened BatchTypes
  import opened BatchEngine
  import opened BatchMachine

  ghost predicate DistinctOps(db: Db) {
    && (forall k :: 0 <= k < |db.rows| ==> db.rows[k].op < db.nextId)
    && (forall k, m :: 0 <= k < m < |db.rows| ==> db.rows[k].op != db.rows[m].op)
  }

  /** A final batch tells the truth about its targets and no run is at work on it. */
  ghost predicate FinalInv(s: State) {
    Final(s.db.status) ==>
      s.run == NoRun && s.db.status == StatusOf(s.db.rows) && s.db.summary == SummaryOf(s.db.rows)
  }

  /** An active goroutine's target is still incomplete and under the operation it was started for. */
  ghost predicate RunInv(limit: nat, s: State) {
    s.run != NoRun ==>
      && |s.run.workers| == |s.db.rows| && BegunCount(s.run.workers) <= limit
      && (s.run.Starting? ==> BegunCount(s.run.workers) == 0)
      && forall k :: 0 <= k < |s.db.rows| && IsActive(s.run.workers[k]) ==>
           s.db.rows[k].op == s.run.workers[k].op && Incomplete(s.db.rows[k].status)
  }

  ghost predicate Inv(limit: nat, s: State) { DistinctOps(s.db) && FinalInv(s) && RunInv(limit, s) }

  lemma {:induction false} NewRowsOps(raw: seq<Expanded>, firstOp: nat)
    ensures forall k :: 0 <= k < |NewRows(raw, firstOp)| ==> NewRows(raw, firstOp)[k].op == firstOp + k
  {
    if raw != [] {
      var init, rows := NewRows(raw[..|raw| - 1], firstOp), NewRows(raw, firstOp);
      NewRowsOps(raw[..|raw| - 1], firstOp);
      forall k | 0 <= k < |rows|
        ensures rows[k].op == firstOp + k
      {
        if k < |init| {
          assert rows[k] == init[k];
        } else {
          assert rows == init + [NewRow(raw[|raw| - 1], firstOp + |init|)];
        }
      }
    }
  }

  lemma InitialInv(limit: nat, s: State)
    requires Initial(s)
    ensures Inv(limit, s)
  {
    var raw, firstId: nat :| s.db == Created(raw, firstId);
    NewRowsOps(raw, firstId + 1);
    assert forall k :: 0 <= k < |s.db.rows| ==> s.db.rows[k].op == firstId + 1 + k;
  }

  lemma {:induction false} BegunUpdate(ws: seq<Worker>, k: nat, w: Worker)
    requires k < |ws|
    ensures BegunCount(ws[k := w]) == BegunCount(ws) - (if ws[k].Begun? then 1 else 0) + (if w.Begun? then 1 else 0)
  {
    if k == 0 {
      assert ws[0 := w][1..] == ws[1..];
    } else {
      assert ws[k := w][1..] == ws[1..][k - 1 := w];
      BegunUpdate(ws[1..], k - 1, w);
    }
  }

  lemma {:induction false} NoneBegun(ws: seq<Worker>)
    requires forall k :: 0 <= k < |ws| ==> !ws[k].Begun?
    ensures BegunCount(ws) == 0
  {
    if ws != [] { NoneBegun(ws[1..]); }
  }

  /** Writing by operation changes the one row that has it. */
  lemma WriteChangesOne(db: Db, k: nat, status: TargetStatus, error: string)
    requires DistinctOps(db) && k < |db.rows|
    ensures WriteByOp(db.rows, db.rows[k].op, status, error) == db.rows[k := db.rows[k].(status := status, error := error)]
  {
  }

  /** Retrying: fresh distinct operations for the definite failures, everything else untouched. */
  lemma RetryOps(db: Db)
    requires DistinctOps(db)
    ensures DistinctOps(Retry(db))
    ensures forall k :: 0 <= k < |db.rows| ==>
              if Retryable(db.rows[k].status)
              then Retry(db).rows[k].op >= db.nextId && Retry(db).rows[k].status == Pending
              else Retry(db).rows[k] == db.rows[k]
  {
    forall k | 0 <= k < |db.rows| && Retryable(db.rows[k].status)
      ensures RetryableBefore(db.rows, k) < RetryableCount(db.rows)
    {
      RetryableCounted(db.rows, k + 1);
    }
    forall k, m | 0 <= k < m < |db.rows| && Retryable(db.rows[k].status)
      ensures RetryableBefore(db.rows, k) < RetryableBefore(db.rows, m)
    {
      BeforeGrows(db.rows, k, m);
    }
  }

  lemma {:induction false} BeforeGrows(rows: seq<Target>, k: nat, m: nat)
    requires k < m <= |rows| && Retryable(rows[k].status)
    ensures RetryableBefore(rows, k) < RetryableBefore(rows, m)
  {
    if k + 1 < m { BeforeGrows(rows, k, m - 1); }
  }

  /** How a step may change row k: not at all once it succeeded, and its operation only after a definite
      failure, to a fresh one. */
  lemma RowChange(limit: nat, s: State, step: Step, k: nat)
    requires Inv(limit, s) && Enabled(limit, s, step) && k < |s.db.rows|
    ensures var n := Apply(limit, s, step);
            && |n.db.rows| == |s.db.rows| && n.db.nextId >= s.db.nextId
            && (s.db.rows[k].status == Success ==> n.db.rows[k] == s.db.rows[k])
            && (n.db.rows[k].op != s.db.rows[k].op ==>
                  step == RetryFailed && Retryable(s.db.rows[k].status) && n.db.rows[k].op >= s.db.nextId)
  {
    if IsWorkerStep(step) {
      WorkerRowChange(limit, s, step, k);
    } else if step == RetryFailed {
      RetryOps(s.db);
    } else {
      OtherRowChange(limit, s, step, k);
    }
  }

  lemma WorkerRowChange(limit: nat, s: State, step: Step, k: nat)
    requires Inv(limit, s) && Enabled(limit, s, step) && IsWorkerStep(step) && k < |s.db.rows|
    ensures var n := Apply(limit, s, step);
            && |n.db.rows| == |s.db.rows| && n.db.nextId == s.db.nextId && n.db.rows[k].op == s.db.rows[k].op
            && (s.db.rows[k].status == Success ==> n.db.rows[k] == s.db.rows[k])
  {
    match step
    case Begin(j) => WriteChangesOne(s.db, j, Running, "");
    case Finish(j, result, error) => WriteChangesOne(s.db, j, result, error);
    case _ =>
  }

  lemma OtherRowChange(limit: nat, s: State, step: Step, k: nat)
    requires Enabled(limit, s, step) && !IsWorkerStep(step) && step != RetryFailed && k < |s.db.rows|
    ensures var n := Apply(limit, s, step);
            && |n.db.rows| == |s.db.rows| && n.db.nextId == s.db.nextId && n.db.rows[k].op == s.db.rows[k].op
            && (s.db.rows[k].status == Success ==> n.db.rows[k] == s.db.rows[k])
  {
  }

  lemma StepOps(limit: nat, s: State, step: Step)
    requires Inv(limit, s) && Enabled(limit, s, step)
    ensures DistinctOps(Apply(limit, s, step).db)
  {
    match step
    case Begin(j) => WriteKeepsOps(s.db, j, Running, "");
    case Finish(j, result, error) => WriteKeepsOps(s.db, j, result, error);
    case RetryFailed => RetryOps(s.db);
    case ReplayTimeout => ReplayKeepsOps(s.db);
    case _ =>
  }

  lemma WriteKeepsOps(db: Db, k: nat, status: TargetStatus, error: string)
    requires DistinctOps(db) && k < |db.rows|
    ensures DistinctOps(db.(rows := WriteByOp(db.rows, db.rows[k].op, status, error)))
  {
    WriteChangesOne(db, k, status, error);
  }

  lemma ReplayKeepsOps(db: Db)
    requires DistinctOps(db)
    ensures DistinctOps(Replay(db))
  {
  }

  lemma StepFinal(limit: nat, s: State, step: Step)
    requires Inv(limit, s) && Enabled(limit, s, step)
    ensures FinalInv(Apply(limit, s, step))
  {
  }

  predicate IsWorkerStep(step: Step) { step.Begin? || step.Finish? || step.Abort? }

  /** A goroutine's step touches its own row and its own entry. */
  lemma WorkerStepLocal(limit: nat, s: State, step: Step)
    requires Inv(limit, s) && Enabled(limit, s, step) && IsWorkerStep(step)
    ensures var n, j := Apply(limit, s, step), step.k;
            && s.run.InRun? && n.run.InRun? && j < |s.run.workers| && |n.run.workers| == |s.run.workers|
            && n.run.workers == s.run.workers[j := n.run.workers[j]]
            && n.db.rows == s.db.rows[j := n.db.rows[j]]
            && (step.Begin? ==> n.run.workers[j] == Begun(n.db.rows[j].op) && n.db.rows[j].status == Running)
            && (!step.Begin? ==> n.run.workers[j] == Ended)
            && (step.Begin? ==> BegunCount(s.run.workers) < limit)
  {
    match step
    case Begin(j) => WriteChangesOne(s.db, j, Running, "");
    case Finish(j, result, error) => WriteChangesOne(s.db, j, result, error);
    case _ =>
  }

  lemma WorkerStepRun(limit: nat, s: State, step: Step)
    requires Inv(limit, s) && Enabled(limit, s, step) && IsWorkerStep(step)
    ensures RunInv(limit, Apply(limit, s, step))
  {
    WorkerStepLocal(limit, s, step);
    BegunUpdate(s.run.workers, step.k, Apply(limit, s, step).run.workers[step.k]);
  }

  lemma ApiStepRun(limit: nat, s: State, step: Step)
    requires Inv(limit, s) && Enabled(limit, s, step) && (step == RetryFailed || step == ReplayTimeout)
    ensures RunInv(limit, Apply(limit, s, step))
  {
    if step == RetryFailed {
      RetryKeepsIncomplete(s.db);
      SameIncompleteRows(limit, s, Retry(s.db));
    } else {
      SameIncompleteRows(limit, s, Replay(s.db));
    }
  }

  lemma RetryKeepsIncomplete(db: Db)
    requires DistinctOps(db)
    ensures |Retry(db).rows| == |db.rows|
    ensures forall k :: 0 <= k < |db.rows| && Incomplete(db.rows[k].status) ==> Retry(db).rows[k] == db.rows[k]
  {
    RetryOps(db);
  }

  /** A run goes on undisturbed when its incomplete rows stay as they are. */
  lemma SameIncompleteRows(limit: nat, s: State, db: Db)
    requires RunInv(limit, s) && |db.rows| == |s.db.rows|
    requires forall k :: 0 <= k < |s.db.rows| && Incomplete(s.db.rows[k].status) ==> db.rows[k] == s.db.rows[k]
    ensures forall queued :: RunInv(limit, s.(db := db, queued := queued))
  {
  }

  lemma StepRun(limit: nat, s: State, step: Step)
    requires Inv(limit, s) && Enabled(limit, s, step)
    ensures RunInv(limit, Apply(limit, s, step))
  {
    if IsWorkerStep(step) {
      WorkerStepRun(limit, s, step);
    } else if step == RetryFailed || step == ReplayTimeout {
      ApiStepRun(limit, s, step);
    } else if step == Dequeue {
      NoneBegun(Schedule(s.db.rows));
    }
  }

  lemma {:induction false} ReachableInv(limit: nat, trace: seq<State>, steps: seq<Step>, i: nat)
    requires IsRun(limit, trace, steps) && i < |trace|
    ensures Inv(limit, trace[i]) && |trace[i].db.rows| == |trace[0].db.rows|
  {
    if i == 0 {
      InitialInv(limit, trace[0]);
    } else {
      ReachableInv(limit, trace, steps, i - 1);
      StepOps(limit, trace[i - 1], steps[i - 1]);
      StepFinal(limit, trace[i - 1], steps[i - 1]);
      StepRun(limit, trace[i - 1], steps[i - 1]);
    }
  }

  /** A batch marked COMPLETED, PARTIAL or FAILED has the status and the counts its targets call for, and the
      counts cover every target; no more than the limit of targets execute at once. */
  lemma FinalIsExact(limit: nat, trace: seq<State>, steps: seq<Step>, i: nat)
    requires IsRun(limit, trace, steps) && i < |trace|
    ensures var db := trace[i].db;
            Final(db.status) ==>
              && db.status == StatusOf(db.rows) && db.summary == SummaryOf(db.rows)
              && db.summary.Total() == |db.rows| && forall t :: t in db.rows ==> !Incomplete(t.status)
    ensures trace[i].run != NoRun ==> BegunCount(trace[i].run.workers) <= limit
  {
    ReachableInv(limit, trace, steps, i);
    SummaryTotals(trace[i].db.rows);
  }

  /** As configured: at most 64 targets execute at once, and 16 when nothing is configured. */
  lemma ExecutingBounded(concurrency: int, trace: seq<State>, steps: seq<Step>, i: nat)
    requires IsRun(Limit(concurrency), trace, steps) && i < |trace| && trace[i].run != NoRun
    ensures BegunCount(trace[i].run.workers) <= 64
    ensures concurrency <= 0 ==> BegunCount(trace[i].run.workers) <= 16
    ensures concurrency > 0 ==> BegunCount(trace[i].run.workers) <= concurrency
  {
    FinalIsExact(Limit(concurrency), trace, steps, i);
  }

  /** A target that succeeded stays as it is through runs, retries, replays, crashes and resumes. */
  lemma {:induction false} SuccessStays(limit: nat, trace: seq<State>, steps: seq<Step>, i: nat, j: nat, k: nat)
    requires IsRun(limit, trace, steps) && i <= j < |trace| && k < |trace[i].db.rows| && trace[i].db.rows[k].status == Success
    ensures k < |trace[j].db.rows| && trace[j].db.rows[k] == trace[i].db.rows[k]
  {
    if i < j {
      SuccessStays(limit, trace, steps, i, j - 1, k);
      ReachableInv(limit, trace, steps, j - 1);
      RowChange(limit, trace[j - 1], steps[j - 1], k);
    }
  }

  /** From one state to a later one a target keeps its operation or has one that was not in use before. */
  lemma {:induction false} OpKeptOrFresh(limit: nat, trace: seq<State>, steps: seq<Step>, i: nat, j: nat, k: nat)
    requires IsRun(limit, trace, steps) && i <= j < |trace| && k < |trace[i].db.rows|
    ensures k < |trace[j].db.rows| && trace[i].db.nextId <= trace[j].db.nextId
    ensures trace[j].db.rows[k].op == trace[i].db.rows[k].op || trace[j].db.rows[k].op >= trace[i].db.nextId
  {
    if i < j {
      OpKeptOrFresh(limit, trace, steps, i, j - 1, k);
      ReachableInv(limit, trace, steps, j - 1);
      RowChange(limit, trace[j - 1], steps[j - 1], k);
    }
  }

  /** An operation belongs to one target for good: across the whole run, two targets never share one. */
  lemma OperationsNeverShared(limit: nat, trace: seq<State>, steps: seq<Step>, i: nat, j: nat, k: nat, m: nat)
    requires IsRun(limit, trace, steps) && i <= j < |trace| && k < |trace[i].db.rows| && m < |trace[j].db.rows|
    requires trace[i].db.rows[k].op == trace[j].db.rows[m].op
    ensures k == m
  {
    ReachableInv(limit, trace, steps, i);
    ReachableInv(limit, trace, steps, j);
    OpKeptOrFresh(limit, trace, steps, i, j, m);
  }

  /** A target's operation changes only when it had definitely failed: running, crashing, resuming and
      replaying a timeout all reuse it. */
  lemma OperationChange(limit: nat, trace: seq<State>, steps: seq<Step>, i: nat, k: nat)
    requires IsRun(limit, trace, steps) && i < |steps| && k < |trace[i].db.rows|
    ensures k < |trace[i + 1].db.rows|
    ensures trace[i + 1].db.rows[k].op != trace[i].db.rows[k].op ==>
              steps[i] == RetryFailed && Retryable(trace[i].db.rows[k].status)
  {
    ReachableInv(limit, trace, steps, i);
    RowChange(limit, trace[i], steps[i], k);
  }

  // ---- work is not lost, unless a crash falls between the last target and the final write ---------------

  /** A batch that is not final is queued or being run, and no incomplete target is without either. */
  ghost predicate Live(s: State) {
    && !s.shutdown
    && (!Final(s.db.status) ==> s.queued > 0 || s.run != NoRun)
    && (s.run != NoRun ==> forall k :: 0 <= k < |s.db.rows| && k < |s.run.workers| && Incomplete(s.db.rows[k].status) ==>
          IsActive(s.run.workers[k]) || s.queued > 0)
  }

  lemma StepLive(limit: nat, s: State, step: Step)
    requires Inv(limit, s) && Live(s) && Enabled(limit, s, step) && step != Shutdown && step != Crash
    ensures Live(Apply(limit, s, step))
  {
    if IsWorkerStep(step) {
      WorkerStepLocal(limit, s, step);
      assert step.Finish? ==> !Incomplete(Apply(limit, s, step).db.rows[step.k].status) by {
        if step.Finish? { WriteChangesOne(s.db, step.k, step.result, step.error); }
      }
    } else if step == Finalize {
      FinalizeLive(s);
    }
  }

  lemma FinalizeLive(s: State)
    requires Live(s) && s.run.InRun? && |s.run.workers| == |s.db.rows| && Quiet(s.run.workers)
    ensures Final(StatusOf(s.db.rows)) || s.queued > 0
  {
    if t :| t in s.db.rows && Incomplete(t.status) {
      var k :| 0 <= k < |s.db.rows| && s.db.rows[k] == t;
      assert s.run.workers[k] in s.run.workers;
    }
  }

  /** Without shutdown or crash, a batch that is not final is always queued or being run. */
  lemma {:induction false} NeverLost(limit: nat, trace: seq<State>, steps: seq<Step>, i: nat)
    requires IsRun(limit, trace, steps) && i < |trace|
    requires Shutdown !in steps[..i] && Crash !in steps[..i]
    ensures Live(trace[i])
  {
    if i > 0 {
      assert steps[..i - 1] == steps[..i][..i - 1] && steps[i - 1] == steps[..i][i - 1];
      NeverLost(limit, trace, steps, i - 1);
      ReachableInv(limit, trace, steps, i - 1);
      StepLive(limit, trace[i - 1], steps[i - 1]);
    }
  }

  /** Resume after a crash puts the batch back to work exactly when some target is incomplete. */
  lemma CrashRecovery(limit: nat, s: State)
    requires Inv(limit, s)
    ensures var c := Apply(limit, s, Crash);
            && (Enabled(limit, c, Resume) <==> exists t :: t in s.db.rows && Incomplete(t.status))
            && (Enabled(limit, c, Resume) ==> Live(Apply(limit, c, Resume)))
            && (!Live(c) <==> !Final(s.db.status))
  {
  }

  /** Every target succeeded, the final write is missing, and nothing is queued. */
  ghost predicate Stranded(s: State) {
    s.run == NoRun && s.queued == 0 && !Final(s.db.status) && forall t :: t in s.db.rows ==> t.status == Success
  }

  /** No step, Resume included, ever gets a stranded batch to its final status. */
  lemma StrandedForever(limit: nat, s: State, step: Step)
    requires Stranded(s) && Enabled(limit, s, step)
    ensures Stranded(Apply(limit, s, step)) && Apply(limit, s, step).db == s.db
  {
  }

  /** A batch left without queue and run is stranded exactly when nothing anyone can do queues it again: an
      incomplete target would let Resume do it, a failure RetryFailed, a timeout ReplayTimeout. */
  lemma StrandedExactly(limit: nat, s: State)
    requires s.run == NoRun && s.queued == 0 && !Final(s.db.status)
    ensures Stranded(s) <==> forall step :: Enabled(limit, s, step) ==> Apply(limit, s, step).queued == 0
  {
    if t :| t in s.db.rows && t.status != Success {
      var step := if Incomplete(t.status) then Resume else if Retryable(t.status) then RetryFailed else ReplayTimeout;
      assert Enabled(limit, s, step) && Apply(limit, s, step).queued == 1;
    }
  }

  /** Such a state is reached by a crash right after the last target. */
  lemma StrandedReachable(limit: nat) returns (trace: seq<State>, steps: seq<Step>)
    requires limit > 0
    ensures IsRun(limit, trace, steps) && Stranded(trace[|steps|]) && |trace[|steps|].db.rows| == 1
  {
    var raw := [Expanded("n", "p", "", None, "")];
    assert raw[..0] == [];
    assert NewRows(raw, 1) == [NewRow(raw[0], 1)];
    var s0 := State(Created(raw, 0), 1, NoRun, false);
    assert s0.db.rows == [Target(1, "n", "p", Pending, "")];
    assert Initial(s0);
    var s1 := Apply(limit, s0, Dequeue);
    assert s1.run.workers == [Waiting(1)];
    var s2 := Apply(limit, s1, MarkRunning);
    assert BegunCount([Waiting(1)][1..]) == 0;
    var s3 := Apply(limit, s2, Begin(0));
    assert s3.db.rows == [Target(1, "n", "p", Running, "")];
    var s4 := Apply(limit, s3, Finish(0, Success, ""));
    assert s4.db.rows == [Target(1, "n", "p", Success, "")];
    var s5 := Apply(limit, s4, Crash);
    trace, steps := [s0, s1, s2, s3, s4, s5], [Dequeue, MarkRunning, Begin(0), Finish(0, Success, ""), Crash];
  }
}
