/** What holds after every log of commands: one owner per term, leases respected, targets frozen. */
module BackupClaimLaws {
  import opened BackupClaims

  /** A fire and its run belong together, and the fire's term and lease are the run's while that is going on. */
  ghost predicate FireOk(s: State, key: FireKey) {
    var id := Scheduled(key);
    (key in s.ledger <==> id in s.runs) &&
    (key in s.ledger ==>
      s.ledger[key].runId == id && s.ledger[key].term <= TermOf(s, id) &&
      (!s.runs[id].ended ==> !s.ledger[key].ended && s.ledger[key].lease == s.runs[id].lease))
  }

  ghost predicate Inv(s: State) { forall key :: FireOk(s, key) }

  /** The term that the next owner of a run must exceed. */
  function Fence(s: State, run: RunId): nat {
    if run.Manual? then TermOf(s, run) else if run.key in s.ledger then s.ledger[run.key].term else 0
  }

  lemma UpdateKeepsFire(s: State, cmd: Command, key: FireKey)
    requires Inv(s) && cmd.UpdateTask? && Accepts(s, cmd)
    ensures FireOk(Updated(s, cmd), key)
    ensures Fence(s, Scheduled(key)) <= Fence(Updated(s, cmd), Scheduled(key))
  {
    assert FireOk(s, key);
  }

  lemma RetryKeepsFire(s: State, cmd: Command, key: FireKey)
    requires Inv(s) && cmd.Retry? && Retries(s, cmd)
    ensures FireOk(Retried(s, cmd), key)
    ensures Fence(s, Scheduled(key)) <= Fence(Retried(s, cmd), Scheduled(key))
  {
    assert FireOk(s, key);
  }

  lemma FinishKeepsFire(s: State, cmd: Command, key: FireKey)
    requires Inv(s) && cmd.Finish? && Finishes(s, cmd)
    ensures FireOk(FinishedBy(s, cmd), key)
    ensures Fence(s, Scheduled(key)) <= Fence(FinishedBy(s, cmd), Scheduled(key))
  {
    assert FireOk(s, key);
  }

  lemma ClaimKeepsFire(s: State, cmd: Command, key: FireKey)
    requires Inv(s) && (cmd.ClaimScheduled? || cmd.ClaimRun? || cmd.Create?)
    ensures FireOk(Apply(s, cmd), key)
    ensures Fence(s, Scheduled(key)) <= Fence(Apply(s, cmd), Scheduled(key))
  {
    assert FireOk(s, key);
    if cmd.ClaimScheduled? {
      assert FireOk(s, cmd.key);
    }
  }

  lemma StepKeepsFire(s: State, cmd: Command, key: FireKey)
    requires Inv(s)
    ensures FireOk(Apply(s, cmd), key)
    ensures Fence(s, Scheduled(key)) <= Fence(Apply(s, cmd), Scheduled(key))
  {
    assert FireOk(s, key);
    match cmd
    case UpdateTask(_, _, _, _) => if Accepts(s, cmd) { UpdateKeepsFire(s, cmd, key); }
    case Retry(_, _, _, _) => if Retries(s, cmd) { RetryKeepsFire(s, cmd, key); }
    case Finish(_, _) => if Finishes(s, cmd) { FinishKeepsFire(s, cmd, key); }
    case _ => ClaimKeepsFire(s, cmd, key);
  }

  lemma StepKeepsManual(s: State, cmd: Command, run: RunId)
    requires Inv(s) && run.Manual?
    ensures run in s.runs ==> Fence(s, run) <= Fence(Apply(s, cmd), run)
  {
    if cmd.ClaimScheduled? {
      assert FireOk(s, cmd.key);
    }
  }

  lemma StepKeepsInv(s: State, cmd: Command)
    requires Inv(s)
    ensures Inv(Apply(s, cmd))
    ensures forall run :: run in s.runs ==> Fence(s, run) <= Fence(Apply(s, cmd), run)
    ensures s.runs.Keys <= Apply(s, cmd).runs.Keys
  {
    forall key ensures FireOk(Apply(s, cmd), key) && Fence(s, Scheduled(key)) <= Fence(Apply(s, cmd), Scheduled(key)) {
      StepKeepsFire(s, cmd, key);
    }
    forall run: RunId | run in s.runs ensures Fence(s, run) <= Fence(Apply(s, cmd), run) {
      if run.Manual? {
        StepKeepsManual(s, cmd, run);
      } else {
        assert Fence(s, Scheduled(run.key)) <= Fence(Apply(s, cmd), Scheduled(run.key));
      }
    }
  }

  lemma {:induction false} ReachableInv(log: seq<Command>)
    ensures Inv(After(log))
  {
    if log != [] {
      ReachableInv(log[..|log| - 1]);
      StepKeepsInv(After(log[..|log| - 1]), log[|log| - 1]);
    }
  }

  /** An acquisition is by a term above the fence, sets the fence to it, and finds the run either new or with
      its lease over. */
  lemma AcquisitionFacts(s: State, cmd: Command)
    requires Inv(s) && Acquires(s, cmd)
    ensures RunOf(cmd) in Apply(s, cmd).runs
    ensures RunOf(cmd) in s.runs ==>
            Fence(s, RunOf(cmd)) < cmd.term && !s.runs[RunOf(cmd)].ended && !cmd.Create? && s.runs[RunOf(cmd)].lease <= cmd.now
    ensures Fence(Apply(s, cmd), RunOf(cmd)) == cmd.term == TermOf(Apply(s, cmd), RunOf(cmd))
    ensures Apply(s, cmd).runs[RunOf(cmd)].lease ==
            if cmd.ClaimScheduled? then EffectiveLease(cmd.now, cmd.lease) else cmd.lease
  {
    if RunOf(cmd).Scheduled? {
      assert FireOk(s, RunOf(cmd).key);
    }
  }

  lemma {:induction false} FenceHolds(log: seq<Command>, i: nat, run: RunId)
    requires AcquiredAt(log, i, run)
    ensures run in After(log).runs && log[i].term <= Fence(After(log), run)
    decreases |log|
  {
    var init := log[..|log| - 1];
    ReachableInv(init);
    if i == |log| - 1 {
      AcquisitionFacts(After(init), log[i]);
    } else {
      assert init[..i] == log[..i];
      FenceHolds(init, i, run);
      StepKeepsInv(After(init), log[|log| - 1]);
    }
  }

  /** Over every log, the owners of a run have strictly increasing terms: no term owns a run twice, and an old
      leader never takes one back. */
  lemma OwnersIncrease(log: seq<Command>, i: nat, j: nat, run: RunId)
    requires i < j && AcquiredAt(log, i, run) && AcquiredAt(log, j, run)
    ensures log[i].term < log[j].term
  {
    var before := log[..j];
    assert before[..i] == log[..i];
    FenceHolds(before, i, run);
    ReachableInv(before);
    AcquisitionFacts(After(before), log[j]);
  }

  /** Once a term owns a run, a task report of an older term changes nothing. */
  lemma StaleReportsIgnored(log: seq<Command>, i: nat, run: RunId, cmd: Command)
    requires AcquiredAt(log, i, run) && cmd.UpdateTask? && cmd.run == run && cmd.term < log[i].term
    ensures Apply(After(log), cmd) == After(log)
  {
    FenceHolds(log, i, run);
    ReachableInv(log);
    if run.Scheduled? {
      assert FireOk(After(log), run.key);
    }
  }

  // ---- leases ---------------------------------------------------------------------------------------------

  function LeaseAt(log: seq<Command>, run: RunId): int {
    var s := After(log);
    if run in s.runs then s.runs[run].lease else 0
  }

  predicate NoRetrySince(log: seq<Command>, i: nat, run: RunId) {
    forall k :: i < k < |log| ==> !(log[k].Retry? && log[k].run == run)
  }

  /** The lease of a run moves only when it is acquired or retried. */
  lemma LeaseMoves(s: State, cmd: Command, run: RunId)
    requires Inv(s) && run in s.runs
    requires !(Acquires(s, cmd) && RunOf(cmd) == run) && !(cmd.Retry? && cmd.run == run)
    ensures run in Apply(s, cmd).runs && Apply(s, cmd).runs[run].lease == s.runs[run].lease
  {
    if cmd.ClaimScheduled? {
      assert FireOk(s, cmd.key);
    }
  }

  /** What the lease promised: until it is over on the next owner's own clock, nobody takes the run, whichever
      claims came in between, as long as no operator retried it. */
  lemma {:induction false} LeaseRespected(log: seq<Command>, i: nat, run: RunId, cmd: Command)
    requires AcquiredAt(log, i, run) && NoRetrySince(log, i, run)
    requires Acquires(After(log), cmd) && RunOf(cmd) == run
    ensures !cmd.Create? && LeaseAt(log[..i + 1], run) <= cmd.now
    decreases |log|
  {
    OwnerFindsLeaseOver(log, i, run, cmd);
    var m := LastOwner(log, i, run);
    if m > i {
      var mid := log[..m];
      assert AcquiredAt(mid, i, run) && mid[..i + 1] == log[..i + 1] by { assert mid[..i] == log[..i]; }
      LeaseRespected(mid, i, run, log[m]);
      assert log[..m + 1] == mid + [log[m]];
      LeaseIsAhead(mid, i, run, log[m]);
    }
  }

  lemma OwnerFindsLeaseOver(log: seq<Command>, i: nat, run: RunId, cmd: Command)
    requires AcquiredAt(log, i, run) && Acquires(After(log), cmd) && RunOf(cmd) == run
    ensures !cmd.Create? && LeaseAt(log, run) <= cmd.now
  {
    ReachableInv(log);
    FenceHolds(log, i, run);
    AcquisitionFacts(After(log), cmd);
  }

  lemma LeaseIsAhead(log: seq<Command>, i: nat, run: RunId, cmd: Command)
    requires AcquiredAt(log, i, run) && Acquires(After(log), cmd) && RunOf(cmd) == run
    ensures !cmd.Create? && cmd.now < LeaseAt(log + [cmd], run)
  {
    assert (log + [cmd])[..|log|] == log;
    ReachableInv(log);
    FenceHolds(log, i, run);
    AcquisitionFacts(After(log), cmd);
  }

  /** The last owner, and that the lease is still the one it got. */
  lemma {:induction false} LastOwner(log: seq<Command>, i: nat, run: RunId) returns (m: nat)
    requires AcquiredAt(log, i, run) && NoRetrySince(log, i, run)
    ensures i <= m < |log| && AcquiredAt(log, m, run) && LeaseAt(log[..m + 1], run) == LeaseAt(log, run)
    decreases |log|
  {
    if AcquiredAt(log, |log| - 1, run) {
      m := |log| - 1;
      assert log[..m + 1] == log;
    } else {
      LeaseKeptByLast(log, i, run);
      m := LastOwner(log[..|log| - 1], i, run);
      PrefixOwner(log, m, run);
    }
  }

  lemma LeaseKeptByLast(log: seq<Command>, i: nat, run: RunId)
    requires AcquiredAt(log, i, run) && NoRetrySince(log, i, run) && !AcquiredAt(log, |log| - 1, run)
    ensures
      var before := log[..|log| - 1];
      AcquiredAt(before, i, run) && NoRetrySince(before, i, run) && LeaseAt(before, run) == LeaseAt(log, run)
  {
    var before, cmd := log[..|log| - 1], log[|log| - 1];
    PrefixOwner(log, i, run);
    assert log == before + [cmd];
    LeaseKept(before, i, run, cmd);
  }

  lemma PrefixOwner(log: seq<Command>, m: nat, run: RunId)
    requires m < |log| - 1
    ensures AcquiredAt(log[..|log| - 1], m, run) <==> AcquiredAt(log, m, run)
    ensures log[..|log| - 1][..m + 1] == log[..m + 1]
  {
    assert log[..|log| - 1][..m] == log[..m];
  }

  lemma LeaseKept(before: seq<Command>, i: nat, run: RunId, cmd: Command)
    requires AcquiredAt(before, i, run)
    requires !(Acquires(After(before), cmd) && RunOf(cmd) == run) && !(cmd.Retry? && cmd.run == run)
    ensures LeaseAt(before + [cmd], run) == LeaseAt(before, run)
  {
    assert (before + [cmd])[..|before|] == before;
    ReachableInv(before);
    FenceHolds(before, i, run);
    LeaseMoves(After(before), cmd, run);
  }

  // ---- one run per fire -----------------------------------------------------------------------------------

  /** A fire's run is created once and its targets are frozen then. */
  lemma {:induction false} TargetsFrozen(log: seq<Command>, n: nat, run: RunId)
    requires n <= |log| && run in After(log[..n]).runs
    ensures run in After(log).runs
    ensures After(log).runs[run].targets == After(log[..n]).runs[run].targets
    ensures After(log).runs[run].policy == After(log[..n]).runs[run].policy
    decreases |log|
  {
    if n == |log| {
      assert log[..n] == log;
    } else {
      var init := log[..|log| - 1];
      assert init[..n] == log[..n];
      TargetsFrozen(init, n, run);
      ReachableInv(init);
      StepKeepsTargets(After(init), log[|log| - 1], run);
    }
  }

  lemma StepKeepsTargets(s: State, cmd: Command, run: RunId)
    requires Inv(s) && run in s.runs
    ensures run in Apply(s, cmd).runs && Apply(s, cmd).runs[run].targets == s.runs[run].targets
    ensures Apply(s, cmd).runs[run].policy == s.runs[run].policy
  {
    if cmd.ClaimScheduled? {
      assert FireOk(s, cmd.key);
    }
  }

  // ---- the fence of a run, beside the fire's ---------------------------------------------------------------

  /** A run's own term drops in exactly one case: a takeover by a term below it. So it never drops while commands
      come in term order. */
  lemma TermsGrow(s: State, cmd: Command, run: RunId)
    requires Inv(s) && run in s.runs
    ensures TermOf(Apply(s, cmd), run) < TermOf(s, run) <==>
            TakesOver(s, cmd) && RunOf(cmd) == run && cmd.term < TermOf(s, run)
  {
    if cmd.ClaimScheduled? {
      assert FireOk(s, cmd.key);
    }
  }

  /** It does drop: a report raises the run's term but not the fire's, and a takeover checks the fire's. */
  lemma TermCanDrop()
    ensures
      var key := FireKey("p", 0);
      var log := [ClaimScheduled(key, ["n"], 1, 100, 200, true), UpdateTask(Scheduled(key), "n", InProgress, 5),
                  ClaimScheduled(key, ["n"], 4, 300, 400, true)];
      TermOf(After(log[..2]), Scheduled(key)) == 5 && TermOf(After(log), Scheduled(key)) == 4
  {
    var key := FireKey("p", 0);
    var c0, c1, c2 := ClaimScheduled(key, ["n"], 1, 100, 200, true), UpdateTask(Scheduled(key), "n", InProgress, 5),
                      ClaimScheduled(key, ["n"], 4, 300, 400, true);
    var log := [c0, c1, c2];
    assert log[..2] == [c0, c1] && log[..2][..1] == [c0] && [c0][..0] == [];
    var s1 := Apply(Empty(), c0);
    assert After([c0]) == s1;
    assert Accepts(s1, c1) && (Scheduled(key), "n") !in s1.tasks;
    var s2 := Apply(s1, c1);
    assert After(log[..2]) == s2;
    assert "n" in s1.runs[Scheduled(key)].targets;
    assert !s2.runs[Scheduled(key)].ended;
    assert TakesOver(s2, c2);
    assert After(log) == Apply(s2, c2);
  }
}
