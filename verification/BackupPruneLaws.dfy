/** What still holds of owners once fires and runs can be forgotten, and what no longer does. */
module BackupPruneLaws {
  import opened BackupClaims
  import opened BackupClaimLaws
  import opened BackupPrune

  /** Fires and runs may outlive each other here; while both are there they agree, and only a run that is there
      has a term. */
  ghost predicate Agree(s: State, key: FireKey) {
    var id := Scheduled(key);
    key in s.ledger ==>
      s.ledger[key].runId == id &&
      (id in s.runs ==>
        s.ledger[key].term <= TermOf(s, id) &&
        (!s.runs[id].ended ==> !s.ledger[key].ended && s.ledger[key].lease == s.runs[id].lease))
  }

  ghost predicate Named(s: State, key: FireKey) {
    Scheduled(key) in s.runs ==> s.runs[Scheduled(key)].policy == key.policy
  }

  ghost predicate Consistent(s: State) {
    s.terms.Keys <= s.runs.Keys && (forall key :: Agree(s, key)) && forall key :: Named(s, key)
  }

  lemma CommandAgrees(s: State, cmd: Command, key: FireKey)
    requires Consistent(s)
    ensures Agree(Apply(s, cmd), key)
  {
    assert Agree(s, key);
    if cmd.ClaimScheduled? { assert Agree(s, cmd.key); }
  }

  lemma StepConsistent(s: State, e: Entry)
    requires Consistent(s)
    ensures Consistent(Step(s, e))
  {
    forall key ensures Agree(Step(s, e), key) {
      assert Agree(s, key);
      if e.Do? { CommandAgrees(s, e.cmd, key); }
    }
    forall key ensures Named(Step(s, e), key) {
      assert Named(s, key);
      if e.Do? { CommandNames(s, e.cmd, key); }
    }
    if e.Do? && e.cmd.ClaimScheduled? { assert Agree(s, e.cmd.key); }
  }

  lemma CommandNames(s: State, cmd: Command, key: FireKey)
    requires Consistent(s)
    ensures Named(Apply(s, cmd), key)
  {
    assert Named(s, key);
    if cmd.ClaimScheduled? { assert Agree(s, cmd.key); }
  }

  lemma {:induction false} ReachedConsistent(log: seq<Entry>)
    ensures Consistent(Reached(log))
  {
    if log != [] {
      ReachedConsistent(log[..|log| - 1]);
      StepConsistent(Reached(log[..|log| - 1]), log[|log| - 1]);
    }
  }

  /** The entry forgets the fence of the run: it prunes the fire, or the run itself if it was started by hand. */
  predicate Forgets(s: State, e: Entry, run: RunId) {
    match run
    case Scheduled(key) => DropsFire(s, e, key)
    case Manual(_) => DropsRun(s, e, run)
  }

  lemma CommandKeepsFence(s: State, cmd: Command, run: RunId)
    requires Consistent(s)
    ensures Fence(s, run) <= Fence(Apply(s, cmd), run)
  {
    if run.Scheduled? { assert Agree(s, run.key); }
    if cmd.ClaimScheduled? { assert Agree(s, cmd.key); }
  }

  /** The fence of a run drops in exactly one way: a prune forgets it. */
  lemma FenceDrops(s: State, e: Entry, run: RunId)
    requires Consistent(s)
    ensures Fence(Step(s, e), run) < Fence(s, run) <==> Forgets(s, e, run) && Fence(s, run) > 0
    ensures Forgets(s, e, run) ==> Fence(Step(s, e), run) == 0
  {
    if e.Do? { CommandKeepsFence(s, e.cmd, run); }
  }

  // ---- who may own a run again -----------------------------------------------------------------------------

  /** Some sender of a term up to t could make the run its own now, clocks and policies permitting. */
  ghost predicate Regained(s: State, run: RunId, t: nat) {
    exists cmd :: Acquires(s, cmd) && RunOf(cmd) == run && cmd.term <= t
  }

  /** The run is not over, and neither its fire nor, where the fire does not count, its own term is in the way.
      Without a fire nothing is in the way of a run that is not over. */
  predicate Regainable(s: State, run: RunId, t: nat) {
    t > 0 && (run in s.runs ==> !s.runs[run].ended) &&
    match run
    case Manual(_) => TermOf(s, run) < t
    case Scheduled(key) =>
      key in s.ledger ==>
        run in s.runs && (if s.ledger[key].lease == 0 then TermOf(s, run) else s.ledger[key].term) < t
  }

  lemma RegainManual(s: State, run: RunId, t: nat) returns (cmd: Command)
    requires run.Manual? && Regainable(s, run, t)
    ensures Acquires(s, cmd) && RunOf(cmd) == run && cmd.term <= t
  {
    if run in s.runs {
      var now := if s.runs[run].lease > 0 then s.runs[run].lease else 1;
      cmd := ClaimRun(run, t, now, now + 1);
    } else {
      cmd := Create(run.op, "", [], t, 0, true);
    }
  }

  lemma RegainScheduled(s: State, key: FireKey, t: nat) returns (cmd: Command)
    requires Consistent(s) && Regainable(s, Scheduled(key), t)
    ensures Acquires(s, cmd) && RunOf(cmd) == Scheduled(key) && cmd.term <= t
  {
    var run := Scheduled(key);
    assert Agree(s, key) && Named(s, key);
    if key in s.ledger {
      var lease := s.ledger[key].lease;
      if lease == 0 {
        cmd := ClaimRun(run, t, 1, 2);
      } else {
        cmd := ClaimScheduled(key, [], t, lease, 0, true);
        assert TakesOver(s, cmd);
      }
    } else if run in s.runs {
      var lease := s.runs[run].lease;
      cmd := ClaimScheduled(key, s.runs[run].targets, t, if lease == 0 then 0 else lease - 1, lease, true);
      assert Opens(s, cmd);
    } else {
      cmd := ClaimScheduled(key, [], t, 0, 1, true);
      assert Opens(s, cmd);
    }
  }

  lemma OnlyRegainable(s: State, run: RunId, t: nat, cmd: Command)
    requires Consistent(s) && Acquires(s, cmd) && RunOf(cmd) == run && cmd.term <= t
    ensures Regainable(s, run, t)
  {
    if run.Scheduled? { assert Agree(s, run.key); }
    if cmd.ClaimScheduled? { assert Agree(s, cmd.key); }
  }

  /** The exact condition under which a term up to t can own the run. */
  lemma RegainedExactly(s: State, run: RunId, t: nat)
    requires Consistent(s)
    ensures Regained(s, run, t) <==> Regainable(s, run, t)
  {
    if Regainable(s, run, t) {
      var cmd;
      if run.Manual? {
        cmd := RegainManual(s, run, t);
      } else {
        cmd := RegainScheduled(s, run.key, t);
      }
    } else if Regained(s, run, t) {
      var cmd :| Acquires(s, cmd) && RunOf(cmd) == run && cmd.term <= t;
      OnlyRegainable(s, run, t, cmd);
    }
  }

  /** No entry after i forgot the run. */
  ghost predicate NotForgotten(log: seq<Entry>, i: nat, run: RunId) {
    forall k {:trigger log[k]} :: i < k < |log| ==> !Forgets(Reached(log[..k]), log[k], run)
  }

  /** The run has a fence: it was started by hand, or its fire is there. */
  predicate Fenced(s: State, run: RunId) { run.Scheduled? ==> run.key in s.ledger }

  lemma OwnerFenced(s: State, cmd: Command)
    requires Consistent(s) && Acquires(s, cmd) && Fenced(Apply(s, cmd), RunOf(cmd))
    ensures Fence(Apply(s, cmd), RunOf(cmd)) == cmd.term
  {
    if RunOf(cmd).Scheduled? { assert Agree(s, RunOf(cmd).key); }
  }

  lemma CommandKeepsFenced(s: State, cmd: Command, run: RunId)
    requires Consistent(s) && Fenced(s, run)
    ensures Fenced(Apply(s, cmd), run)
  {
  }

  lemma {:induction false} FenceStays(log: seq<Entry>, i: nat, run: RunId)
    requires OwnedAt(log, i, run) && Fenced(Reached(log[..i + 1]), run) && NotForgotten(log, i, run)
    ensures Fenced(Reached(log), run) && log[i].cmd.term <= Fence(Reached(log), run)
    decreases |log|
  {
    var before, last := log[..|log| - 1], log[|log| - 1];
    ReachedConsistent(before);
    if i == |log| - 1 {
      assert log[..i + 1] == log;
      OwnerFenced(Reached(before), log[i].cmd);
    } else {
      OlderPrefix(log, i, run);
      FenceStays(before, i, run);
      FenceDrops(Reached(before), last, run);
      if last.Do? { CommandKeepsFenced(Reached(before), last.cmd, run); }
    }
  }

  lemma OlderPrefix(log: seq<Entry>, i: nat, run: RunId)
    requires OwnedAt(log, i, run) && i < |log| - 1 && NotForgotten(log, i, run)
    ensures
      var before := log[..|log| - 1];
      OwnedAt(before, i, run) && before[..i + 1] == log[..i + 1] && NotForgotten(before, i, run) &&
      !Forgets(Reached(before), log[|log| - 1], run)
  {
    var before := log[..|log| - 1];
    assert before[..i] == log[..i];
    forall k | i < k < |before| ensures !Forgets(Reached(before[..k]), before[k], run) {
      assert before[..k] == log[..k] && before[k] == log[k];
    }
  }

  /** With prunes in the log: as long as none forgets the run, no term up to that of an owner can own it again. */
  lemma NoneRegainsUnlessForgotten(log: seq<Entry>, i: nat, run: RunId)
    requires OwnedAt(log, i, run) && Fenced(Reached(log[..i + 1]), run) && NotForgotten(log, i, run)
    ensures !Regained(Reached(log), run, log[i].cmd.term)
  {
    FenceStays(log, i, run);
    ReachedConsistent(log);
    RegainedExactly(Reached(log), run, log[i].cmd.term);
    if run.Scheduled? { assert Agree(Reached(log), run.key); }
  }

  /** A prune leaves a run that is not over, and leaves its fire exactly when the lease reaches past the cutoff
      or is zero or less. */
  lemma LiveRunKeepsFire(s: State, e: Entry, key: FireKey)
    requires Consistent(s) && e.Prune? && key in s.ledger
    requires Scheduled(key) in s.runs && !s.runs[Scheduled(key)].ended
    ensures Scheduled(key) in Step(s, e).runs && Step(s, e).runs[Scheduled(key)] == s.runs[Scheduled(key)]
    ensures key in Step(s, e).ledger <==> s.runs[Scheduled(key)].lease > e.before || s.runs[Scheduled(key)].lease <= 0
  {
    assert Agree(s, key);
  }

  function Entries(log: seq<Command>): seq<Entry> {
    seq(|log|, i requires 0 <= i < |log| => Do(log[i]))
  }

  /** Without prunes this is the log of commands. */
  lemma {:induction false} WithoutPrunes(log: seq<Command>)
    ensures Reached(Entries(log)) == After(log)
  {
    if log != [] {
      WithoutPrunes(log[..|log| - 1]);
      assert Entries(log)[..|log| - 1] == Entries(log[..|log| - 1]);
    }
  }

  // ---- the inputs ------------------------------------------------------------------------------------------

  /** A fire whose run is done and pruned with it can be claimed, and run, again, by a lower term. */
  lemma PrunedFireIsOwnedAgain()
    ensures
      var key := FireKey("p", 0);
      var run := Scheduled(key);
      var log := [Do(ClaimScheduled(key, ["n"], 5, 100, 200, true)), Do(Finish(run, 5)), Prune({run}, 1000),
                  Do(ClaimScheduled(key, ["n"], 3, 300, 400, true))];
      OwnedAt(log, 0, run) && OwnedAt(log, 3, run)
  {
    var key := FireKey("p", 0);
    var run := Scheduled(key);
    var e0, e1 := Do(ClaimScheduled(key, ["n"], 5, 100, 200, true)), Do(Finish(run, 5));
    var e2, e3 := Prune({run}, 1000), Do(ClaimScheduled(key, ["n"], 3, 300, 400, true));
    var log := [e0, e1, e2, e3];
    assert log[..0] == [] && log[..3] == [e0, e1, e2];
    assert [e0, e1, e2][..2] == [e0, e1] && [e0, e1][..1] == [e0] && [e0][..0] == [];
    var s1 := Apply(Empty(), e0.cmd);
    assert Reached([e0]) == s1 && Finishes(s1, e1.cmd);
    var s2 := FinishedBy(s1, e1.cmd);
    assert Reached([e0, e1]) == s2 && DropsRun(s2, e2, run) && DropsFire(s2, e2, key);
    var s3 := Pruned(s2, e2);
    assert Reached([e0, e1, e2]) == s3 && key !in s3.ledger && run !in s3.runs;
  }
}
