/** How many runs a fire can get, and when two runs of one policy can be running. */
module ReplicationLaws {
  import opened ReplicationFires

  datatype Step =
    | TickStep(ids: seq<string>, schedule: string -> Schedule, outcome: string -> Outcome)
    | StartStep(op: string, policy: string, d: Delivery)
    | EndStep(r: RunId)                       // the run's tasks are all final
    | RetryStep(r: RunId)                     // failed tasks are retried
    | PruneStep(rs: set<RunId>)               // old ended runs are removed
    | PutPolicyStep(id: string, p: Policy)
    | DropPolicyStep(id: string)

  ghost predicate Enabled(c: Control, step: Step) {
    match step
    case TickStep(ids, _, _) => Lists(ids, c)
    case EndStep(r) => r in c.runs && c.runs[r].status == Running
    case RetryStep(r) => r in c.runs && c.runs[r].status == Ended
    case PruneStep(rs) => forall r :: r in rs ==> r in c.runs && c.runs[r].status == Ended
    case _ => true
  }

  function Apply(c: Control, step: Step): Control {
    match step
    case TickStep(ids, schedule, outcome) => Tick(c, ids, schedule, outcome)
    case StartStep(op, policy, d) => StartedState(c, op, policy, d)
    case EndStep(r) => if r in c.runs then c.(runs := c.runs[r := c.runs[r].(status := Ended)]) else c
    case RetryStep(r) => if r in c.runs then c.(runs := c.runs[r := c.runs[r].(status := Running)]) else c
    case PruneStep(rs) => c.(runs := c.runs - rs)
    case PutPolicyStep(id, p) => c.(policies := c.policies[id := p])
    case DropPolicyStep(id) => c.(policies := c.policies - {id})
  }

  ghost predicate IsRun(trace: seq<Control>, steps: seq<Step>) {
    && |trace| == |steps| + 1 && trace[0].runs == map[] && trace[0].ledger == map[]
    && forall i {:trigger steps[i]} :: 0 <= i < |steps| ==> Enabled(trace[i], steps[i]) && trace[i + 1] == Apply(trace[i], steps[i])
  }

  // ---- what a tick can do ----------------------------------------------------------------------------------

  /** n extends c by nothing but what a tick may add: claims, and runs for due fires of idle policies. */
  ghost predicate TickAdds(view: Control, schedule: string -> Schedule, n: Control) {
    && n.policies == view.policies
    && (forall k :: k in view.ledger ==> k in n.ledger && n.ledger[k] == view.ledger[k])
    && (forall r :: r in view.runs ==> r in n.runs && n.runs[r] == view.runs[r])
    && (forall r :: r in n.runs && r !in view.runs ==> NewRun(view, schedule, n, r))
  }

  ghost predicate NewRun(view: Control, schedule: string -> Schedule, n: Control, r: RunId) {
    && r.Auto? && r in n.runs && n.runs[r] == Run(r.policy, Running)
    && IsDue(view, r.policy, schedule(r.policy)) && schedule(r.policy).at == r.fire
    && !HasRunning(view, r.policy)
  }

  /** Handling a fire adds at most its ledger entry and its run. */
  lemma HandleFrame(c: Control, due: Due, o: Outcome)
    ensures var n, r := HandleFire(c, due, o), Auto(due.policy, due.fire);
            && n.policies == c.policies
            && (forall k :: k in c.ledger ==> k in n.ledger && n.ledger[k] == c.ledger[k])
            && (n.runs == c.runs || (!due.skipRunning && !due.runExists && n.runs == c.runs[r := Run(due.policy, Running)] && r !in c.runs))
  {
  }

  lemma HandleAdds(view: Control, schedule: string -> Schedule, c: Control, id: string, o: Outcome)
    requires TickAdds(view, schedule, c) && IsDue(view, id, schedule(id))
    ensures TickAdds(view, schedule, HandleFire(c, MakeDue(view, id, schedule(id).at), o))
  {
    var due := MakeDue(view, id, schedule(id).at);
    HandleFrame(c, due, o);
    var n, r := HandleFire(c, due, o), Auto(id, schedule(id).at);
    forall q | q in n.runs && q !in view.runs
      ensures NewRun(view, schedule, n, q)
    {
      if q != r {
        assert NewRun(view, schedule, c, q);
      } else if n.runs == c.runs {
        assert NewRun(view, schedule, c, r);
      }
    }
  }

  lemma {:induction false} TickEffect(view: Control, ids: seq<string>, n: nat, schedule: string -> Schedule,
                                      outcome: string -> Outcome)
    requires n <= |ids|
    ensures TickAdds(view, schedule, TickUpTo(view, ids, n, schedule, outcome))
  {
    if n > 0 {
      TickEffect(view, ids, n - 1, schedule, outcome);
      if IsDue(view, ids[n - 1], schedule(ids[n - 1])) {
        HandleAdds(view, schedule, TickUpTo(view, ids, n - 1, schedule, outcome), ids[n - 1], outcome(ids[n - 1]));
      }
    }
  }

  /** The tick finds the fire due, its policy idle, and its command to create the run is committed. */
  predicate Wanted(c: Control, schedule: string -> Schedule, outcome: string -> Outcome, policy: string, fire: int) {
    IsDue(c, policy, schedule(policy)) && schedule(policy).at == fire && !HasRunning(c, policy) &&
    Committed(outcome(policy).create)
  }

  /** Handling the due fire of policy id creates the run exactly if it is that policy's and is wanted. */
  lemma HandleCreates(view: Control, m: Control, id: string, schedule: string -> Schedule, outcome: string -> Outcome,
                      policy: string, fire: int)
    requires IsDue(view, id, schedule(id)) && m.policies == view.policies && Auto(policy, fire) !in view.runs
    ensures
      var n := HandleFire(m, MakeDue(view, id, schedule(id).at), outcome(id));
      Auto(policy, fire) in n.runs <==>
      Auto(policy, fire) in m.runs || (id == policy && Wanted(view, schedule, outcome, policy, fire))
  {
  }

  lemma {:induction false} WantedUpTo(c: Control, ids: seq<string>, n: nat, schedule: string -> Schedule,
                                      outcome: string -> Outcome, policy: string, fire: int)
    requires n <= |ids| && Auto(policy, fire) !in c.runs
    ensures Auto(policy, fire) in TickUpTo(c, ids, n, schedule, outcome).runs <==>
            policy in ids[..n] && Wanted(c, schedule, outcome, policy, fire)
  {
    if n > 0 {
      WantedUpTo(c, ids, n - 1, schedule, outcome, policy, fire);
      TickEffect(c, ids, n - 1, schedule, outcome);
      var id := ids[n - 1];
      assert ids[..n] == ids[..n - 1] + [id];
      if IsDue(c, id, schedule(id)) {
        HandleCreates(c, TickUpTo(c, ids, n - 1, schedule, outcome), id, schedule, outcome, policy, fire);
      }
    }
  }

  /** A tick creates the run of a fire exactly when the fire is due, its policy has none running, and the command
      is committed, whatever becomes of the others. */
  lemma TickCreatesExactly(c: Control, ids: seq<string>, schedule: string -> Schedule, outcome: string -> Outcome,
                           policy: string, fire: int)
    requires Lists(ids, c) && Auto(policy, fire) !in c.runs
    ensures Auto(policy, fire) in Tick(c, ids, schedule, outcome).runs <==> Wanted(c, schedule, outcome, policy, fire)
  {
    WantedUpTo(c, ids, |ids|, schedule, outcome, policy, fire);
    assert ids[..|ids|] == ids;
  }

  /** Neither the scheduler nor a manual start creates a run for a policy that has one running. */
  lemma CreatesOnlyWhenIdle(c: Control, step: Step, r: RunId)
    requires Enabled(c, step) && r !in c.runs && r in Apply(c, step).runs
    ensures !HasRunning(c, Apply(c, step).runs[r].policy)
    ensures step.TickStep? || step.StartStep?
  {
    if step.TickStep? { TickEffect(c, step.ids, |step.ids|, step.schedule, step.outcome); }
  }

  /** A run whose claim was lost is claimed by the next tick of its fire, which creates nothing for the policy. */
  lemma NextTickClaims(c: Control, ids: seq<string>, schedule: string -> Schedule, outcome: string -> Outcome, id: string)
    requires Lists(ids, c) && IsDue(c, id, schedule(id)) && Auto(id, schedule(id).at) in c.runs
    requires Committed(outcome(id).claim)
    ensures var n, key := Tick(c, ids, schedule, outcome), FireKey(id, schedule(id).at);
            && key in n.ledger && n.ledger[key] == FireRecord(Claimed, Auto(id, schedule(id).at))
            && forall r :: r in n.runs && n.runs[r].policy == id ==> r in c.runs
  {
    TickEffect(c, ids, |ids|, schedule, outcome);
    assert id in ids;
    var k :| 0 <= k < |ids| && ids[k] == id;
    ClaimPersists(c, ids, |ids|, k, schedule, outcome);
  }

  lemma {:induction false} ClaimPersists(c: Control, ids: seq<string>, n: nat, k: nat, schedule: string -> Schedule,
                                         outcome: string -> Outcome)
    requires Lists(ids, c) && k < |ids| && n <= |ids| && IsDue(c, ids[k], schedule(ids[k]))
    requires Auto(ids[k], schedule(ids[k]).at) in c.runs && Committed(outcome(ids[k]).claim)
    ensures var m, key := TickUpTo(c, ids, n, schedule, outcome), FireKey(ids[k], schedule(ids[k]).at);
            if n <= k then key !in m.ledger
            else key in m.ledger && m.ledger[key] == FireRecord(Claimed, Auto(ids[k], schedule(ids[k]).at))
  {
    if n > 0 {
      ClaimPersists(c, ids, n - 1, k, schedule, outcome);
      var m, id := TickUpTo(c, ids, n - 1, schedule, outcome), ids[n - 1];
      if IsDue(c, id, schedule(id)) {
        HandleLedger(m, MakeDue(c, id, schedule(id).at), outcome(id));
      }
    }
  }

  /** Handling a fire claims no other, and claims its own if its run exists and the claim is committed. */
  lemma HandleLedger(c: Control, due: Due, o: Outcome)
    ensures var n, key := HandleFire(c, due, o), FireKey(due.policy, due.fire);
            && (forall other :: other != key && other in n.ledger ==> other in c.ledger)
            && (forall other :: other in c.ledger ==> other in n.ledger && n.ledger[other] == c.ledger[other])
            && (!due.skipRunning && due.runExists && Committed(o.claim) && key !in c.ledger ==>
                  key in n.ledger && n.ledger[key] == FireRecord(Claimed, Auto(due.policy, due.fire)))
  {
  }

  // ---- runs per fire -----------------------------------------------------------------------------------------

  /** How often the fire's run came into being in the first n steps. */
  function Creations(trace: seq<Control>, n: nat, policy: string, fire: int): nat
    requires n < |trace|
  {
    if n == 0 then 0
    else
      var r := Auto(policy, fire);
      Creations(trace, n - 1, policy, fire) + if r !in trace[n - 1].runs && r in trace[n].runs then 1 else 0
  }

  /** How often it was pruned while the ledger did not have the fire. */
  function Losses(trace: seq<Control>, n: nat, policy: string, fire: int): nat
    requires n < |trace|
  {
    if n == 0 then 0
    else
      var r := Auto(policy, fire);
      Losses(trace, n - 1, policy, fire)
      + if r in trace[n - 1].runs && r !in trace[n].runs && FireKey(policy, fire) !in trace[n - 1].ledger then 1 else 0
  }

  lemma StepOnFire(c: Control, step: Step, policy: string, fire: int)
    requires Enabled(c, step)
    ensures var n, r, key := Apply(c, step), Auto(policy, fire), FireKey(policy, fire);
            && (r !in c.runs && r in n.runs ==> key !in c.ledger)
            && (key in c.ledger ==> key in n.ledger)
  {
    if step.TickStep? { TickEffect(c, step.ids, |step.ids|, step.schedule, step.outcome); }
  }

  lemma {:induction false} CreationsBounded(trace: seq<Control>, steps: seq<Step>, n: nat, policy: string, fire: int)
    requires IsRun(trace, steps) && n < |trace|
    ensures var settled := Auto(policy, fire) in trace[n].runs || FireKey(policy, fire) in trace[n].ledger;
            Creations(trace, n, policy, fire) <= Losses(trace, n, policy, fire) + if settled then 1 else 0
  {
    if n > 0 {
      CreationsBounded(trace, steps, n - 1, policy, fire);
      StepOnFire(trace[n - 1], steps[n - 1], policy, fire);
    }
  }

  /** A (policy, fire) gets one run, and another only for each time its run was pruned before the fire was
      claimed: lost claims, unacknowledged commits and repeated ticks never add one. */
  lemma OneRunPerFire(trace: seq<Control>, steps: seq<Step>, n: nat, policy: string, fire: int)
    requires IsRun(trace, steps) && n < |trace|
    ensures Creations(trace, n, policy, fire) <= 1 + Losses(trace, n, policy, fire)
  {
    CreationsBounded(trace, steps, n, policy, fire);
  }

  /** The bound is met: create, lose the claim, end, prune, tick again in the same period. */
  lemma PrunedFireRunsAgain() returns (trace: seq<Control>, steps: seq<Step>)
    ensures IsRun(trace, steps) && Creations(trace, |steps|, "p", 5) == 2
  {
    var schedule := (id: string) => Fire(5);
    var lost := (id: string) => Outcome(Acked, Lost);
    var run := Auto("p", 5);
    var tick, end, prune := TickStep(["p"], schedule, lost), EndStep(run), PruneStep({run});
    var policies := map["p" := Policy(true, true, 0, true)];
    var idle := Control(policies, map[], map[]);
    var running := Control(policies, map[run := Run("p", Running)], map[]);
    var ended := Control(policies, map[run := Run("p", Ended)], map[]);
    LostClaimTick(idle, schedule, lost);
    assert ended.runs - {run} == map[];
    trace, steps := [idle, running, ended, idle, running], [tick, end, prune, tick];
    assert Creations(trace, 1, "p", 5) == 1;
    assert Creations(trace, 2, "p", 5) == 1;
    assert Creations(trace, 3, "p", 5) == 1;
  }

  lemma LostClaimTick(c: Control, schedule: string -> Schedule, outcome: string -> Outcome)
    requires c.runs == map[] && c.ledger == map[] && c.policies == map["p" := Policy(true, true, 0, true)]
    requires schedule("p") == Fire(5) && outcome("p") == Outcome(Acked, Lost)
    ensures Tick(c, ["p"], schedule, outcome) == c.(runs := map[Auto("p", 5) := Run("p", Running)])
    ensures Lists(["p"], c)
  {
    assert TickUpTo(c, ["p"], 0, schedule, outcome) == c;
    assert MakeDue(c, "p", 5) == Due("p", 5, false, false);
  }

  // ---- exactly when a fire's run is created, and created again ---------------------------------------------------

  /** The fire has neither a run nor a claim. */
  predicate Open(c: Control, policy: string, fire: int) {
    Auto(policy, fire) !in c.runs && FireKey(policy, fire) !in c.ledger
  }

  /** The step is a tick that wants the fire, which has no run. */
  predicate Creates(c: Control, step: Step, policy: string, fire: int) {
    step.TickStep? && Auto(policy, fire) !in c.runs && Wanted(c, step.schedule, step.outcome, policy, fire)
  }

  /** The step prunes the fire's run before the fire was claimed. */
  predicate Loses(c: Control, step: Step, policy: string, fire: int) {
    step.PruneStep? && Auto(policy, fire) in step.rs && FireKey(policy, fire) !in c.ledger
  }

  /** No step but such a tick creates the fire's run. */
  lemma CreatedExactly(c: Control, step: Step, policy: string, fire: int)
    requires Enabled(c, step)
    ensures Auto(policy, fire) !in c.runs && Auto(policy, fire) in Apply(c, step).runs <==> Creates(c, step, policy, fire)
    ensures Creates(c, step, policy, fire) ==> Open(c, policy, fire)
  {
    if step.TickStep? && Auto(policy, fire) !in c.runs {
      TickCreatesExactly(c, step.ids, step.schedule, step.outcome, policy, fire);
    }
  }

  /** No step but such a prune opens a fire again. */
  lemma ReopensExactly(c: Control, step: Step, policy: string, fire: int)
    requires Enabled(c, step)
    ensures !Open(c, policy, fire) && Open(Apply(c, step), policy, fire) <==> Loses(c, step, policy, fire)
  {
    if step.TickStep? { TickEffect(c, step.ids, |step.ids|, step.schedule, step.outcome); }
  }

  lemma {:induction false} CreationsGrow(trace: seq<Control>, m: nat, n: nat, policy: string, fire: int)
    requires m <= n < |trace|
    ensures Creations(trace, m, policy, fire) <= Creations(trace, n, policy, fire)
  {
    if m < n { CreationsGrow(trace, m, n - 1, policy, fire); }
  }

  /** The last of the steps before n that created the run. */
  lemma {:induction false} LastCreation(trace: seq<Control>, steps: seq<Step>, n: nat, policy: string, fire: int) returns (k: nat)
    requires IsRun(trace, steps) && n < |trace| && Creations(trace, n, policy, fire) > 0
    ensures k < n && Creates(trace[k], steps[k], policy, fire)
    ensures Creations(trace, k, policy, fire) == Creations(trace, n, policy, fire) - 1
  {
    CreatedExactly(trace[n - 1], steps[n - 1], policy, fire);
    if Creates(trace[n - 1], steps[n - 1], policy, fire) {
      k := n - 1;
    } else {
      k := LastCreation(trace, steps, n - 1, policy, fire);
    }
  }

  /** Between two states of which the fire is open only in the second, it was lost. */
  lemma {:induction false} LostBetween(trace: seq<Control>, steps: seq<Step>, m: nat, n: nat, policy: string, fire: int)
    returns (j: nat)
    requires IsRun(trace, steps) && m <= n < |trace| && !Open(trace[m], policy, fire) && Open(trace[n], policy, fire)
    ensures m <= j < n && Loses(trace[j], steps[j], policy, fire)
  {
    ReopensExactly(trace[n - 1], steps[n - 1], policy, fire);
    if Loses(trace[n - 1], steps[n - 1], policy, fire) {
      j := n - 1;
    } else {
      j := LostBetween(trace, steps, m, n - 1, policy, fire);
    }
  }

  /** Step i created the run, step j lost it, and step k created it again. */
  ghost predicate CreatedTwice(trace: seq<Control>, steps: seq<Step>, i: nat, j: nat, k: nat, policy: string, fire: int) {
    && i < j < k < |steps| < |trace|
    && Creates(trace[i], steps[i], policy, fire) && Loses(trace[j], steps[j], policy, fire)
    && Creates(trace[k], steps[k], policy, fire)
  }

  lemma SecondRun(trace: seq<Control>, steps: seq<Step>, policy: string, fire: int) returns (i: nat, j: nat, k: nat)
    requires IsRun(trace, steps) && Creations(trace, |steps|, policy, fire) >= 2
    ensures CreatedTwice(trace, steps, i, j, k, policy, fire)
  {
    k := LastCreation(trace, steps, |steps|, policy, fire);
    i := LastCreation(trace, steps, k, policy, fire);
    CreatedExactly(trace[i], steps[i], policy, fire);
    CreatedExactly(trace[k], steps[k], policy, fire);
    j := LostBetween(trace, steps, i + 1, k, policy, fire);
  }

  lemma TwiceCounts(trace: seq<Control>, steps: seq<Step>, i: nat, j: nat, k: nat, policy: string, fire: int)
    requires IsRun(trace, steps) && CreatedTwice(trace, steps, i, j, k, policy, fire)
    ensures Creations(trace, |steps|, policy, fire) >= 2
  {
    CreatedExactly(trace[i], steps[i], policy, fire);
    CreatedExactly(trace[k], steps[k], policy, fire);
    CreationsGrow(trace, i + 1, k, policy, fire);
    CreationsGrow(trace, k + 1, |steps|, policy, fire);
  }

  /** A fire gets a second run exactly when its run, once created, is pruned before the fire is claimed and a later
      tick still finds the fire due and the policy idle. */
  lemma SecondRunExactly(trace: seq<Control>, steps: seq<Step>, policy: string, fire: int)
    requires IsRun(trace, steps)
    ensures Creations(trace, |steps|, policy, fire) >= 2 <==>
            exists i: nat, j: nat, k: nat :: CreatedTwice(trace, steps, i, j, k, policy, fire)
  {
    if Creations(trace, |steps|, policy, fire) >= 2 {
      var i, j, k := SecondRun(trace, steps, policy, fire);
    } else if i: nat, j: nat, k: nat :| CreatedTwice(trace, steps, i, j, k, policy, fire) {
      TwiceCounts(trace, steps, i, j, k, policy, fire);
    }
  }

  // ---- running runs per policy ---------------------------------------------------------------------------------

  ghost predicate OneRunning(c: Control) {
    forall r, s :: r in c.runs && s in c.runs && c.runs[r] == c.runs[s] && c.runs[r].status == Running ==> r == s
  }

  lemma StepOneRunning(c: Control, step: Step)
    requires OneRunning(c) && Enabled(c, step) && !step.RetryStep?
    ensures OneRunning(Apply(c, step))
  {
    var n := Apply(c, step);
    if step.TickStep? {
      TickEffect(c, step.ids, |step.ids|, step.schedule, step.outcome);
      assert forall r :: r in n.runs && r !in c.runs ==> NewRun(c, step.schedule, n, r);
      assert forall r :: r in c.runs ==> n.runs[r] == c.runs[r];
    }
  }

  /** As long as no ended run is retried, no policy has two runs running. */
  lemma {:induction false} AtMostOneRunning(trace: seq<Control>, steps: seq<Step>, n: nat)
    requires IsRun(trace, steps) && n < |trace|
    requires forall i :: 0 <= i < n ==> !steps[i].RetryStep?
    ensures OneRunning(trace[n])
  {
    if n > 0 {
      AtMostOneRunning(trace, steps, n - 1);
      StepOneRunning(trace[n - 1], steps[n - 1]);
    }
  }

  /** Retrying an ended run beside a newer one breaks it, and exactly when its policy has one running. */
  lemma RetryBesideRunning(c: Control, r: RunId)
    requires OneRunning(c) && Enabled(c, RetryStep(r))
    ensures OneRunning(Apply(c, RetryStep(r))) <==> !HasRunning(c, c.runs[r].policy)
  {
    var n := Apply(c, RetryStep(r));
    if s :| s in c.runs && c.runs[s].policy == c.runs[r].policy && c.runs[s].status == Running {
      assert s in n.runs && r in n.runs && n.runs[s].status == Running && n.runs[r].status == Running && s != r;
    }
  }
}
