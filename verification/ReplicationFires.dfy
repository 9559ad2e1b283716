/** Automatic replication runs: the leader's tick creates a run for each due fire and claims the fire in the
  ledger, beside manual runs, finishing, retrying and pruning.

  Run ids are hashes of (policy, fire) or of an operation id; hashes are taken to be injective and the two
  kinds to be disjoint. A tick and an API call are one step each, but every command a tick sends may be lost
  or be committed without its acknowledgement, as happens when leadership moves.
*/
module ReplicationFires {

  datatype RunId = Auto(policy: string, fire: int) | Manual(op: string)

  datatype RunStatus = Running | Ended

  datatype Run = Run(policy: string, status: RunStatus)

  datatype FireKey = FireKey(policy: string, fire: int)

  datatype FireStatus = Claimed | Skipped

  datatype FireRecord = FireRecord(status: FireStatus, runId: RunId)

  /** hasRoutes: the policy names sources and routes. */
  datatype Policy = Policy(enabled: bool, scheduled: bool, epoch: int, hasRoutes: bool)

  datatype Control = Control(policies: map<string, Policy>, runs: map<RunId, Run>, ledger: map<FireKey, FireRecord>)

  /** The latest scheduled instant at or before now, per policy. */
  datatype Schedule = NoFire | Fire(at: int) | BadCron

  /** Whether a command is committed, and whether its sender learns of it. */
  datatype Delivery = Acked | Unacked | Lost

  datatype Outcome = Outcome(create: Delivery, claim: Delivery)

  predicate Committed(d: Delivery) { d != Lost }

  predicate HasRunning(c: Control, policy: string) {
    exists r :: r in c.runs && c.runs[r].policy == policy && c.runs[r].status == Running
  }

  // ---- commands, as the replicated state machine applies them ----------------------------------------------

  /** Creates a run if its policy exists and no run has its id. */
  function Create(c: Control, id: RunId, policy: string): Control {
    if policy !in c.policies || id in c.runs then c else c.(runs := c.runs[id := Run(policy, Running)])
  }

  /** A durable claim: the first one stays. */
  function Claim(c: Control, key: FireKey, status: FireStatus, runId: RunId): Control {
    if key in c.ledger then c else c.(ledger := c.ledger[key := FireRecord(status, runId)])
  }

  function Sent(c: Control, d: Delivery, after: Control): Control { if Committed(d) then after else c }

  // ---- the tick ------------------------------------------------------------------------------------------

  datatype Due = Due(policy: string, fire: int, runExists: bool, skipRunning: bool)

  predicate IsDue(c: Control, policy: string, schedule: Schedule) {
    && policy in c.policies && c.policies[policy].enabled && c.policies[policy].scheduled
    && schedule.Fire? && schedule.at > c.policies[policy].epoch
    && FireKey(policy, schedule.at) !in c.ledger
  }

  function MakeDue(c: Control, policy: string, at: int): Due {
    var exists_ := Auto(policy, at) in c.runs;
    Due(policy, at, exists_, !exists_ && HasRunning(c, policy))
  }

  /** The due fires among the first n listed policies. */
  function DueFires(c: Control, ids: seq<string>, n: nat, schedule: string -> Schedule): seq<Due>
    requires n <= |ids|
  {
    if n == 0 then []
    else
      var id := ids[n - 1];
      DueFires(c, ids, n - 1, schedule) + if IsDue(c, id, schedule(id)) then [MakeDue(c, id, schedule(id).at)] else []
  }

  /** An enabled policy with a schedule that cannot be read. */
  predicate Unreadable(c: Control, schedule: string -> Schedule, id: string) {
    id in c.policies && c.policies[id].enabled && c.policies[id].scheduled && schedule(id) == BadCron
  }

  /** What the tick does about one due fire. */
  function HandleFire(c: Control, due: Due, o: Outcome): Control {
    var key, runId := FireKey(due.policy, due.fire), Auto(due.policy, due.fire);
    if due.skipRunning then Sent(c, o.claim, Claim(c, key, Skipped, runId))
    else if due.runExists then Sent(c, o.claim, Claim(c, key, Claimed, runId))
    else
      var created := Sent(c, o.create, Create(c, runId, due.policy));
      if o.create != Acked || due.policy !in c.policies then created
      else Sent(created, o.claim, Claim(created, key, Claimed, runId))
  }

  /** The tick over the first n policies of a listing, each looked at in the view taken at the start. */
  function TickUpTo(view: Control, ids: seq<string>, n: nat, schedule: string -> Schedule, outcome: string -> Outcome): Control
    requires n <= |ids|
  {
    if n == 0 then view
    else
      var c, id := TickUpTo(view, ids, n - 1, schedule, outcome), ids[n - 1];
      if IsDue(view, id, schedule(id)) then HandleFire(c, MakeDue(view, id, schedule(id).at), outcome(id)) else c
  }

  function Tick(view: Control, ids: seq<string>, schedule: string -> Schedule, outcome: string -> Outcome): Control {
    TickUpTo(view, ids, |ids|, schedule, outcome)
  }

  /** A listing of the policies: each once, in some order (the tick sorts them). */
  ghost predicate Lists(ids: seq<string>, c: Control) {
    && (forall id :: id in ids <==> id in c.policies)
    && (forall i, j :: 0 <= i < j < |ids| ==> ids[i] != ids[j])
  }

  datatype StartResult = Started(run: RunId) | Existing(run: RunId) | Conflict | NotFound | InvalidRoutes | Failed

  /** The control plane as the leader and the API use it. */
  class ControlPlane {
    var policies: map<string, Policy>
    var runs: map<RunId, Run>
    var ledger: map<FireKey, FireRecord>

    function View(): Control
      reads this
    {
      Control(policies, runs, ledger)
    }

    constructor (policies: map<string, Policy>)
      ensures View() == Control(policies, map[], map[])
    {
      this.policies, runs, ledger := policies, map[], map[];
    }

    method Put(c: Control)
      modifies this
      ensures View() == c
    {
      policies, runs, ledger := c.policies, c.runs, c.ledger;
    }

    /** The due fire of one policy, if it has one. */
    method DueFire(id: string, schedule: Schedule) returns (due: seq<Due>, badCron: bool)
      requires id in policies
      ensures due == if IsDue(View(), id, schedule) then [MakeDue(View(), id, schedule.at)] else []
      ensures badCron <==> policies[id].enabled && policies[id].scheduled && schedule == BadCron
    {
      due, badCron := [], false;
      var policy := policies[id];
      if !policy.enabled || !policy.scheduled {
        return;
      }
      match schedule {
        case BadCron => badCron := true;
        case NoFire =>
        case Fire(at) =>
          if at <= policy.epoch || FireKey(id, at) in ledger {
            return;
          }
          var runExists := Auto(id, at) in runs;
          due := [Due(id, at, runExists, !runExists && HasRunning(View(), id))];
      }
    }

    /** The due fires of the listed policies, and whether any schedule could not be read. */
    method ListDueFires(ids: seq<string>, schedule: string -> Schedule) returns (due: seq<Due>, badCron: bool)
      requires Lists(ids, View())
      ensures due == DueFires(View(), ids, |ids|, schedule)
      ensures badCron <==> exists id :: Unreadable(View(), schedule, id)
    {
      due, badCron := [], false;
      for i := 0 to |ids|
        invariant due == DueFires(View(), ids, i, schedule)
        invariant badCron <==> exists k :: 0 <= k < i && Unreadable(View(), schedule, ids[k])
      {
        assert ids[i] in ids;
        var d, bad := DueFire(ids[i], schedule(ids[i]));
        due := due + d;
        badCron := badCron || bad;
      }
    }

    /** One leader tick: skip, claim, or create and claim, for each due fire in turn. */
    method ClaimReplicationRuns(ids: seq<string>, schedule: string -> Schedule, outcome: string -> Outcome)
      requires Lists(ids, View())
      modifies this
      ensures View() == Tick(old(View()), ids, schedule, outcome)
    {
      ghost var view := View();
      var due, _ := ListDueFires(ids, schedule);
      HandleDueFires(view, ids, |ids|, schedule, outcome);
      for i := 0 to |due|
        invariant View() == HandleAll(view, due, i, outcome)
      {
        var d := due[i];
        var o := outcome(d.policy);
        var key, runId := FireKey(d.policy, d.fire), Auto(d.policy, d.fire);
        if d.skipRunning {
          ClaimFire(key, Skipped, runId, o.claim);
          continue;
        }
        if d.runExists {
          ClaimFire(key, Claimed, runId, o.claim);
          continue;
        }
        var known := d.policy in policies;
        if Committed(o.create) {
          Put(Create(View(), runId, d.policy));
        }
        if o.create != Acked || !known {
          continue;
        }
        ClaimFire(key, Claimed, runId, o.claim);
      }
    }

    method ClaimFire(key: FireKey, status: FireStatus, runId: RunId, d: Delivery)
      modifies this
      ensures View() == Sent(old(View()), d, Claim(old(View()), key, status, runId))
    {
      if Committed(d) && key !in ledger {
        ledger := ledger[key := FireRecord(status, runId)];
      }
    }

    /** The API call that starts a run by hand. */
    method StartRun(op: string, policy: string, d: Delivery) returns (result: StartResult)
      modifies this
      ensures View() == StartedState(old(View()), op, policy, d)
      ensures result.Started? ==> result.run == Manual(op) && Manual(op) in runs && runs[Manual(op)] == Run(policy, Running)
      ensures result.Existing? ==> result.run in old(runs) && old(runs)[result.run].policy == policy && View() == old(View())
    {
      var runId := Manual(op);
      if runId in runs {
        return if runs[runId].policy != policy then Conflict else Existing(runId);
      }
      if policy !in policies {
        return NotFound;
      }
      if !policies[policy].hasRoutes {
        return InvalidRoutes;
      }
      if HasRunning(View(), policy) {
        var r :| r in runs && runs[r].policy == policy && runs[r].status == Running;
        return Existing(r);
      }
      if Committed(d) {
        Put(Create(View(), runId, policy));
        return Started(runId);
      }
      return Failed;
    }
  }

  /** A manual start creates a run only for a known, routed policy that has none running. */
  function StartedState(c: Control, op: string, policy: string, d: Delivery): Control {
    if Manual(op) in c.runs || policy !in c.policies || !c.policies[policy].hasRoutes || HasRunning(c, policy) then c
    else Sent(c, d, Create(c, Manual(op), policy))
  }

  function HandleAll(view: Control, due: seq<Due>, n: nat, outcome: string -> Outcome): Control
    requires n <= |due|
  {
    if n == 0 then view
    else HandleFire(HandleAll(view, due, n - 1, outcome), due[n - 1], outcome(due[n - 1].policy))
  }

  /** Handling the listed due fires one by one is the tick. */
  lemma {:induction false} HandleDueFires(view: Control, ids: seq<string>, n: nat, schedule: string -> Schedule,
                                          outcome: string -> Outcome)
    requires n <= |ids|
    ensures var due := DueFires(view, ids, n, schedule);
            HandleAll(view, due, |due|, outcome) == TickUpTo(view, ids, n, schedule, outcome)
  {
    if n > 0 {
      HandleDueFires(view, ids, n - 1, schedule, outcome);
      var id, init := ids[n - 1], DueFires(view, ids, n - 1, schedule);
      if IsDue(view, id, schedule(id)) {
        HandleOneMore(view, init, MakeDue(view, id, schedule(id).at), outcome);
      } else {
        assert DueFires(view, ids, n, schedule) == init;
      }
    }
  }

  lemma HandleOneMore(view: Control, due: seq<Due>, d: Due, outcome: string -> Outcome)
    ensures HandleAll(view, due + [d], |due + [d]|, outcome)
            == HandleFire(HandleAll(view, due, |due|, outcome), d, outcome(d.policy))
  {
    HandlePrefix(view, due, d, |due|, outcome);
  }

  lemma {:induction false} HandlePrefix(view: Control, due: seq<Due>, d: Due, n: nat, outcome: string -> Outcome)
    requires n <= |due|
    ensures HandleAll(view, due + [d], n, outcome) == HandleAll(view, due, n, outcome)
  {
    if n > 0 { HandlePrefix(view, due, d, n - 1, outcome); }
  }
}
