/** The leader's minute tick for backups: take over abandoned runs, then claim and dispatch what is due.

  Any number of coordinators with any terms and clocks share one cluster. A tick is one step, and so is a
  dispatch, here reduced to one report per target; the Dispatch module has its interleavings. What a tick does
  is a function of the situation it finds; the methods are proved equal to it. */
module BackupTick {
  import opened BackupClaims
  import Cron
  import Sorting
  import StringOrder

  const SECOND: int := 1_000_000_000
  const MIN_RECOVERY_LEASE: int := 30

  /** A policy as the tick sees it; accepted says whether its run would pass validation. */
  datatype PolicyView = PolicyView(policyId: string, enabled: bool, schedule: seq<Cron.Token>, cal: int -> Cron.Civil,
                                   targets: seq<string>, timeout: int, accepted: bool)

  datatype Dispatch = Dispatch(run: RunId, term: nat)

  /** The ledger's log, every dispatch made by a tick, and one coordinator's memo: fire to the term it was last
      dispatched in. */
  datatype Situation = Situation(log: seq<Command>, dispatched: seq<Dispatch>, memo: map<FireKey, nat>)

  function EffectiveTimeout(seconds: int): int { if seconds <= 0 then 30 else seconds }

  // ---- taking over abandoned runs --------------------------------------------------------------------------

  /** A run this tick took over, and the targets that have not reported an end. */
  datatype Plan = Plan(run: RunId, targets: seq<string>)

  /** The run waits for a leader of this term. */
  predicate Abandoned(s: State, run: RunId, term: nat, now: int) {
    run in s.runs && !s.runs[run].ended && s.runs[run].lease <= now && TermOf(s, run) < term
  }

  /** The listed runs that are abandoned. */
  function Candidates(s: State, listing: seq<RunId>, term: nat, now: int): seq<RunId> {
    if listing == [] then []
    else
      var last := listing[|listing| - 1];
      Candidates(s, listing[..|listing| - 1], term, now) + if Abandoned(s, last, term, now) then [last] else []
  }

  function RecoveryLease(now: int, timeout: int): int {
    now + if EffectiveTimeout(timeout) < MIN_RECOVERY_LEASE then MIN_RECOVERY_LEASE else EffectiveTimeout(timeout)
  }

  /** The control plane accepts the lease that recovery asks for. */
  predicate LeaseAccepted(now: int, timeout: int) { now > 0 && ValidLease(now, RecoveryLease(now, timeout)) }

  /** How many runs are claimed before the first whose lease is refused. */
  function ClaimedCount(ids: seq<RunId>, now: int, timeout: RunId -> int): (n: nat)
    ensures n <= |ids|
  {
    if ids == [] || !LeaseAccepted(now, timeout(ids[0])) then 0 else 1 + ClaimedCount(ids[1..], now, timeout)
  }

  function RecoveryClaim(id: RunId, term: nat, now: int, timeout: RunId -> int): Command {
    ClaimRun(id, term, now, RecoveryLease(now, timeout(id)))
  }

  function RecoveryClaims(ids: seq<RunId>, term: nat, now: int, timeout: RunId -> int): seq<Command> {
    if ids == [] then []
    else RecoveryClaims(ids[..|ids| - 1], term, now, timeout) + [RecoveryClaim(ids[|ids| - 1], term, now, timeout)]
  }

  predicate Unfinished(s: State, run: RunId, node: string) {
    (run, node) in s.tasks ==> !Terminal(s.tasks[(run, node)].status)
  }

  /** The targets among these without a terminal task, in order. */
  function Left(s: State, run: RunId, targets: seq<string>): seq<string> {
    if targets == [] then []
    else
      var last := targets[|targets| - 1];
      Left(s, run, targets[..|targets| - 1]) + if Unfinished(s, run, last) then [last] else []
  }

  function TargetsOf(s: State, run: RunId): seq<string> { if run in s.runs then s.runs[run].targets else [] }

  /** What is left to dispatch of the given runs; a run with nothing left needs no dispatch. */
  function PlansFor(s: State, ids: seq<RunId>): seq<Plan> {
    if ids == [] then []
    else
      var last := ids[|ids| - 1];
      var left := Left(s, last, TargetsOf(s, last));
      PlansFor(s, ids[..|ids| - 1]) + if left != [] then [Plan(last, left)] else []
  }

  function Reports(run: RunId, term: nat, targets: seq<string>, report: string -> TaskStatus): seq<Command> {
    if targets == [] then []
    else
      var last := targets[|targets| - 1];
      Reports(run, term, targets[..|targets| - 1], report) + [UpdateTask(run, last, report(last), term)]
  }

  /** The reports of all plans, one plan after the other. */
  function AllReports(plans: seq<Plan>, term: nat, report: string -> TaskStatus): seq<Command> {
    if plans == [] then []
    else
      var last := plans[|plans| - 1];
      AllReports(plans[..|plans| - 1], term, report) + Reports(last.run, term, last.targets, report)
  }

  function Dispatches(plans: seq<Plan>, term: nat): seq<Dispatch> {
    if plans == [] then []
    else Dispatches(plans[..|plans| - 1], term) + [Dispatch(plans[|plans| - 1].run, term)]
  }

  lemma OneMorePlan(plans: seq<Plan>, i: nat, term: nat, report: string -> TaskStatus)
    requires i < |plans|
    ensures AllReports(plans[..i + 1], term, report)
            == AllReports(plans[..i], term, report) + Reports(plans[i].run, term, plans[i].targets, report)
    ensures Dispatches(plans[..i + 1], term) == Dispatches(plans[..i], term) + [Dispatch(plans[i].run, term)]
  {
    assert plans[..i + 1][..i] == plans[..i];
  }

  predicate RecoveryFails(before: Situation, listing: seq<RunId>, term: nat, now: int, timeout: RunId -> int) {
    var ids := Candidates(After(before.log), listing, term, now);
    ClaimedCount(ids, now, timeout) < |ids|
  }

  /** Claims every abandoned run up to the first refusal, and dispatches what is left of them if there is none. */
  function AfterRecovery(before: Situation, listing: seq<RunId>, term: nat, now: int, timeout: RunId -> int,
                         report: string -> TaskStatus): Situation
  {
    var s := After(before.log);
    var ids := Candidates(s, listing, term, now);
    var n := ClaimedCount(ids, now, timeout);
    var log := before.log + RecoveryClaims(ids[..n], term, now, timeout);
    if n < |ids| then before.(log := log)
    else
      var plans := PlansFor(s, ids);
      Situation(log + AllReports(plans, term, report), before.dispatched + Dispatches(plans, term), before.memo)
  }

  // ---- claiming a fire -------------------------------------------------------------------------------------

  predicate Known(before: Situation, cmd: Command)
    requires cmd.ClaimScheduled?
  {
    cmd.key in before.memo && before.memo[cmd.key] == cmd.term
  }

  /** What the control plane answers with an error instead of a claim that was not acquired. */
  predicate Refuses(s: State, cmd: Command)
    requires cmd.ClaimScheduled?
  {
    if cmd.key in s.ledger then
      var f := s.ledger[cmd.key];
      f.runId !in s.runs ||
      (!s.runs[f.runId].ended && f.lease <= cmd.now && f.term < cmd.term && !(f.lease == 0 && !f.ended) &&
       cmd.lease != 0 && !ValidLease(cmd.now, cmd.lease))
    else !Opens(s, cmd)
  }

  predicate ClaimFails(before: Situation, cmd: Command)
    requires cmd.ClaimScheduled?
  {
    !Known(before, cmd) && Refuses(After(before.log), cmd)
  }

  /** A fire in the memo is passed over and a refused claim changes nothing; a claim that acquires is remembered
      and dispatched, one that does not is only in the log. */
  function AfterClaim(before: Situation, cmd: Command, report: string -> TaskStatus): Situation
    requires cmd.ClaimScheduled?
  {
    var s, run := After(before.log), Scheduled(cmd.key);
    if Known(before, cmd) || Refuses(s, cmd) then before
    else if Acquires(s, cmd) then
      Situation(before.log + [cmd] + Reports(run, cmd.term, TargetsOf(Apply(s, cmd), run), report),
                before.dispatched + [Dispatch(run, cmd.term)], before.memo[cmd.key := cmd.term])
    else before.(log := before.log + [cmd])
  }

  // ---- one policy, and all of them -------------------------------------------------------------------------

  predicate Active(v: PolicyView) { v.enabled && v.policyId != "" && v.schedule != [] }

  /** The answer of the look-back; there is exactly one. */
  ghost function FireOf(v: PolicyView, now: int): (r: Cron.Answer)
    ensures Cron.IsPrevious(v.schedule, v.cal, now, r)
  {
    Cron.PreviousExists(v.schedule, v.cal, now);
    var r :| Cron.IsPrevious(v.schedule, v.cal, now, r);
    r
  }

  function ClaimFor(v: PolicyView, fire: int, term: nat, now: int): Command {
    ClaimScheduled(FireKey(v.policyId, fire / SECOND), Sorting.SortBy(StringOrder.StrLess, v.targets), term,
                   now / SECOND, now / SECOND + EffectiveTimeout(v.timeout), v.accepted)
  }

  /** The schedule is malformed, or has not fired in the last 366 days. */
  ghost predicate HasNoFire(v: PolicyView, now: int) { Active(v) && FireOf(v, now) == Cron.Invalid }

  ghost predicate IsDue(v: PolicyView, now: int) { Active(v) && FireOf(v, now).At? }

  /** The policy ends the tick with an error. */
  ghost predicate ViewFails(before: Situation, v: PolicyView, term: nat, now: int) {
    HasNoFire(v, now) || (IsDue(v, now) && ClaimFails(before, ClaimFor(v, FireOf(v, now).time, term, now)))
  }

  ghost function AfterView(before: Situation, v: PolicyView, term: nat, now: int, report: string -> TaskStatus): Situation {
    if IsDue(v, now) then AfterClaim(before, ClaimFor(v, FireOf(v, now).time, term, now), report) else before
  }

  /** After the first n policies. */
  ghost function AfterViews(before: Situation, views: seq<PolicyView>, n: nat, term: nat, now: int,
                            report: string -> TaskStatus): Situation
    requires n <= |views|
  {
    if n == 0 then before
    else AfterView(AfterViews(before, views, n - 1, term, now, report), views[n - 1], term, now, report)
  }

  // ---- the code --------------------------------------------------------------------------------------------

  method UnfinishedTargets(s: State, run: RunId) returns (targets: seq<string>)
    requires run in s.runs
    ensures targets == Left(s, run, s.runs[run].targets)
  {
    targets := [];
    var all := s.runs[run].targets;
    for i := 0 to |all|
      invariant targets == Left(s, run, all[..i])
    {
      assert all[..i + 1][..i] == all[..i];
      if Unfinished(s, run, all[i]) {
        targets := targets + [all[i]];
      }
    }
    assert all[..|all|] == all;
  }

  class Cluster {
    var state: State
    /** Every dispatch of a run by a tick, in order. */
    var dispatched: seq<Dispatch>
    ghost var log: seq<Command>

    ghost predicate Valid()
      reads this
    {
      state == After(log)
    }

    constructor ()
      ensures Valid() && dispatched == [] && log == []
    {
      state, dispatched, log := Empty(), [], [];
    }

    /** Any command, from a tick, an executor's report or an operator. */
    method Submit(cmd: Command)
      requires Valid()
      modifies this
      ensures Valid() && log == old(log) + [cmd] && state == Apply(old(state), cmd) && dispatched == old(dispatched)
    {
      state := Apply(state, cmd);
      log := log + [cmd];
    }

    /** Dispatches the given targets and takes their reports. */
    method DispatchRun(run: RunId, term: nat, targets: seq<string>, report: string -> TaskStatus)
      requires Valid()
      modifies this
      ensures Valid() && dispatched == old(dispatched) + [Dispatch(run, term)]
      ensures log == old(log) + Reports(run, term, targets, report)
    {
      dispatched := dispatched + [Dispatch(run, term)];
      for i := 0 to |targets|
        invariant Valid() && dispatched == old(dispatched) + [Dispatch(run, term)]
        invariant log == old(log) + Reports(run, term, targets[..i], report)
      {
        Submit(UpdateTask(run, targets[i], report(targets[i]), term));
        assert targets[..i + 1][..i] == targets[..i];
      }
      assert targets[..|targets|] == targets;
    }
  }

  /** Claims change neither tasks nor targets, and leave the runs still to be claimed alone. */
  predicate StillWaiting(first: State, s: State, ids: seq<RunId>, term: nat, now: int) {
    s.tasks == first.tasks && (forall r :: r in first.runs ==> r in s.runs && s.runs[r].targets == first.runs[r].targets) &&
    forall k :: 0 <= k < |ids| ==> Abandoned(s, ids[k], term, now)
  }

  lemma ClaimKeepsWaiting(first: State, s: State, ids: seq<RunId>, term: nat, now: int, timeout: RunId -> int)
    requires ids != [] && StillWaiting(first, s, ids, term, now) && LeaseAccepted(now, timeout(ids[0]))
    requires Sorting.NoDuplicates(ids)
    ensures
      var cmd := RecoveryClaim(ids[0], term, now, timeout);
      var n := Apply(s, cmd);
      Recovers(s, cmd) && StillWaiting(first, n, ids[1..], term, now) && ids[0] in n.runs &&
      TermOf(n, ids[0]) == term && n.runs[ids[0]].lease == cmd.lease
  {
    var n := Apply(s, RecoveryClaim(ids[0], term, now, timeout));
    forall k | 0 <= k < |ids[1..]| ensures Abandoned(n, ids[1..][k], term, now) {
      assert ids[1..][k] == ids[k + 1] && ids[k + 1] != ids[0];
    }
  }

  lemma {:induction false} LeftSame(first: State, s: State, run: RunId, targets: seq<string>)
    requires s.tasks == first.tasks
    ensures Left(s, run, targets) == Left(first, run, targets)
  {
    if targets != [] {
      LeftSame(first, s, run, targets[..|targets| - 1]);
    }
  }

  lemma {:induction false} CandidatesFacts(s: State, listing: seq<RunId>, term: nat, now: int)
    requires Sorting.NoDuplicates(listing)
    ensures Sorting.NoDuplicates(Candidates(s, listing, term, now))
    ensures forall r :: r in Candidates(s, listing, term, now) <==> r in listing && Abandoned(s, r, term, now)
  {
    if listing != [] {
      var init, last := listing[..|listing| - 1], listing[|listing| - 1];
      CandidatesFacts(s, init, term, now);
      assert listing == init + [last] && last !in init;
    }
  }

  lemma {:induction false} ClaimedCountFacts(ids: seq<RunId>, now: int, timeout: RunId -> int, i: nat)
    requires i < |ids| && i <= ClaimedCount(ids, now, timeout)
    ensures i < ClaimedCount(ids, now, timeout) <==> LeaseAccepted(now, timeout(ids[i]))
  {
    if i > 0 {
      ClaimedCountFacts(ids[1..], now, timeout, i - 1);
    }
  }

  /** Takes over the abandoned runs among those listed, in the listing's order. A refused lease ends the tick. */
  method ClaimRecoverableRuns(c: Cluster, listing: seq<RunId>, term: nat, now: int, timeout: RunId -> int)
    returns (failed: bool, plans: seq<Plan>)
    requires c.Valid() && Sorting.NoDuplicates(listing)
    modifies c
    ensures c.Valid() && c.dispatched == old(c.dispatched)
    ensures
      var ids := Candidates(old(c.state), listing, term, now);
      var n := ClaimedCount(ids, now, timeout);
      && failed == (n < |ids|)
      && c.log == old(c.log) + RecoveryClaims(ids[..n], term, now, timeout)
      && plans == if failed then [] else PlansFor(old(c.state), ids)
  {
    var ids := ListAbandoned(c, listing, term, now);
    CandidatesFacts(c.state, listing, term, now);
    failed, plans := ClaimAll(c, ids, term, now, timeout);
  }

  method ListAbandoned(c: Cluster, listing: seq<RunId>, term: nat, now: int) returns (ids: seq<RunId>)
    ensures ids == Candidates(c.state, listing, term, now)
  {
    ids := [];
    for i := 0 to |listing|
      invariant ids == Candidates(c.state, listing[..i], term, now)
    {
      assert listing[..i + 1][..i] == listing[..i];
      if Abandoned(c.state, listing[i], term, now) {
        ids := ids + [listing[i]];
      }
    }
    assert listing[..|listing|] == listing;
  }

  method ClaimAll(c: Cluster, ids: seq<RunId>, term: nat, now: int, timeout: RunId -> int)
    returns (failed: bool, plans: seq<Plan>)
    requires c.Valid() && Sorting.NoDuplicates(ids) && StillWaiting(c.state, c.state, ids, term, now)
    modifies c
    ensures c.Valid() && c.dispatched == old(c.dispatched)
    ensures
      var n := ClaimedCount(ids, now, timeout);
      && failed == (n < |ids|)
      && c.log == old(c.log) + RecoveryClaims(ids[..n], term, now, timeout)
      && plans == if failed then [] else PlansFor(old(c.state), ids)
  {
    failed, plans := false, [];
    ghost var first, was := c.state, c.log;
    var i := 0;
    assert ids[0..] == ids && ids[..0] == [];
    while i < |ids| && LeaseAccepted(now, timeout(ids[i]))
      invariant c.Valid() && c.dispatched == old(c.dispatched) && i <= |ids|
      invariant HalfClaimed(first, was, ids, i, c.state, c.log, plans, term, now, timeout)
    {
      ghost var log, before := c.log, plans;
      plans := RecoverRun(c, first, ids[i..], term, now, timeout, plans);
      OneMoreClaim(first, was, ids, i, log, before, term, now, timeout);
      i := i + 1;
    }
    if i < |ids| {
      ClaimedCountFacts(ids, now, timeout, i);
      return true, [];
    }
    assert ids[..|ids|] == ids;
  }

  /** The first i runs are claimed and planned. */
  predicate HalfClaimed(first: State, was: seq<Command>, ids: seq<RunId>, i: nat, s: State, log: seq<Command>,
                        plans: seq<Plan>, term: nat, now: int, timeout: RunId -> int)
    requires i <= |ids|
  {
    && i <= ClaimedCount(ids, now, timeout) && StillWaiting(first, s, ids[i..], term, now)
    && log == was + RecoveryClaims(ids[..i], term, now, timeout) && plans == PlansFor(first, ids[..i])
  }

  lemma OneMoreClaim(first: State, was: seq<Command>, ids: seq<RunId>, i: nat, log: seq<Command>, plans: seq<Plan>,
                     term: nat, now: int, timeout: RunId -> int)
    requires i < |ids| && i <= ClaimedCount(ids, now, timeout) && LeaseAccepted(now, timeout(ids[i]))
    requires log == was + RecoveryClaims(ids[..i], term, now, timeout) && plans == PlansFor(first, ids[..i])
    ensures i + 1 <= ClaimedCount(ids, now, timeout) && ids[i..][0] == ids[i] && ids[i..][1..] == ids[i + 1..]
    ensures log + [RecoveryClaim(ids[i], term, now, timeout)] == was + RecoveryClaims(ids[..i + 1], term, now, timeout)
    ensures
      var left := Left(first, ids[i], TargetsOf(first, ids[i]));
      PlansFor(first, ids[..i + 1]) == plans + if left != [] then [Plan(ids[i], left)] else []
  {
    assert ids[..i + 1][..i] == ids[..i];
    ClaimedCountFacts(ids, now, timeout, i);
  }

  /** Claims the first of the waiting runs, reads it back, and plans what is left of it. */
  method RecoverRun(c: Cluster, ghost first: State, ids: seq<RunId>, term: nat, now: int, timeout: RunId -> int,
                    plans: seq<Plan>)
    returns (replanned: seq<Plan>)
    requires c.Valid() && ids != [] && Sorting.NoDuplicates(ids) && LeaseAccepted(now, timeout(ids[0]))
    requires StillWaiting(first, c.state, ids, term, now) && ids[0] in first.runs
    modifies c
    ensures c.Valid() && c.dispatched == old(c.dispatched)
    ensures c.log == old(c.log) + [RecoveryClaim(ids[0], term, now, timeout)]
    ensures StillWaiting(first, c.state, ids[1..], term, now)
    ensures
      var left := Left(first, ids[0], first.runs[ids[0]].targets);
      replanned == plans + if left != [] then [Plan(ids[0], left)] else []
  {
    var id := ids[0];
    ClaimKeepsWaiting(first, c.state, ids, term, now, timeout);
    c.Submit(RecoveryClaim(id, term, now, timeout));
    replanned := plans;
    if TermOf(c.state, id) == term && c.state.runs[id].lease == RecoveryLease(now, timeout(id)) {
      var targets := UnfinishedTargets(c.state, id);
      LeftSame(first, c.state, id, first.runs[id].targets);
      if targets != [] {
        replanned := plans + [Plan(id, targets)];
      }
    }
  }

  class Coordinator {
    /** Fire to the term it was last dispatched in. */
    var dispatch: map<FireKey, nat>

    constructor ()
      ensures dispatch == map[]
    {
      dispatch := map[];
    }

    ghost function View(c: Cluster): Situation
      reads this, c
    {
      Situation(c.log, c.dispatched, dispatch)
    }

    method WasDispatched(key: FireKey, term: nat) returns (r: bool)
      ensures r <==> key in dispatch && dispatch[key] == term
    {
      return key in dispatch && dispatch[key] == term;
    }

    method MarkDispatched(key: FireKey, term: nat)
      modifies this
      ensures dispatch == old(dispatch)[key := term]
    {
      dispatch := dispatch[key := term];
    }

    /** Dispatches what the tick took over. */
    method DispatchPlans(c: Cluster, term: nat, plans: seq<Plan>, report: string -> TaskStatus)
      requires c.Valid()
      modifies c
      ensures c.Valid() && c.log == old(c.log) + AllReports(plans, term, report)
      ensures c.dispatched == old(c.dispatched) + Dispatches(plans, term)
    {
      for i := 0 to |plans|
        invariant c.Valid() && c.log == old(c.log) + AllReports(plans[..i], term, report)
        invariant c.dispatched == old(c.dispatched) + Dispatches(plans[..i], term)
      {
        OneMorePlan(plans, i, term, report);
        c.DispatchRun(plans[i].run, term, plans[i].targets, report);
      }
      assert plans[..|plans|] == plans;
    }

    /** Takes over the abandoned runs and dispatches what is left of them. */
    method RecoverAndDispatch(c: Cluster, listing: seq<RunId>, term: nat, unix: int, timeout: RunId -> int,
                              report: string -> TaskStatus) returns (failed: bool)
      requires c.Valid() && Sorting.NoDuplicates(listing)
      modifies c
      ensures c.Valid() && View(c) == AfterRecovery(old(View(c)), listing, term, unix, timeout, report)
      ensures failed == RecoveryFails(old(View(c)), listing, term, unix, timeout)
    {
      var plans;
      failed, plans := ClaimRecoverableRuns(c, listing, term, unix, timeout);
      if !failed {
        DispatchPlans(c, term, plans, report);
      }
    }

    /** Claims one due fire and, if that made this term its owner, dispatches its run. */
    method ClaimAndDispatch(c: Cluster, cmd: Command, report: string -> TaskStatus) returns (failed: bool)
      requires c.Valid() && cmd.ClaimScheduled?
      modifies this, c
      ensures c.Valid() && View(c) == AfterClaim(old(View(c)), cmd, report)
      ensures failed == ClaimFails(old(View(c)), cmd)
    {
      failed := false;
      var known := WasDispatched(cmd.key, cmd.term);
      if known {
        return;
      }
      if Refuses(c.state, cmd) {
        return true;
      }
      var acquired := Acquires(c.state, cmd);
      c.Submit(cmd);
      if acquired {
        MarkDispatched(cmd.key, cmd.term);
        c.DispatchRun(Scheduled(cmd.key), cmd.term, TargetsOf(c.state, Scheduled(cmd.key)), report);
      }
    }

    /** One policy of a tick: nothing, an error, or a claim of its latest fire. */
    method Consider(c: Cluster, view: PolicyView, term: nat, now: int, report: string -> TaskStatus)
      returns (failed: bool)
      requires c.Valid()
      modifies this, c
      ensures c.Valid() && View(c) == AfterView(old(View(c)), view, term, now, report)
      ensures failed == ViewFails(old(View(c)), view, term, now)
    {
      failed := false;
      if !Active(view) {
        return;
      }
      var fire := Cron.PreviousOrEqualAt(view.schedule, view.cal, now);
      Cron.SearchesAgree(view.schedule, view.cal, now, fire, FireOf(view, now));
      if fire == Cron.Invalid {
        return true;
      }
      if fire != Cron.Disabled && fire.time <= now {
        failed := ClaimAndDispatch(c, ClaimFor(view, fire.time, term, now), report);
      }
    }

    /** The policies one after the other, up to the first that fails. */
    method ConsiderAll(c: Cluster, views: seq<PolicyView>, term: nat, now: int, report: string -> TaskStatus)
      returns (failed: bool, ghost upTo: nat)
      requires c.Valid()
      modifies this, c
      ensures c.Valid() && StopsAt(old(View(c)), views, upTo, failed, term, now, report)
      ensures View(c) == AfterViews(old(View(c)), views, upTo, term, now, report)
    {
      failed, upTo := false, 0;
      ghost var start := View(c);
      for v := 0 to |views|
        invariant c.Valid() && upTo == v && !failed
        invariant NoneFails(start, views, v, term, now, report) && View(c) == AfterViews(start, views, v, term, now, report)
      {
        ghost var s := View(c);
        failed := Consider(c, views[v], term, now, report);
        if failed {
          FailedViewChangesNothing(s, views[v], term, now, report);
          return;
        }
        upTo := v + 1;
      }
    }

    /** One tick: recovery, then the policies one after the other up to the first that fails. A policy is
        considered exactly when recovery succeeds and no policy before it fails. */
    method Tick(c: Cluster, leader: bool, term: nat, now: int, listing: seq<RunId>, views: seq<PolicyView>,
                timeout: RunId -> int, report: string -> TaskStatus) returns (failed: bool, ghost upTo: nat)
      requires c.Valid() && Sorting.NoDuplicates(listing)
      modifies this, c
      ensures c.Valid() && upTo <= |views|
      ensures !leader || term == 0 ==> !failed && View(c) == old(View(c))
      ensures leader && term > 0 ==>
        Ticked(old(View(c)), View(c), failed, upTo, term, now, listing, views, timeout, report)
    {
      failed, upTo := false, 0;
      if !leader || term == 0 {
        return;
      }
      failed := RecoverAndDispatch(c, listing, term, now / SECOND, timeout, report);
      if !failed {
        failed, upTo := ConsiderAll(c, views, term, now, report);
      }
    }
  }

  /** None of the first n policies fails. */
  ghost predicate NoneFails(start: Situation, views: seq<PolicyView>, n: nat, term: nat, now: int,
                            report: string -> TaskStatus)
    requires n <= |views|
  {
    forall v :: 0 <= v < n ==> !ViewFails(AfterViews(start, views, v, term, now, report), views[v], term, now)
  }

  /** n is the first policy that fails, or their number if none does. */
  ghost predicate StopsAt(start: Situation, views: seq<PolicyView>, n: nat, failed: bool, term: nat, now: int,
                          report: string -> TaskStatus)
  {
    n <= |views| && NoneFails(start, views, n, term, now, report) && failed == (n < |views|) &&
    (failed ==> ViewFails(AfterViews(start, views, n, term, now, report), views[n], term, now))
  }

  /** What a leader's tick does, and where it stops. */
  ghost predicate Ticked(before: Situation, after: Situation, failed: bool, upTo: nat, term: nat, now: int,
                         listing: seq<RunId>, views: seq<PolicyView>, timeout: RunId -> int, report: string -> TaskStatus)
  {
    var start := AfterRecovery(before, listing, term, now / SECOND, timeout, report);
    if RecoveryFails(before, listing, term, now / SECOND, timeout) then failed && upTo == 0 && after == start
    else StopsAt(start, views, upTo, failed, term, now, report) && after == AfterViews(start, views, upTo, term, now, report)
  }

  lemma FailedViewChangesNothing(before: Situation, v: PolicyView, term: nat, now: int, report: string -> TaskStatus)
    requires ViewFails(before, v, term, now)
    ensures AfterView(before, v, term, now, report) == before
  {
  }
}
