/** What ticks keep, over every run of any number of coordinators, and which policies a tick reaches. */
module BackupTickLaws {
  import opened BackupClaims
  import opened BackupClaimLaws
  import opened BackupTick
  import Cron
  import Sorting

  // ---- acquisitions in a growing log -----------------------------------------------------------------------

  /** The dispatch of a run in a term follows an acquisition of the run by that term. */
  ghost predicate Backed(log: seq<Command>, d: Dispatch) {
    exists i: nat :: AcquiredAt(log, i, d.run) && log[i].term == d.term
  }

  /** Some entry from n on acquired the run for the term. */
  ghost predicate AcquiredSince(log: seq<Command>, n: nat, d: Dispatch) {
    exists i: nat :: n <= i && AcquiredAt(log, i, d.run) && log[i].term == d.term
  }

  lemma AcquiredStays(log: seq<Command>, more: seq<Command>, i: nat, run: RunId)
    requires log <= more && i < |log|
    ensures AcquiredAt(more, i, run) <==> AcquiredAt(log, i, run)
  {
    assert more[..i] == log[..i];
  }

  lemma BackedStays(log: seq<Command>, more: seq<Command>, d: Dispatch)
    requires log <= more && Backed(log, d)
    ensures Backed(more, d)
  {
    var i: nat :| AcquiredAt(log, i, d.run) && log[i].term == d.term;
    AcquiredStays(log, more, i, d.run);
  }

  /** A new acquisition is not one that was dispatched before. */
  lemma NewOwnerIsFresh(log: seq<Command>, more: seq<Command>, d: Dispatch, term: nat)
    requires log <= more && Backed(log, d) && AcquiredSince(more, |log|, Dispatch(d.run, term))
    ensures d.term < term
  {
    var i: nat :| AcquiredAt(log, i, d.run) && log[i].term == d.term;
    var j: nat :| |log| <= j && AcquiredAt(more, j, d.run) && more[j].term == term;
    AcquiredStays(log, more, i, d.run);
    OwnersIncrease(more, i, j, d.run);
  }

  /** A term that owned a run, by a dispatch the memo remembers or otherwise, is refused it for ever, even after
      its lease ran out: only a later term can pick the run up. */
  lemma OnlyLaterTerms(log: seq<Command>, d: Dispatch, cmd: Command)
    requires Backed(log, d)
    ensures RunOf(cmd) == d.run && Acquires(After(log), cmd) ==> d.term < cmd.term
  {
    if RunOf(cmd) == d.run && Acquires(After(log), cmd) {
      var i: nat :| AcquiredAt(log, i, d.run) && log[i].term == d.term;
      var more := log + [cmd];
      assert more[..|log|] == log;
      AcquiredStays(log, more, i, d.run);
      OwnersIncrease(more, i, |log|, d.run);
    }
  }

  // ---- what every tick keeps -------------------------------------------------------------------------------

  /** No (run, term) was dispatched twice, every dispatch follows an acquisition, and the memo remembers dispatches
      only. */
  ghost predicate Ok(s: Situation) {
    && Sorting.NoDuplicates(s.dispatched)
    && (forall d :: d in s.dispatched ==> Backed(s.log, d))
    && (forall k :: k in s.memo ==> Dispatch(Scheduled(k), s.memo[k]) in s.dispatched)
  }

  lemma LongerLogOk(s: Situation, more: seq<Command>)
    requires Ok(s) && s.log <= more
    ensures Ok(s.(log := more))
  {
    forall d | d in s.dispatched ensures Backed(more, d) {
      BackedStays(s.log, more, d);
    }
  }

  lemma OneMoreDispatch(s: Situation, d: Dispatch)
    requires Ok(s) && Backed(s.log, d) && d !in s.dispatched
    ensures Ok(s.(dispatched := s.dispatched + [d]))
  {
  }

  /** A claim that acquires is a new dispatch. */
  lemma ClaimIsNew(s: Situation, cmd: Command)
    requires Ok(s) && cmd.ClaimScheduled? && Acquires(After(s.log), cmd)
    ensures Backed(s.log + [cmd], Dispatch(Scheduled(cmd.key), cmd.term))
    ensures Dispatch(Scheduled(cmd.key), cmd.term) !in s.dispatched
  {
    var more, d := s.log + [cmd], Dispatch(Scheduled(cmd.key), cmd.term);
    assert more[..|s.log|] == s.log;
    assert AcquiredAt(more, |s.log|, d.run);
    if d in s.dispatched {
      OnlyLaterTerms(s.log, d, cmd);
    }
  }

  lemma ClaimKeepsOk(s: Situation, cmd: Command, report: string -> TaskStatus)
    requires Ok(s) && cmd.ClaimScheduled?
    ensures Ok(AfterClaim(s, cmd, report))
    ensures s.log <= AfterClaim(s, cmd, report).log && s.dispatched <= AfterClaim(s, cmd, report).dispatched
  {
    var n := AfterClaim(s, cmd, report);
    if !Known(s, cmd) && !Refuses(After(s.log), cmd) && Acquires(After(s.log), cmd) {
      ClaimIsNew(s, cmd);
      var d := Dispatch(Scheduled(cmd.key), cmd.term);
      LongerLogOk(s, s.log + [cmd]);
      OneMoreDispatch(s.(log := s.log + [cmd]), d);
      assert d in n.dispatched;
      LongerLogOk(Situation(s.log + [cmd], n.dispatched, n.memo), n.log);
    } else {
      LongerLogOk(s, n.log);
    }
  }

  lemma {:induction false} ViewsKeepOk(s: Situation, views: seq<PolicyView>, n: nat, term: nat, now: int,
                                       report: string -> TaskStatus)
    requires Ok(s) && n <= |views|
    ensures Ok(AfterViews(s, views, n, term, now, report))
    ensures s.log <= AfterViews(s, views, n, term, now, report).log
    ensures s.dispatched <= AfterViews(s, views, n, term, now, report).dispatched
  {
    if n > 0 {
      ViewsKeepOk(s, views, n - 1, term, now, report);
      var m, v := AfterViews(s, views, n - 1, term, now, report), views[n - 1];
      if IsDue(v, now) {
        ClaimKeepsOk(m, ClaimFor(v, FireOf(v, now).time, term, now), report);
      }
    }
  }

  // ---- recovery --------------------------------------------------------------------------------------------

  /** Since the log was `first`, exactly the first n runs were claimed, each acquired. */
  ghost predicate AllAcquired(first: seq<Command>, log: seq<Command>, ids: seq<RunId>, n: nat, term: nat, now: int,
                              timeout: RunId -> int)
    requires n <= |ids|
  {
    && first <= log && |log| == |first| + n && StillWaiting(After(first), After(log), ids[n..], term, now)
    && forall k :: 0 <= k < n ==>
      AcquiredAt(log, |first| + k, ids[k]) && log[|first| + k] == RecoveryClaim(ids[k], term, now, timeout)
  }

  lemma NextClaimAcquires(first: seq<Command>, log: seq<Command>, ids: seq<RunId>, i: nat, term: nat, now: int,
                          timeout: RunId -> int)
    requires i < |ids| && Sorting.NoDuplicates(ids) && LeaseAccepted(now, timeout(ids[i]))
    requires AllAcquired(first, log, ids, i, term, now, timeout)
    ensures AllAcquired(first, log + [RecoveryClaim(ids[i], term, now, timeout)], ids, i + 1, term, now, timeout)
  {
    var cmd := RecoveryClaim(ids[i], term, now, timeout);
    var more := log + [cmd];
    assert ids[i..][0] == ids[i] && ids[i..][1..] == ids[i + 1..];
    ClaimKeepsWaiting(After(first), After(log), ids[i..], term, now, timeout);
    assert more[..|log|] == log;
    forall k | 0 <= k < i + 1
      ensures AcquiredAt(more, |first| + k, ids[k]) && more[|first| + k] == RecoveryClaim(ids[k], term, now, timeout)
    {
      if k < i {
        AcquiredStays(log, more, |first| + k, ids[k]);
      }
    }
  }

  lemma NothingClaimedYet(log: seq<Command>, ids: seq<RunId>, term: nat, now: int, timeout: RunId -> int)
    requires forall k :: 0 <= k < |ids| ==> Abandoned(After(log), ids[k], term, now)
    ensures AllAcquired(log, log + RecoveryClaims(ids[..0], term, now, timeout), ids, 0, term, now, timeout)
  {
    assert ids[..0] == [] && ids[0..] == ids;
    assert log + RecoveryClaims(ids[..0], term, now, timeout) == log;
  }

  lemma ClaimsEnd(log: seq<Command>, ids: seq<RunId>, n: nat, term: nat, now: int, timeout: RunId -> int)
    requires 0 < n <= |ids|
    ensures log + RecoveryClaims(ids[..n], term, now, timeout) ==
            log + RecoveryClaims(ids[..n - 1], term, now, timeout) + [RecoveryClaim(ids[n - 1], term, now, timeout)]
  {
    assert ids[..n][..n - 1] == ids[..n - 1];
  }

  /** The claims of recovery acquire their runs one after the other. */
  lemma {:induction false} ClaimsAcquire(log: seq<Command>, ids: seq<RunId>, n: nat, term: nat, now: int,
                                         timeout: RunId -> int)
    requires n <= ClaimedCount(ids, now, timeout) && Sorting.NoDuplicates(ids)
    requires forall k :: 0 <= k < |ids| ==> Abandoned(After(log), ids[k], term, now)
    ensures AllAcquired(log, log + RecoveryClaims(ids[..n], term, now, timeout), ids, n, term, now, timeout)
  {
    if n == 0 {
      NothingClaimedYet(log, ids, term, now, timeout);
    } else {
      ClaimsAcquire(log, ids, n - 1, term, now, timeout);
      ClaimedCountFacts(ids, now, timeout, n - 1);
      NextClaimAcquires(log, log + RecoveryClaims(ids[..n - 1], term, now, timeout), ids, n - 1, term, now, timeout);
      ClaimsEnd(log, ids, n, term, now, timeout);
    }
  }

  lemma AcquiredOnes(first: seq<Command>, log: seq<Command>, ids: seq<RunId>, term: nat, now: int, timeout: RunId -> int)
    requires AllAcquired(first, log, ids, |ids|, term, now, timeout)
    ensures forall r :: r in ids ==> AcquiredSince(log, |first|, Dispatch(r, term))
    ensures forall i :: |first| <= i < |log| ==> log[i].ClaimRun? && log[i].run in ids
  {
    forall r | r in ids ensures AcquiredSince(log, |first|, Dispatch(r, term)) {
      var i :| 0 <= i < |ids| && ids[i] == r;
      assert AcquiredAt(log, |first| + i, ids[i]) && log[|first| + i] == RecoveryClaim(ids[i], term, now, timeout);
    }
    forall i | |first| <= i < |log| ensures log[i].ClaimRun? && log[i].run in ids {
      assert log[|first| + (i - |first|)] == RecoveryClaim(ids[i - |first|], term, now, timeout);
    }
  }

  /** The plans are for different runs among those claimed. */
  lemma {:induction false} PlansFacts(s: State, ids: seq<RunId>)
    requires Sorting.NoDuplicates(ids)
    ensures forall i, j :: 0 <= i < j < |PlansFor(s, ids)| ==> PlansFor(s, ids)[i].run != PlansFor(s, ids)[j].run
    ensures forall r :: (exists p :: p in PlansFor(s, ids) && p.run == r) <==> r in ids && Left(s, r, TargetsOf(s, r)) != []
    ensures forall p :: p in PlansFor(s, ids) ==> p.run in ids && p.targets == Left(s, p.run, TargetsOf(s, p.run))
  {
    if ids != [] {
      var init, last := ids[..|ids| - 1], ids[|ids| - 1];
      PlansFacts(s, init);
      assert ids == init + [last] && last !in init;
      var left := Left(s, last, TargetsOf(s, last));
      if left != [] {
        var plans := PlansFor(s, init);
        assert PlansFor(s, ids) == plans + [Plan(last, left)];
        assert forall k :: 0 <= k < |plans| ==> plans[k] in plans;
        assert Plan(last, left) in PlansFor(s, ids);
      }
    }
  }

  /** Dispatching different runs that were acquired since keeps everything in order. */
  lemma {:induction false} PlansKeepOk(s: Situation, log: seq<Command>, plans: seq<Plan>, term: nat)
    requires Ok(s) && s.log <= log
    requires forall i, j :: 0 <= i < j < |plans| ==> plans[i].run != plans[j].run
    requires forall i :: 0 <= i < |plans| ==> AcquiredSince(log, |s.log|, Dispatch(plans[i].run, term))
    ensures Ok(Situation(log, s.dispatched + Dispatches(plans, term), s.memo))
  {
    if plans == [] {
      assert s.dispatched + [] == s.dispatched;
      LongerLogOk(s, log);
    } else {
      var init, last := plans[..|plans| - 1], plans[|plans| - 1];
      PlansKeepOk(s, log, init, term);
      PlanIsNew(s, log, init, Dispatch(last.run, term));
      OneMoreDispatch(Situation(log, s.dispatched + Dispatches(init, term), s.memo), Dispatch(last.run, term));
      assert s.dispatched + Dispatches(plans, term) == s.dispatched + Dispatches(init, term) + [Dispatch(last.run, term)];
    }
  }

  lemma PlanIsNew(s: Situation, log: seq<Command>, plans: seq<Plan>, d: Dispatch)
    requires Ok(s) && s.log <= log && AcquiredSince(log, |s.log|, d)
    requires forall p :: p in plans ==> p.run != d.run
    ensures Backed(log, d) && d !in s.dispatched + Dispatches(plans, d.term)
  {
    DispatchesOf(plans, d.term);
    var i: nat :| |s.log| <= i && AcquiredAt(log, i, d.run) && log[i].term == d.term;
    assert Backed(log, d);
    if d in s.dispatched {
      NewOwnerIsFresh(s.log, log, d, d.term);
    }
  }

  lemma CandidatesAbandoned(s: State, listing: seq<RunId>, term: nat, now: int)
    requires Sorting.NoDuplicates(listing)
    ensures
      var ids := Candidates(s, listing, term, now);
      Sorting.NoDuplicates(ids) && forall k :: 0 <= k < |ids| ==> Abandoned(s, ids[k], term, now)
  {
    CandidatesFacts(s, listing, term, now);
    var ids := Candidates(s, listing, term, now);
    assert forall k :: 0 <= k < |ids| ==> ids[k] in ids;
  }

  /** A successful recovery's claims. */
  function ClaimedLog(before: Situation, listing: seq<RunId>, term: nat, now: int, timeout: RunId -> int): seq<Command> {
    before.log + RecoveryClaims(Candidates(After(before.log), listing, term, now), term, now, timeout)
  }

  lemma CandidatesAcquired(before: Situation, listing: seq<RunId>, term: nat, now: int, timeout: RunId -> int)
    requires Sorting.NoDuplicates(listing) && !RecoveryFails(before, listing, term, now, timeout)
    ensures
      var ids, log := Candidates(After(before.log), listing, term, now), ClaimedLog(before, listing, term, now, timeout);
      before.log <= log && AllAcquired(before.log, log, ids, |ids|, term, now, timeout)
  {
    var ids := Candidates(After(before.log), listing, term, now);
    CandidatesAbandoned(After(before.log), listing, term, now);
    ClaimsAcquire(before.log, ids, |ids|, term, now, timeout);
    assert ids[..|ids|] == ids;
  }

  lemma RecoveryIs(before: Situation, listing: seq<RunId>, term: nat, now: int, timeout: RunId -> int,
                   report: string -> TaskStatus)
    requires !RecoveryFails(before, listing, term, now, timeout)
    ensures
      var plans := PlansFor(After(before.log), Candidates(After(before.log), listing, term, now));
      AfterRecovery(before, listing, term, now, timeout, report) ==
      Situation(ClaimedLog(before, listing, term, now, timeout) + AllReports(plans, term, report),
                before.dispatched + Dispatches(plans, term), before.memo)
  {
    var ids := Candidates(After(before.log), listing, term, now);
    var n := ClaimedCount(ids, now, timeout);
    assert n == |ids| && ids[..n] == ids;
  }

  /** The runs taken over, once dispatched. */
  lemma RecoveredOk(before: Situation, ids: seq<RunId>, log: seq<Command>, term: nat, now: int, timeout: RunId -> int)
    requires Ok(before) && Sorting.NoDuplicates(ids) && AllAcquired(before.log, log, ids, |ids|, term, now, timeout)
    ensures Ok(Situation(log, before.dispatched + Dispatches(PlansFor(After(before.log), ids), term), before.memo))
  {
    var plans := PlansFor(After(before.log), ids);
    PlansFacts(After(before.log), ids);
    PlansAcquired(before.log, log, ids, plans, term, now, timeout);
    PlansKeepOk(before, log, plans, term);
  }

  lemma PlansAcquired(first: seq<Command>, log: seq<Command>, ids: seq<RunId>, plans: seq<Plan>, term: nat, now: int,
                      timeout: RunId -> int)
    requires AllAcquired(first, log, ids, |ids|, term, now, timeout) && forall p :: p in plans ==> p.run in ids
    ensures forall k :: 0 <= k < |plans| ==> AcquiredSince(log, |first|, Dispatch(plans[k].run, term))
  {
    AcquiredOnes(first, log, ids, term, now, timeout);
    forall k | 0 <= k < |plans| ensures AcquiredSince(log, |first|, Dispatch(plans[k].run, term)) {
      assert plans[k] in plans;
    }
  }

  lemma RecoveryKeepsOk(before: Situation, listing: seq<RunId>, term: nat, now: int, timeout: RunId -> int,
                        report: string -> TaskStatus)
    requires Ok(before) && Sorting.NoDuplicates(listing)
    ensures Ok(AfterRecovery(before, listing, term, now, timeout, report))
    ensures before.log <= AfterRecovery(before, listing, term, now, timeout, report).log
    ensures before.dispatched <= AfterRecovery(before, listing, term, now, timeout, report).dispatched
  {
    if RecoveryFails(before, listing, term, now, timeout) {
      LongerLogOk(before, AfterRecovery(before, listing, term, now, timeout, report).log);
    } else {
      var ids := Candidates(After(before.log), listing, term, now);
      var log := ClaimedLog(before, listing, term, now, timeout);
      CandidatesAcquired(before, listing, term, now, timeout);
      CandidatesAbandoned(After(before.log), listing, term, now);
      RecoveredOk(before, ids, log, term, now, timeout);
      RecoveryIs(before, listing, term, now, timeout, report);
      var plans := PlansFor(After(before.log), ids);
      LongerLogOk(Situation(log, before.dispatched + Dispatches(plans, term), before.memo),
                  log + AllReports(plans, term, report));
    }
  }

  /** Recovery fails exactly when the control plane refuses the lease asked for some abandoned run. */
  lemma RecoveryFailsExactly(before: Situation, listing: seq<RunId>, term: nat, now: int, timeout: RunId -> int)
    requires Sorting.NoDuplicates(listing)
    ensures RecoveryFails(before, listing, term, now, timeout) <==>
            exists r :: r in listing && Abandoned(After(before.log), r, term, now) && !LeaseAccepted(now, timeout(r))
  {
    var ids := Candidates(After(before.log), listing, term, now);
    CandidatesFacts(After(before.log), listing, term, now);
    AllAccepted(ids, now, timeout);
  }

  lemma {:induction false} AllAccepted(ids: seq<RunId>, now: int, timeout: RunId -> int)
    ensures ClaimedCount(ids, now, timeout) == |ids| <==> forall r :: r in ids ==> LeaseAccepted(now, timeout(r))
  {
    if ids != [] {
      AllAccepted(ids[1..], now, timeout);
      assert ids == [ids[0]] + ids[1..];
    }
  }

  /** A recovery that does not fail takes over exactly the listed runs that are abandoned... */
  lemma RecoveryTakesOver(before: Situation, listing: seq<RunId>, term: nat, now: int, timeout: RunId -> int,
                          report: string -> TaskStatus, r: RunId)
    requires Sorting.NoDuplicates(listing) && !RecoveryFails(before, listing, term, now, timeout)
    ensures
      var after := AfterRecovery(before, listing, term, now, timeout, report);
      AcquiredSince(after.log, |before.log|, Dispatch(r, term)) <==>
      r in listing && Abandoned(After(before.log), r, term, now)
  {
    var s := After(before.log);
    var ids, log := Candidates(s, listing, term, now), ClaimedLog(before, listing, term, now, timeout);
    CandidatesFacts(s, listing, term, now);
    CandidatesAcquired(before, listing, term, now, timeout);
    AcquiredOnes(before.log, log, ids, term, now, timeout);
    RecoveryIs(before, listing, term, now, timeout, report);
    AllReportsOnly(PlansFor(s, ids), term, report);
    ReportsAcquireNothing(log, AllReports(PlansFor(s, ids), term, report), |before.log|, Dispatch(r, term));
  }

  lemma ReportsAcquireNothing(log: seq<Command>, reports: seq<Command>, n: nat, d: Dispatch)
    requires forall i :: 0 <= i < |reports| ==> reports[i].UpdateTask?
    ensures AcquiredSince(log + reports, n, d) <==> AcquiredSince(log, n, d)
  {
    var more := log + reports;
    if AcquiredSince(log, n, d) {
      var i: nat :| n <= i && AcquiredAt(log, i, d.run) && log[i].term == d.term;
      AcquiredStays(log, more, i, d.run);
    }
    if AcquiredSince(more, n, d) {
      var i: nat :| n <= i && AcquiredAt(more, i, d.run) && more[i].term == d.term;
      AcquiredStays(log, more, i, d.run);
    }
  }

  lemma {:induction false} AllReportsOnly(plans: seq<Plan>, term: nat, report: string -> TaskStatus)
    ensures forall i :: 0 <= i < |AllReports(plans, term, report)| ==> AllReports(plans, term, report)[i].UpdateTask?
  {
    if plans != [] {
      AllReportsOnly(plans[..|plans| - 1], term, report);
      ReportsOnly(plans[|plans| - 1].run, term, plans[|plans| - 1].targets, report);
    }
  }

  /** ...and dispatches exactly those of them that have a target left. */
  lemma RecoveryDispatches(before: Situation, listing: seq<RunId>, term: nat, now: int, timeout: RunId -> int,
                           report: string -> TaskStatus, r: RunId)
    requires Sorting.NoDuplicates(listing) && !RecoveryFails(before, listing, term, now, timeout)
    ensures
      var s := After(before.log);
      Dispatch(r, term) in AfterRecovery(before, listing, term, now, timeout, report).dispatched <==>
      Dispatch(r, term) in before.dispatched ||
      (r in listing && Abandoned(s, r, term, now) && Left(s, r, TargetsOf(s, r)) != [])
  {
    var s := After(before.log);
    var ids := Candidates(s, listing, term, now);
    CandidatesFacts(s, listing, term, now);
    PlansFacts(s, ids);
    DispatchesOf(PlansFor(s, ids), term);
  }

  lemma {:induction false} DispatchesOf(plans: seq<Plan>, term: nat)
    ensures forall d :: d in Dispatches(plans, term) <==> exists p :: p in plans && d == Dispatch(p.run, term)
  {
    if plans != [] {
      DispatchesOf(plans[..|plans| - 1], term);
      assert plans == plans[..|plans| - 1] + [plans[|plans| - 1]];
    }
  }

  // ---- due fires are claimed -------------------------------------------------------------------------------

  lemma CommandKeepsLedger(s: State, cmd: Command)
    ensures s.ledger.Keys <= Apply(s, cmd).ledger.Keys
  {
  }

  lemma {:induction false} LedgerGrows(log: seq<Command>, more: seq<Command>)
    requires log <= more
    ensures After(log).ledger.Keys <= After(more).ledger.Keys
    decreases |more|
  {
    if log != more {
      var init := more[..|more| - 1];
      LedgerGrows(log, init);
      CommandKeepsLedger(After(init), more[|more| - 1]);
    }
  }

  lemma BackedFireInLedger(log: seq<Command>, key: FireKey, term: nat)
    requires Backed(log, Dispatch(Scheduled(key), term))
    ensures key in After(log).ledger
  {
    var i: nat :| AcquiredAt(log, i, Scheduled(key)) && log[i].term == term;
    FenceHolds(log, i, Scheduled(key));
    ReachableInv(log);
    assert FireOk(After(log), key);
  }

  /** A claim that does not fail leaves its fire in the ledger. */
  lemma ClaimedFireInLedger(s: Situation, cmd: Command, report: string -> TaskStatus)
    requires Ok(s) && cmd.ClaimScheduled? && !ClaimFails(s, cmd)
    ensures cmd.key in After(AfterClaim(s, cmd, report).log).ledger
  {
    if Known(s, cmd) {
      BackedFireInLedger(s.log, cmd.key, cmd.term);
    } else {
      var mid := s.log + [cmd];
      assert mid[..|s.log|] == s.log;
      assert cmd.key in After(mid).ledger;
      LedgerGrows(mid, AfterClaim(s, cmd, report).log);
    }
  }

  /** The fire that the policy was due for is in the ledger. */
  ghost predicate FireClaimed(v: PolicyView, log: seq<Command>, term: nat, now: int) {
    IsDue(v, now) ==> ClaimFor(v, FireOf(v, now).time, term, now).key in After(log).ledger
  }

  lemma FireStaysClaimed(v: PolicyView, log: seq<Command>, more: seq<Command>, term: nat, now: int)
    requires FireClaimed(v, log, term, now) && log <= more
    ensures FireClaimed(v, more, term, now)
  {
    LedgerGrows(log, more);
  }

  /** Getting past a policy claims its fire. */
  lemma ViewClaims(s: Situation, v: PolicyView, term: nat, now: int, report: string -> TaskStatus)
    requires Ok(s) && !ViewFails(s, v, term, now)
    ensures FireClaimed(v, AfterView(s, v, term, now, report).log, term, now)
    ensures s.log <= AfterView(s, v, term, now, report).log
  {
    if IsDue(v, now) {
      var cmd := ClaimFor(v, FireOf(v, now).time, term, now);
      ClaimedFireInLedger(s, cmd, report);
      ClaimKeepsOk(s, cmd, report);
    }
  }

  ghost predicate AllClaimed(views: seq<PolicyView>, n: nat, log: seq<Command>, term: nat, now: int)
    requires n <= |views|
  {
    forall v :: 0 <= v < n ==> FireClaimed(views[v], log, term, now)
  }

  lemma {:induction false} DueFireClaimed(s: Situation, views: seq<PolicyView>, n: nat, term: nat, now: int,
                                          report: string -> TaskStatus, v: nat)
    requires Ok(s) && v < n <= |views| && !ViewFails(AfterViews(s, views, v, term, now, report), views[v], term, now)
    ensures FireClaimed(views[v], AfterViews(s, views, n, term, now, report).log, term, now)
    decreases n
  {
    ViewsKeepOk(s, views, n - 1, term, now, report);
    var m := AfterViews(s, views, n - 1, term, now, report);
    if v == n - 1 {
      ViewClaims(m, views[v], term, now, report);
    } else {
      DueFireClaimed(s, views, n - 1, term, now, report, v);
      ViewGrows(m, views[n - 1], term, now, report);
      FireStaysClaimed(views[v], m.log, AfterView(m, views[n - 1], term, now, report).log, term, now);
    }
  }

  lemma ViewGrows(s: Situation, v: PolicyView, term: nat, now: int, report: string -> TaskStatus)
    requires Ok(s)
    ensures s.log <= AfterView(s, v, term, now, report).log
  {
    if IsDue(v, now) {
      ClaimKeepsOk(s, ClaimFor(v, FireOf(v, now).time, term, now), report);
    }
  }

  /** Every policy a tick gets past has the fire it was due for in the ledger. */
  lemma DueFiresClaimed(s: Situation, views: seq<PolicyView>, n: nat, term: nat, now: int, report: string -> TaskStatus)
    requires Ok(s) && n <= |views| && NoneFails(s, views, n, term, now, report)
    ensures AllClaimed(views, n, AfterViews(s, views, n, term, now, report).log, term, now)
  {
    forall v | 0 <= v < n ensures FireClaimed(views[v], AfterViews(s, views, n, term, now, report).log, term, now) {
      DueFireClaimed(s, views, n, term, now, report, v);
    }
  }

  // ---- one claim leaves other fires alone -------------------------------------------------------------------

  /** The two states have the same fire and the same run under the key. */
  ghost predicate SameFire(s: State, t: State, key: FireKey) {
    && (key in s.ledger <==> key in t.ledger) && (key in s.ledger ==> s.ledger[key] == t.ledger[key])
    && (Scheduled(key) in s.runs <==> Scheduled(key) in t.runs)
    && (Scheduled(key) in s.runs ==> s.runs[Scheduled(key)] == t.runs[Scheduled(key)])
  }

  lemma OtherCommand(s: State, cmd: Command, key: FireKey)
    requires Inv(s) && RunOf(cmd) != Scheduled(key)
    ensures SameFire(s, Apply(s, cmd), key)
  {
    assert FireOk(s, key);
    if cmd.ClaimScheduled? { assert FireOk(s, cmd.key); }
  }

  lemma {:induction false} OtherCommands(log: seq<Command>, more: seq<Command>, key: FireKey)
    requires log <= more && forall i :: |log| <= i < |more| ==> RunOf(more[i]) != Scheduled(key)
    ensures SameFire(After(log), After(more), key)
    decreases |more|
  {
    if log != more {
      var init := more[..|more| - 1];
      OtherCommands(log, init, key);
      ReachableInv(init);
      OtherCommand(After(init), more[|more| - 1], key);
    }
  }

  lemma {:induction false} ReportsOnly(run: RunId, term: nat, targets: seq<string>, report: string -> TaskStatus)
    ensures forall i :: 0 <= i < |Reports(run, term, targets, report)| ==>
              Reports(run, term, targets, report)[i].UpdateTask? && Reports(run, term, targets, report)[i].run == run
  {
    if targets != [] {
      ReportsOnly(run, term, targets[..|targets| - 1], report);
    }
  }

  /** What the claim of a fire depends on: its own fire, run and memo entry. */
  ghost predicate SameClaim(s: Situation, n: Situation, key: FireKey) {
    SameFire(After(s.log), After(n.log), key) && (key in s.memo <==> key in n.memo) &&
    (key in s.memo ==> s.memo[key] == n.memo[key])
  }

  /** A claim, with its dispatch and reports, leaves the fires and the memo of all other keys alone. */
  lemma ClaimLeavesOthers(s: Situation, cmd: Command, report: string -> TaskStatus, key: FireKey)
    requires cmd.ClaimScheduled? && cmd.key != key
    ensures SameClaim(s, AfterClaim(s, cmd, report), key)
  {
    var run := Scheduled(cmd.key);
    ReportsOnly(run, cmd.term, TargetsOf(Apply(After(s.log), cmd), run), report);
    OtherCommands(s.log, AfterClaim(s, cmd, report).log, key);
  }

  /** None of the first n policies has this id. */
  predicate OtherIds(views: seq<PolicyView>, n: nat, id: string)
    requires n <= |views|
  {
    forall i :: 0 <= i < n ==> views[i].policyId != id
  }

  ghost predicate DistinctIds(views: seq<PolicyView>) {
    forall i, j :: 0 <= i < j < |views| ==> views[i].policyId != views[j].policyId
  }

  lemma {:induction false} ViewsLeaveOthers(start: Situation, views: seq<PolicyView>, n: nat, term: nat, now: int,
                                            report: string -> TaskStatus, key: FireKey)
    requires n <= |views| && OtherIds(views, n, key.policy)
    ensures SameClaim(start, AfterViews(start, views, n, term, now, report), key)
  {
    if n > 0 {
      ViewsLeaveOthers(start, views, n - 1, term, now, report, key);
      var m, v := AfterViews(start, views, n - 1, term, now, report), views[n - 1];
      if IsDue(v, now) {
        ClaimLeavesOthers(m, ClaimFor(v, FireOf(v, now).time, term, now), report, key);
      }
    }
  }

  lemma SameClaimFails(s: Situation, n: Situation, cmd: Command)
    requires cmd.ClaimScheduled? && SameClaim(s, n, cmd.key)
    ensures ClaimFails(s, cmd) <==> ClaimFails(n, cmd)
  {
    ReachableInv(s.log);
    ReachableInv(n.log);
    assert FireOk(After(s.log), cmd.key) && FireOk(After(n.log), cmd.key);
  }

  /** A policy fails where its turn comes exactly if it would fail at the start. */
  lemma FailsAsAtStart(start: Situation, views: seq<PolicyView>, n: nat, term: nat, now: int, report: string -> TaskStatus)
    requires DistinctIds(views) && n < |views|
    ensures ViewFails(AfterViews(start, views, n, term, now, report), views[n], term, now)
            <==> ViewFails(start, views[n], term, now)
  {
    var v := views[n];
    if IsDue(v, now) {
      var cmd := ClaimFor(v, FireOf(v, now).time, term, now);
      ViewsLeaveOthers(start, views, n, term, now, report, cmd.key);
      SameClaimFails(start, AfterViews(start, views, n, term, now, report), cmd);
    }
  }

  // ---- which policies a tick reaches -----------------------------------------------------------------------

  /** None of the first n policies fails in the situation the policies start from. */
  ghost predicate NoneFailsAtStart(start: Situation, views: seq<PolicyView>, n: nat, term: nat, now: int)
    requires n <= |views|
  {
    forall j :: 0 <= j < n ==> !ViewFails(start, views[j], term, now)
  }

  lemma NoneFailsFromStart(start: Situation, views: seq<PolicyView>, n: nat, term: nat, now: int,
                           report: string -> TaskStatus)
    requires DistinctIds(views) && n <= |views|
    ensures NoneFails(start, views, n, term, now, report) <==> NoneFailsAtStart(start, views, n, term, now)
  {
    forall j | 0 <= j < n
      ensures ViewFails(AfterViews(start, views, j, term, now, report), views[j], term, now)
              <==> ViewFails(start, views[j], term, now)
    {
      FailsAsAtStart(start, views, j, term, now, report);
    }
  }

  /** A policy is reached exactly when no policy before it would fail in the situation that recovery left; one
      without a fire is the last one reached. */
  lemma ReachedExactly(start: Situation, views: seq<PolicyView>, upTo: nat, failed: bool, term: nat, now: int,
                       report: string -> TaskStatus, v: nat)
    requires DistinctIds(views) && StopsAt(start, views, upTo, failed, term, now, report) && v < |views|
    ensures v <= upTo <==> NoneFailsAtStart(start, views, v, term, now)
    ensures HasNoFire(views[v], now) ==> failed && upTo <= v
  {
    NoneFailsFromStart(start, views, upTo, term, now, report);
    if upTo < v {
      FailsAsAtStart(start, views, upTo, term, now, report);
    }
  }

  /** The control plane takes no lease that reaches further than a day; a lease of 0 stands for the default. */
  predicate TooLong(v: PolicyView, now: int) {
    EffectiveTimeout(v.timeout) > DAY && now / SECOND + EffectiveTimeout(v.timeout) != 0
  }

  /** The fire's run is going on without an owner as late as this one. */
  predicate Awaits(s: State, key: FireKey, term: nat, now: int) {
    key in s.ledger && Scheduled(key) in s.runs && !s.runs[Scheduled(key)].ended &&
    s.ledger[key].lease <= now / SECOND && s.ledger[key].lease != 0 && s.ledger[key].term < term
  }

  /** When a policy fails, in the terms of the policy and the ledger: it has no fire; or its timeout exceeds a day,
      or it is not accepted, when the fire is new; or its timeout exceeds a day when the run waits for an owner. */
  lemma FailsExactly(s: Situation, v: PolicyView, term: nat, now: int)
    requires Ok(s) && term > 0
    ensures
      ViewFails(s, v, term, now) <==>
      HasNoFire(v, now) ||
      (IsDue(v, now) &&
       var key := ClaimFor(v, FireOf(v, now).time, term, now).key;
       if key in After(s.log).ledger then Awaits(After(s.log), key, term, now) && TooLong(v, now)
       else !v.accepted || TooLong(v, now))
  {
    if IsDue(v, now) {
      var cmd := ClaimFor(v, FireOf(v, now).time, term, now);
      ReachableInv(s.log);
      assert FireOk(After(s.log), cmd.key);
      if Known(s, cmd) { RememberedTerm(s, cmd); }
    }
  }

  /** A fire in the memo is in the ledger, under a term no earlier. */
  lemma RememberedTerm(s: Situation, cmd: Command)
    requires Ok(s) && cmd.ClaimScheduled? && Known(s, cmd)
    ensures cmd.key in After(s.log).ledger && cmd.term <= After(s.log).ledger[cmd.key].term
  {
    var run := Scheduled(cmd.key);
    assert Backed(s.log, Dispatch(run, cmd.term));
    var i: nat :| AcquiredAt(s.log, i, run) && s.log[i].term == cmd.term;
    FenceHolds(s.log, i, run);
    ReachableInv(s.log);
    assert FireOk(After(s.log), cmd.key);
  }

  /** The promise that every due fire gets its claim, exactly: after the policies' turn it is in the ledger if and
      only if it was there before, or neither its policy nor any before it fails. */
  lemma DueFireClaimedExactly(start: Situation, views: seq<PolicyView>, upTo: nat, failed: bool, term: nat, now: int,
                              report: string -> TaskStatus, v: nat)
    requires Ok(start) && DistinctIds(views) && StopsAt(start, views, upTo, failed, term, now, report)
    requires v < |views| && IsDue(views[v], now)
    ensures
      var after := AfterViews(start, views, upTo, term, now, report);
      FireClaimed(views[v], after.log, term, now) <==>
      FireClaimed(views[v], start.log, term, now) || NoneFailsAtStart(start, views, v + 1, term, now)
  {
    if v < upTo {
      NoneFailsFromStart(start, views, upTo, term, now, report);
      DueFireClaimed(start, views, upTo, term, now, report, v);
    } else {
      var key := ClaimFor(views[v], FireOf(views[v], now).time, term, now).key;
      ViewsLeaveOthers(start, views, upTo, term, now, report, key);
      FailsAsAtStart(start, views, upTo, term, now, report);
    }
  }

  ghost predicate ClaimsOnly(log: seq<Command>, from: nat, views: seq<PolicyView>, n: nat)
    requires n <= |views|
  {
    forall i :: from <= i < |log| && log[i].ClaimScheduled? ==> exists v :: 0 <= v < n && views[v].policyId == log[i].key.policy
  }

  /** Only fires of the policies got past are claimed: whatever follows the first failing policy gets nothing. */
  lemma {:induction false} OnlyReachedAreClaimed(s: Situation, views: seq<PolicyView>, n: nat, term: nat, now: int,
                                                 report: string -> TaskStatus)
    requires Ok(s) && n <= |views|
    ensures ClaimsOnly(AfterViews(s, views, n, term, now, report).log, |s.log|, views, n)
  {
    if n > 0 {
      OnlyReachedAreClaimed(s, views, n - 1, term, now, report);
      ViewsKeepOk(s, views, n - 1, term, now, report);
      var m, view := AfterViews(s, views, n - 1, term, now, report), views[n - 1];
      if IsDue(view, now) {
        var cmd := ClaimFor(view, FireOf(view, now).time, term, now);
        NewEntriesOf(m, cmd, report);
        MoreClaims(m.log, AfterClaim(m, cmd, report).log, |s.log|, views, n - 1);
      }
    }
  }

  lemma NewEntriesOf(m: Situation, cmd: Command, report: string -> TaskStatus)
    requires cmd.ClaimScheduled?
    ensures
      var log := AfterClaim(m, cmd, report).log;
      m.log <= log && forall i :: |m.log| <= i < |log| && log[i].ClaimScheduled? ==> log[i] == cmd
  {
    ReportsOnly(Scheduled(cmd.key), cmd.term, TargetsOf(Apply(After(m.log), cmd), Scheduled(cmd.key)), report);
  }

  lemma MoreClaims(log: seq<Command>, more: seq<Command>, from: nat, views: seq<PolicyView>, n: nat)
    requires n < |views| && log <= more && ClaimsOnly(log, from, views, n)
    requires forall i :: |log| <= i < |more| && more[i].ClaimScheduled? ==> more[i].key.policy == views[n].policyId
    ensures ClaimsOnly(more, from, views, n + 1)
  {
  }

  // ---- runs of events --------------------------------------------------------------------------------------

  /** The first policy from n on that fails, or their number. */
  ghost function Stop(start: Situation, views: seq<PolicyView>, n: nat, term: nat, now: int, report: string -> TaskStatus): (k: nat)
    requires n <= |views|
    ensures n <= k <= |views|
    decreases |views| - n
  {
    if n == |views| || ViewFails(AfterViews(start, views, n, term, now, report), views[n], term, now) then n
    else Stop(start, views, n + 1, term, now, report)
  }

  datatype TickInput = TickInput(term: nat, now: int, listing: seq<RunId>, views: seq<PolicyView>,
                                 timeout: RunId -> int, report: string -> TaskStatus)

  /** What a leader's tick makes of a situation. */
  ghost function TickResult(before: Situation, t: TickInput): Situation {
    var start := AfterRecovery(before, t.listing, t.term, t.now / SECOND, t.timeout, t.report);
    if RecoveryFails(before, t.listing, t.term, t.now / SECOND, t.timeout) then start
    else AfterViews(start, t.views, Stop(start, t.views, 0, t.term, t.now, t.report), t.term, t.now, t.report)
  }

  lemma {:induction false} StopIs(start: Situation, views: seq<PolicyView>, n: nat, upTo: nat, failed: bool, term: nat,
                                  now: int, report: string -> TaskStatus)
    requires StopsAt(start, views, upTo, failed, term, now, report) && n <= upTo
    ensures Stop(start, views, n, term, now, report) == upTo
    decreases |views| - n
  {
    if n < upTo {
      StopIs(start, views, n + 1, upTo, failed, term, now, report);
    }
  }

  /** The method's contract fixes the result. */
  lemma TickIsFunction(before: Situation, after: Situation, failed: bool, upTo: nat, t: TickInput)
    requires Ticked(before, after, failed, upTo, t.term, t.now, t.listing, t.views, t.timeout, t.report)
    ensures after == TickResult(before, t)
  {
    if !RecoveryFails(before, t.listing, t.term, t.now / SECOND, t.timeout) {
      var start := AfterRecovery(before, t.listing, t.term, t.now / SECOND, t.timeout, t.report);
      StopIs(start, t.views, 0, upTo, failed, t.term, t.now, t.report);
    }
  }

  lemma TickKeepsOk(before: Situation, t: TickInput)
    requires Ok(before) && Sorting.NoDuplicates(t.listing)
    ensures Ok(TickResult(before, t)) && before.log <= TickResult(before, t).log
    ensures before.dispatched <= TickResult(before, t).dispatched
  {
    RecoveryKeepsOk(before, t.listing, t.term, t.now / SECOND, t.timeout, t.report);
    var start := AfterRecovery(before, t.listing, t.term, t.now / SECOND, t.timeout, t.report);
    ViewsKeepOk(start, t.views, Stop(start, t.views, 0, t.term, t.now, t.report), t.term, t.now, t.report);
  }

  /** A coordinator ticks, it restarts with an empty memo, or anyone else submits a command. */
  datatype Event = Ticks(who: nat, input: TickInput) | Restarts(who: nat) | Submits(cmd: Command)

  datatype World = World(log: seq<Command>, dispatched: seq<Dispatch>, memos: map<nat, map<FireKey, nat>>)

  function Of(w: World, who: nat): Situation {
    Situation(w.log, w.dispatched, if who in w.memos then w.memos[who] else map[])
  }

  ghost function Next(w: World, e: Event): World {
    match e
    case Ticks(who, input) =>
      var s := TickResult(Of(w, who), input);
      World(s.log, s.dispatched, w.memos[who := s.memo])
    case Restarts(who) => w.(memos := w.memos[who := map[]])
    case Submits(cmd) => w.(log := w.log + [cmd])
  }

  ghost function Run(events: seq<Event>): World {
    if events == [] then World([], [], map[]) else Next(Run(events[..|events| - 1]), events[|events| - 1])
  }

  ghost predicate Lists(events: seq<Event>) {
    forall i :: 0 <= i < |events| && events[i].Ticks? ==> Sorting.NoDuplicates(events[i].input.listing)
  }

  lemma MemoStaysOk(s: Situation, log: seq<Command>, dispatched: seq<Dispatch>, memo: map<FireKey, nat>)
    requires Ok(Situation(log, dispatched, memo)) && Ok(s) && s.dispatched <= dispatched
    ensures Ok(Situation(log, dispatched, s.memo))
  {
  }

  /** Over every run of any number of coordinators, restarts and other commands: no run is dispatched twice in one
      term, every dispatch follows an acquisition, and every memo remembers dispatches only. */
  lemma {:induction false} NeverDispatchedTwice(events: seq<Event>, who: nat)
    requires Lists(events)
    ensures Ok(Of(Run(events), who))
  {
    if events != [] {
      var init, e := events[..|events| - 1], events[|events| - 1];
      var w := Run(init);
      NeverDispatchedTwice(init, who);
      match e
      case Ticks(other, input) =>
        NeverDispatchedTwice(init, other);
        TickKeepsOk(Of(w, other), input);
        var s := TickResult(Of(w, other), input);
        MemoStaysOk(Of(w, who), s.log, s.dispatched, s.memo);
      case Restarts(_) =>
      case Submits(cmd) => LongerLogOk(Of(w, who), w.log + [cmd]);
    }
  }

  // ---- a policy that starves the others --------------------------------------------------------------------

  const DAY_NANOS: int := 86_400 * SECOND

  function DaysIn(month: nat): nat {
    if month == 2 then 28 else if month == 4 || month == 6 || month == 9 || month == 11 then 30 else 31
  }

  /** Month and day of a day of a common year, counted from the first of `month`. */
  function MonthDay(day: nat, month: nat): (nat, nat)
    decreases 12 - month
  {
    if day < DaysIn(month) || month >= 12 then (month, day + 1) else MonthDay(day - DaysIn(month), month + 1)
  }

  /** The calendar of a stretch of common years, from midnight of a first of January that is a Wednesday. */
  function CommonYears(t: int): Cron.Civil {
    var day := t / DAY_NANOS;
    var (month, dayOfMonth) := MonthDay(day % 365, 1);
    Cron.Civil(t / (60 * SECOND) % 60, t / (3600 * SECOND) % 24, dayOfMonth, month, (day + 3) % 7)
  }

  lemma {:induction false} NoLeapDay(day: nat, month: nat)
    ensures !(MonthDay(day, month).0 == 2 && MonthDay(day, month).1 == 29)
    decreases 12 - month
  {
    if !(day < DaysIn(month) || month >= 12) {
      NoLeapDay(day - DaysIn(month), month + 1);
    }
  }

  /** At midnight of every 29 February. */
  const LEAP_DAY := [Cron.Number(0), Cron.Number(0), Cron.Number(29), Cron.Number(2), Cron.Star]

  const EVERY_MINUTE := [Cron.Star, Cron.Star, Cron.Star, Cron.Star, Cron.Star]

  function Policy(id: string, schedule: seq<Cron.Token>): PolicyView {
    PolicyView(id, true, schedule, CommonYears, ["n"], 60, true)
  }

  /** In common years a valid leap-day schedule has no fire, while another policy is due every minute. */
  lemma LeapDayHasNoFire(now: int)
    ensures Cron.Valid(LEAP_DAY) && HasNoFire(Policy("a", LEAP_DAY), now)
    ensures IsDue(Policy("b", EVERY_MINUTE), now) && FireOf(Policy("b", EVERY_MINUTE), now) == Cron.At(Cron.Floor(now))
  {
    forall t: int ensures !Cron.Matches(LEAP_DAY, CommonYears, t) {
      NoLeapDay(t / DAY_NANOS % 365, 1);
    }
    assert Cron.IsPrevious(LEAP_DAY, CommonYears, now, Cron.Invalid);
    Cron.SearchesAgree(LEAP_DAY, CommonYears, now, Cron.Invalid, FireOf(Policy("a", LEAP_DAY), now));
    MinuteFires(now);
  }

  lemma MinuteFires(now: int)
    ensures IsDue(Policy("b", EVERY_MINUTE), now) && FireOf(Policy("b", EVERY_MINUTE), now) == Cron.At(Cron.Floor(now))
  {
    var m := Cron.Floor(now);
    forall t | m < t <= now ensures !Cron.Aligned(t) {
      if Cron.Aligned(t) {
        Cron.AlignedGap(m, t);
      }
    }
    assert Cron.IsPrevious(EVERY_MINUTE, CommonYears, now, Cron.At(m));
    Cron.SearchesAgree(EVERY_MINUTE, CommonYears, now, Cron.At(m), FireOf(Policy("b", EVERY_MINUTE), now));
  }

  lemma NothingToRecover(term: nat, now: int, timeout: RunId -> int, report: string -> TaskStatus)
    ensures
      var empty := Situation([], [], map[]);
      !RecoveryFails(empty, [], term, now, timeout) && AfterRecovery(empty, [], term, now, timeout, report) == empty
  {
  }

  /** The first claim of an accepted policy's fire in an empty ledger. */
  lemma FirstClaim(v: PolicyView, now: int, report: string -> TaskStatus)
    requires IsDue(v, now) && v.accepted && v.timeout == 60
    ensures !ViewFails(Situation([], [], map[]), v, 1, now)
    ensures AfterView(Situation([], [], map[]), v, 1, now, report).dispatched ==
            [Dispatch(Scheduled(FireKey(v.policyId, FireOf(v, now).time / SECOND)), 1)]
  {
    var cmd := ClaimFor(v, FireOf(v, now).time, 1, now);
    assert Opens(Empty(), cmd);
  }

  lemma StarvedTick(after: Situation, failed: bool, upTo: nat, now: int, swapped: bool, views: seq<PolicyView>,
                    timeout: RunId -> int, report: string -> TaskStatus)
    requires
      var leapDay, everyMinute := Policy("a", LEAP_DAY), Policy("b", EVERY_MINUTE);
      views == if swapped then [everyMinute, leapDay] else [leapDay, everyMinute]
    requires Ticked(Situation([], [], map[]), after, failed, upTo, 1, now, [], views, timeout, report)
    ensures failed
    ensures after.dispatched == if swapped then [Dispatch(Scheduled(FireKey("b", Cron.Floor(now) / SECOND)), 1)] else []
  {
    var empty := Situation([], [], map[]);
    NothingToRecover(1, now / SECOND, timeout, report);
    LeapDayHasNoFire(now);
    FirstClaim(Policy("b", EVERY_MINUTE), now, report);
    var stop := if swapped then 1 else 0;
    ReachedExactly(empty, views, upTo, failed, 1, now, report, stop);
    assert AfterViews(empty, views, 0, 1, now, report) == empty;
    assert upTo == stop;
  }

  /** One leader, an empty ledger, and a leap-day policy listed before one that is due: in a common year the tick
      fails and claims nothing. Listed the other way round, the due policy is claimed and dispatched. */
  method LeapDayStarvesOthers(now: int, swapped: bool) returns (failed: bool, dispatched: seq<Dispatch>)
    ensures failed
    ensures dispatched == if swapped then [Dispatch(Scheduled(FireKey("b", Cron.Floor(now) / SECOND)), 1)] else []
  {
    var leapDay, everyMinute := Policy("a", LEAP_DAY), Policy("b", EVERY_MINUTE);
    var views := if swapped then [everyMinute, leapDay] else [leapDay, everyMinute];
    var timeout: RunId -> int := r => 60;
    var report: string -> TaskStatus := n => Succeeded;
    var cluster := new Cluster();
    var leader := new Coordinator();
    ghost var upTo;
    failed, upTo := leader.Tick(cluster, true, 1, now, [], views, timeout, report);
    StarvedTick(leader.View(cluster), failed, upTo, now, swapped, views, timeout, report);
    dispatched := cluster.dispatched;
  }
}
