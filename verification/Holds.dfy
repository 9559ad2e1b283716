/** Holds against retention, and the retention run that respects them. */
module Holds {
  import opened Sorting
  import opened StringOrder
  import opened Filtering
  import opened Retention
  import opened RetentionLaws

  /** The release function a hold hands out; it takes effect once. */
  class Release {
    const id: string
    var done: bool

    constructor (id: string, done: bool)
      ensures this.id == id && this.done == done
    {
      this.id, this.done := id, done;
    }
  }

  /** The engine's hold counters. `live` collects the releases handed out and not yet called. */
  class SnapshotHolds {
    var active: map<string, nat>
    ghost var live: set<Release>

    ghost function LiveFor(id: string): set<Release>
      reads this
    {
      set r | r in live && r.id == id
    }

    ghost predicate Valid()
      reads this, live
    {
      && (forall r :: r in live ==> !r.done && r.id != "")
      && (forall id :: id in active ==> active[id] > 0 && active[id] == |LiveFor(id)|)
      && (forall id :: id !in active ==> LiveFor(id) == {})
    }

    constructor ()
      ensures Valid() && live == {}
    {
      active, live := map[], {};
    }

    /** Takes a hold; an empty id gets a release that does nothing. */
    method Protect(id: string) returns (r: Release)
      requires Valid()
      modifies this
      ensures Valid() && fresh(r) && r.id == id
      ensures if id == "" then r.done && live == old(live) else !r.done && live == old(live) + {r}
    {
      r := new Release(id, id == "");
      if id == "" {
        return;
      }
      ghost var before := LiveFor(id);
      active := active[id := (if id in active then active[id] else 0) + 1];
      live := live + {r};
      assert LiveFor(id) == before + {r};
      assert forall other :: other != id ==> LiveFor(other) == old(LiveFor(other));
    }

    /** Calls a release: the first call drops its hold, every later call does nothing. */
    method Call(r: Release)
      requires Valid() && (r.done || r in live)
      modifies this, r
      ensures Valid() && r.done && live == old(live) - {r}
      ensures old(r.done) ==> active == old(active)
    {
      if r.done {
        return;
      }
      ghost var before := LiveFor(r.id);
      assert r in before;
      live := live - {r};
      assert LiveFor(r.id) == before - {r} && |before - {r}| == |before| - 1;
      assert forall other :: other != r.id ==> LiveFor(other) == old(LiveFor(other));
      if active[r.id] <= 1 {
        active := active - {r.id};
      } else {
        active := active[r.id := active[r.id] - 1];
      }
      r.done := true;
    }

    lemma LiveForMembers(id: string)
      ensures LiveFor(id) == {} <==> !exists r :: r in live && r.id == id
    {
      if r :| r in live && r.id == id { assert r in LiveFor(id); }
      if r :| r in LiveFor(id) { assert r in live && r.id == id; }
    }

    /** A snapshot is active while some hold on it has not been released, or while the caller's own check says
        so; `others` are the ids that check names. */
    predicate Active(id: string, others: set<string>)
      requires Valid()
      reads this, live
      ensures Active(id, others) <==> id in others || exists r :: r in live && r.id == id
    {
      LiveForMembers(id);
      id in others || (if id in active then active[id] else 0) > 0
    }

    /** The active ones of a listing. */
    ghost function Held(listing: seq<string>, others: set<string>): set<string>
      requires Valid()
      reads this, live
    {
      set id | id in listing && Active(id, others)
    }
  }

  // ---- the retention run -----------------------------------------------------------------------------

  datatype Record = Record(clusterId: string, policyId: string, sink: string, nodeId: string, createdAt: int, bytes: int)

  /** The cluster, policy and sink a run is for. */
  datatype Scope = Scope(clusterId: string, policyId: string, sink: string)

  /** How one deletion goes: `removed` says whether the object is gone although the sink reported a failure. */
  datatype Outcome =
    | SinkFailed
    | DeleteFailed(removed: bool)
    | Deleted(indexOk: bool)

  datatype RunResult = RunResult(id: string, success: bool)

  predicate InScope(r: Record, scope: Scope) {
    r.clusterId == scope.clusterId && r.policyId == scope.policyId && r.sink == scope.sink
  }

  function SnapshotOf(id: string, r: Record, held: bool, lastUsable: bool): Snapshot {
    Snapshot(id, r.policyId, r.nodeId, r.nodeId, r.createdAt, r.bytes, "SUCCEEDED", held, lastUsable)
  }

  /** The store lists rows once each; node ids hold no NUL. */
  ghost predicate ListsRows(listing: seq<string>, rows: map<string, Record>) {
    NoDuplicates(listing) && forall id :: id in listing ==> id in rows && '\0' !in rows[id].nodeId
  }

  /** The rows in scope as retention metadata, in the order listed. */
  function Listed(rows: map<string, Record>, listing: seq<string>, scope: Scope, held: set<string>, lastUsable: set<string>): seq<Snapshot>
    requires forall id :: id in listing ==> id in rows
  {
    if listing == [] then []
    else
      var id := listing[|listing| - 1];
      Listed(rows, listing[..|listing| - 1], scope, held, lastUsable) +
      if InScope(rows[id], scope) then [SnapshotOf(id, rows[id], id in held, id in lastUsable)] else []
  }

  /** Every row in scope is there exactly once, with its fields, and nothing else is. */
  lemma {:induction false} ListedExactly(rows: map<string, Record>, listing: seq<string>, scope: Scope, held: set<string>,
                                         lastUsable: set<string>)
    requires ListsRows(listing, rows)
    ensures
      var snapshots := Listed(rows, listing, scope, held, lastUsable);
      && (forall x :: x in snapshots <==> x.id in listing && InScope(rows[x.id], scope) &&
                                          x == SnapshotOf(x.id, rows[x.id], x.id in held, x.id in lastUsable))
      && (forall j, k :: 0 <= j < k < |snapshots| ==> snapshots[j].id != snapshots[k].id)
  {
    if listing != [] {
      var init, id := listing[..|listing| - 1], listing[|listing| - 1];
      ListedExactly(rows, init, scope, held, lastUsable);
      assert listing == init + [id] && id !in init;
      var before := Listed(rows, init, scope, held, lastUsable);
      assert forall k :: 0 <= k < |before| ==> before[k] in before && before[k].id in init;
    }
  }

  lemma ListedKeys(rows: map<string, Record>, listing: seq<string>, policy: Policy, scope: Scope, held: set<string>,
                   lastUsable: set<string>)
    requires ListsRows(listing, rows)
    ensures DistinctKeys(policy, Listed(rows, listing, scope, held, lastUsable))
  {
    var snapshots := Listed(rows, listing, scope, held, lastUsable);
    ListedExactly(rows, listing, scope, held, lastUsable);
    forall j, k | 0 <= j < k < |snapshots| ensures Key(snapshots[j]) != Key(snapshots[k]) {
      assert snapshots[j] in snapshots && snapshots[k] in snapshots;
      if Key(snapshots[j]) == Key(snapshots[k]) { KeyInjective(snapshots[j], snapshots[k]); }
    }
    FilterUnique(snapshots, s => IsEligible(s, policy));
  }

  predicate Gone(o: Outcome) { o.Deleted? || o == DeleteFailed(true) }

  ghost predicate Named(plan: seq<Snapshot>, id: string) {
    exists k :: 0 <= k < |plan| && plan[k].id == id
  }

  /** The planned rows whose deletion went through, and the planned objects that are gone. */
  function DeletedRows(plan: seq<Snapshot>, outcome: string -> Outcome): set<string> {
    set k | 0 <= k < |plan| && outcome(plan[k].id) == Deleted(true) :: plan[k].id
  }

  function GoneObjects(plan: seq<Snapshot>, outcome: string -> Outcome): set<string> {
    set k | 0 <= k < |plan| && Gone(outcome(plan[k].id)) :: plan[k].id
  }

  function Results(plan: seq<Snapshot>, outcome: string -> Outcome): seq<RunResult> {
    seq(|plan|, k requires 0 <= k < |plan| => RunResult(plan[k].id, outcome(plan[k].id) == Deleted(true)))
  }

  lemma OneMoreDeleted(plan: seq<Snapshot>, i: nat, outcome: string -> Outcome)
    requires i < |plan|
    ensures
      var id, o := plan[i].id, outcome(plan[i].id);
      && DeletedRows(plan[..i + 1], outcome) == DeletedRows(plan[..i], outcome) + (if o == Deleted(true) then {id} else {})
      && GoneObjects(plan[..i + 1], outcome) == GoneObjects(plan[..i], outcome) + (if Gone(o) then {id} else {})
      && Results(plan[..i + 1], outcome) == Results(plan[..i], outcome) + [RunResult(id, o == Deleted(true))]
  {
    var a, b := plan[..i], plan[..i + 1];
    assert b == a + [plan[i]];
    forall x ensures x in DeletedRows(b, outcome) <==> x in DeletedRows(a, outcome) || (x == plan[i].id && outcome(x) == Deleted(true)) {
      if x in DeletedRows(a, outcome) {
        var k :| 0 <= k < |a| && outcome(a[k].id) == Deleted(true) && a[k].id == x;
        assert b[k] == a[k];
      }
      assert b[i] == plan[i];
    }
    forall x ensures x in GoneObjects(b, outcome) <==> x in GoneObjects(a, outcome) || (x == plan[i].id && Gone(outcome(x))) {
      if x in GoneObjects(a, outcome) {
        var k :| 0 <= k < |a| && Gone(outcome(a[k].id)) && a[k].id == x;
        assert b[k] == a[k];
      }
      assert b[i] == plan[i];
    }
  }

  /** The local backup index and the objects its rows stand for; snapshot ids are the index's primary key. */
  class BackupIndex {
    var rows: map<string, Record>
    var objects: set<string>

    constructor (rows: map<string, Record>, objects: set<string>)
      ensures this.rows == rows && this.objects == objects
    {
      this.rows, this.objects := rows, objects;
    }

    /** The policy's rows as retention metadata, with the holds in force. */
    method Snapshots(scope: Scope, holds: SnapshotHolds, others: set<string>, lastUsable: set<string>, listing: seq<string>)
      returns (snapshots: seq<Snapshot>)
      requires holds.Valid() && ListsRows(listing, rows)
      ensures snapshots == Listed(rows, listing, scope, holds.Held(listing, others), lastUsable)
    {
      snapshots := [];
      for i := 0 to |listing|
        invariant snapshots == Listed(rows, listing[..i], scope, holds.Held(listing, others), lastUsable)
      {
        assert listing[..i + 1][..i] == listing[..i];
        var record := rows[listing[i]];
        if record.clusterId != scope.clusterId || record.policyId != scope.policyId || record.sink != scope.sink {
          continue;
        }
        snapshots := snapshots + [SnapshotOf(listing[i], record, holds.Active(listing[i], others), listing[i] in lastUsable)];
      }
      assert listing[..|listing|] == listing;
    }

    /** The plan for the rows in scope. */
    method PlanDeletions(policy: Policy, scope: Scope, zoneKnown: bool, cutoff: int, holds: SnapshotHolds,
                         others: set<string>, lastUsable: set<string>, listing: seq<string>)
      returns (planned: Result<seq<Snapshot>>)
      requires holds.Valid() && ListsRows(listing, rows)
      ensures planned.InvalidTimezone? <==> Limits(policy) && !zoneKnown
      ensures planned.Ok? ==>
        IsPlan(policy, cutoff, Listed(rows, listing, scope, holds.Held(listing, others), lastUsable), planned.value)
    {
      var snapshots := Snapshots(scope, holds, others, lastUsable, listing);
      ListedKeys(rows, listing, policy, scope, holds.Held(listing, others), lastUsable);
      planned := PlanRetention(zoneKnown, cutoff, policy, snapshots);
    }

    /** Deletes the planned snapshots one after the other, each with its own outcome: an index row goes only after
        its object is gone, and a failed deletion keeps its row. */
    method DeletePlanned(plan: seq<Snapshot>, outcome: string -> Outcome) returns (results: seq<RunResult>)
      modifies this
      ensures rows == old(rows) - DeletedRows(plan, outcome) && objects == old(objects) - GoneObjects(plan, outcome)
      ensures results == Results(plan, outcome)
    {
      results := [];
      assert DeletedRows(plan[..0], outcome) == {} && GoneObjects(plan[..0], outcome) == {};
      assert old(rows) - {} == old(rows) && old(objects) - {} == old(objects);
      for i := 0 to |plan|
        invariant rows == old(rows) - DeletedRows(plan[..i], outcome)
        invariant objects == old(objects) - GoneObjects(plan[..i], outcome)
        invariant results == Results(plan[..i], outcome)
      {
        var id := plan[i].id;
        OneMoreDeleted(plan, i, outcome);
        match outcome(id) {
          case SinkFailed =>
            results := results + [RunResult(id, false)];
          case DeleteFailed(removed) =>
            if removed {
              objects := objects - {id};
            }
            results := results + [RunResult(id, false)];
          case Deleted(indexOk) =>
            objects := objects - {id};
            if indexOk {
              rows := rows - {id};
            }
            results := results + [RunResult(id, indexOk)];
        }
      }
      assert plan[..|plan|] == plan;
    }

    /** Plans from the index rows of the policy and deletes what the plan names. */
    method ApplyRetention(policy: Policy, scope: Scope, zoneKnown: bool, cutoff: int, holds: SnapshotHolds,
                          others: set<string>, lastUsable: set<string>, listing: seq<string>, outcome: string -> Outcome)
      returns (result: Result<seq<RunResult>>, ghost plan: seq<Snapshot>)
      requires holds.Valid() && ListsRows(listing, rows)
      modifies this
      ensures result.InvalidTimezone? <==> Limits(policy) && !zoneKnown
      ensures result.InvalidTimezone? ==> rows == old(rows) && objects == old(objects)
      ensures result.Ok? ==>
        && IsPlan(policy, cutoff, Listed(old(rows), listing, scope, holds.Held(listing, others), lastUsable), plan)
        && result.value == Results(plan, outcome)
        && rows == old(rows) - DeletedRows(plan, outcome) && objects == old(objects) - GoneObjects(plan, outcome)
    {
      plan := [];
      if !Limits(policy) {
        NothingDeleted(outcome);
        assert old(rows) - {} == old(rows) && old(objects) - {} == old(objects);
        return Ok([]), [];
      }
      var planned := PlanDeletions(policy, scope, zoneKnown, cutoff, holds, others, lastUsable, listing);
      if planned.InvalidTimezone? {
        return InvalidTimezone, [];
      }
      var results := DeletePlanned(planned.value, outcome);
      return Ok(results), planned.value;
    }
  }

  lemma NothingDeleted(outcome: string -> Outcome)
    ensures DeletedRows([], outcome) == {} && GoneObjects([], outcome) == {} && Results([], outcome) == []
  {
  }

  /** What a plan names is in scope, listed, not held and not a last usable replica. */
  lemma PlannedIds(policy: Policy, cutoff: int, rows: map<string, Record>, listing: seq<string>, scope: Scope,
                   held: set<string>, lastUsable: set<string>, plan: seq<Snapshot>, id: string)
    requires ListsRows(listing, rows) && IsPlan(policy, cutoff, Listed(rows, listing, scope, held, lastUsable), plan)
    ensures Named(plan, id) ==> id in listing && InScope(rows[id], scope) && id !in held && id !in lastUsable
  {
    var snapshots := Listed(rows, listing, scope, held, lastUsable);
    ListedExactly(rows, listing, scope, held, lastUsable);
    ListedKeys(rows, listing, policy, scope, held, lastUsable);
    PlanSafe(policy, cutoff, snapshots, plan);
    if Named(plan, id) {
      var k :| 0 <= k < |plan| && plan[k].id == id;
      assert plan[k] in plan && plan[k] in snapshots;
    }
  }

  /** Neither the row nor the object of a held or last usable snapshot is touched, whatever fails, nor is anything
      outside the scope; and a row goes only if its object does. */
  lemma HeldStays(policy: Policy, cutoff: int, rows: map<string, Record>, listing: seq<string>, scope: Scope,
                  held: set<string>, lastUsable: set<string>, plan: seq<Snapshot>, outcome: string -> Outcome, id: string)
    requires ListsRows(listing, rows) && IsPlan(policy, cutoff, Listed(rows, listing, scope, held, lastUsable), plan)
    ensures id in held || id in lastUsable || id !in listing || !InScope(rows[id], scope) ==>
            id !in DeletedRows(plan, outcome) && id !in GoneObjects(plan, outcome)
    ensures DeletedRows(plan, outcome) <= GoneObjects(plan, outcome)
  {
    PlannedIds(policy, cutoff, rows, listing, scope, held, lastUsable, plan, id);
  }

  /** Every node that had a listed row in scope still has one afterwards, however the deletions go. */
  lemma EveryNodeKeepsOne(policy: Policy, cutoff: int, rows: map<string, Record>, listing: seq<string>, scope: Scope,
                          held: set<string>, lastUsable: set<string>, plan: seq<Snapshot>, outcome: string -> Outcome,
                          id: string) returns (kept: string)
    requires ListsRows(listing, rows) && IsPlan(policy, cutoff, Listed(rows, listing, scope, held, lastUsable), plan)
    requires policy.policyId == scope.policyId && id in listing && InScope(rows[id], scope)
    ensures kept in listing && InScope(rows[kept], scope) && rows[kept].nodeId == rows[id].nodeId
    ensures kept !in DeletedRows(plan, outcome) && kept !in GoneObjects(plan, outcome)
  {
    var snapshots := Listed(rows, listing, scope, held, lastUsable);
    ListedExactly(rows, listing, scope, held, lastUsable);
    ListedKeys(rows, listing, policy, scope, held, lastUsable);
    var x := SnapshotOf(id, rows[id], id in held, id in lastUsable);
    assert x in snapshots;
    var y := PlanLeavesOne(policy, cutoff, snapshots, plan, x);
    kept := y.id;
    assert y == SnapshotOf(y.id, rows[y.id], y.id in held, y.id in lastUsable);
    NotNamedStays(plan, kept, outcome);
  }

  lemma PlanLeavesOne(policy: Policy, cutoff: int, snapshots: seq<Snapshot>, plan: seq<Snapshot>, x: Snapshot)
    returns (y: Snapshot)
    requires DistinctKeys(policy, snapshots) && IsPlan(policy, cutoff, snapshots, plan)
    requires forall j, k :: 0 <= j < k < |snapshots| ==> snapshots[j].id != snapshots[k].id
    requires x in snapshots && IsEligible(x, policy)
    ensures y in snapshots && Source(y) == Source(x) && !Named(plan, y.id)
  {
    y := SurvivorOf(policy, cutoff, snapshots, plan, x);
    NotPlanned(snapshots, plan, y);
  }

  lemma SurvivorOf(policy: Policy, cutoff: int, snapshots: seq<Snapshot>, plan: seq<Snapshot>, x: Snapshot)
    returns (y: Snapshot)
    requires DistinctKeys(policy, snapshots) && IsPlan(policy, cutoff, snapshots, plan)
    requires x in snapshots && IsEligible(x, policy)
    ensures y in snapshots && Source(y) == Source(x) && y !in plan
    ensures forall z :: z in plan ==> z in snapshots
  {
    EligibleSorted(policy, snapshots);
    if Limits(policy) {
      var selected := PlanMembers(policy, cutoff, snapshots, plan);
      y := SourceKeepsOne(Eligible(policy, snapshots), selected, x);
    } else {
      y := x;
    }
  }

  lemma NotPlanned(snapshots: seq<Snapshot>, plan: seq<Snapshot>, y: Snapshot)
    requires forall j, k :: 0 <= j < k < |snapshots| ==> snapshots[j].id != snapshots[k].id
    requires y in snapshots && y !in plan && forall z :: z in plan ==> z in snapshots
    ensures !Named(plan, y.id)
  {
    forall k | 0 <= k < |plan| ensures plan[k].id != y.id {
      assert plan[k] in plan && plan[k] in snapshots;
    }
  }

  lemma NotNamedStays(plan: seq<Snapshot>, id: string, outcome: string -> Outcome)
    requires !Named(plan, id)
    ensures id !in DeletedRows(plan, outcome) && id !in GoneObjects(plan, outcome)
  {
  }
}
