/** The retention planner: which snapshots of a policy may be deleted, under keep_last, keep_days and a
  byte budget, with protected snapshots and a last survivor per source.

  Times are instants. The keep_days cutoff (midnight of the first kept day in the policy's time zone) is
  given, as is whether the policy's time zone can be loaded. Byte sums are unbounded.
*/
module Retention {
  import opened Sorting
  import opened StringOrder
  import opened Filtering

  datatype Snapshot = Snapshot(
    id: string, policyId: string, sourceNodeId: string, nodeId: string,
    createdAt: int, bytes: int, status: string, active: bool, lastUsable: bool)

  datatype Policy = Policy(policyId: string, keepLast: int, keepDays: int, maxBytes: int)

  datatype Result<T> = Ok(value: T) | InvalidTimezone

  predicate CompletedStatus(status: string) { status == "" || status == "SUCCESS" || status == "SUCCEEDED" }

  function Source(s: Snapshot): string { if s.sourceNodeId != "" then s.sourceNodeId else s.nodeId }

  function Key(s: Snapshot): string { Source(s) + "\0" + s.id }

  predicate Protected(s: Snapshot) { s.active || s.lastUsable }

  predicate SnapshotLess(a: Snapshot, b: Snapshot) {
    if a.createdAt != b.createdAt then a.createdAt < b.createdAt
    else if Source(a) != Source(b) then StrLess(Source(a), Source(b))
    else StrLess(a.id, b.id)
  }

  predicate IsEligible(s: Snapshot, policy: Policy) { s.policyId == policy.policyId && CompletedStatus(s.status) }

  // ---- the plan, as a function of the sorted eligible snapshots ---------------------------------------

  /** The policy's completed snapshots, oldest first. */
  function Eligible(policy: Policy, snapshots: seq<Snapshot>): seq<Snapshot> {
    SortBy(SnapshotLess, Filter(snapshots, s => IsEligible(s, policy)))
  }

  ghost predicate UniqueKeys(s: seq<Snapshot>) { forall i, j :: 0 <= i < j < |s| ==> Key(s[i]) != Key(s[j]) }

  function Group(es: seq<Snapshot>, source: string): seq<Snapshot> { Filter(es, x => Source(x) == source) }

  /** How many snapshots of the same source are newer than x. */
  function NewerCount(es: seq<Snapshot>, x: Snapshot): nat {
    |Filter(es, y => Source(y) == Source(x) && SnapshotLess(x, y))|
  }

  predicate Expired(es: seq<Snapshot>, policy: Policy, cutoff: int, x: Snapshot) {
    && (policy.keepLast > 0 || policy.keepDays > 0)
    && (policy.keepLast > 0 ==> NewerCount(es, x) >= policy.keepLast)
    && (policy.keepDays > 0 ==> x.createdAt < cutoff)
  }

  function Keys(s: seq<Snapshot>): set<string> { set x | x in s :: Key(x) }

  /** Keys the keep_last and keep_days rules select. */
  ghost function RuleKeys(es: seq<Snapshot>, policy: Policy, cutoff: int): set<string> {
    set x | x in es && Expired(es, policy, cutoff, x) && !Protected(x) :: Key(x)
  }

  function PosBytes(x: Snapshot): nat { if x.bytes > 0 then x.bytes else 0 }

  /** Bytes of the snapshots that are not selected. */
  function RetainedBytes(es: seq<Snapshot>, selected: set<string>): nat {
    if es == [] then 0
    else (if Key(es[0]) in selected then 0 else PosBytes(es[0])) + RetainedBytes(es[1..], selected)
  }

  /** What the byte budget may still delete, oldest first. */
  function Candidates(es: seq<Snapshot>, selected: set<string>): seq<Snapshot> {
    Filter(es, x => Key(x) !in selected && !Protected(x))
  }

  /** The set selected once the first m candidates went. */
  ghost function CutKeys(es: seq<Snapshot>, before: set<string>, m: nat): set<string>
    requires m <= |Candidates(es, before)|
  {
    before + Keys(Candidates(es, before)[..m])
  }

  /** The first m candidates go, where m is the least number that brings the retained bytes within
      the budget, or all of them when no number does. */
  ghost predicate BudgetCut(es: seq<Snapshot>, before: set<string>, maxBytes: int, m: nat) {
    && m <= |Candidates(es, before)|
    && (m == |Candidates(es, before)| || RetainedBytes(es, CutKeys(es, before, m)) <= maxBytes)
    && forall j :: 0 <= j < m ==> RetainedBytes(es, CutKeys(es, before, j)) > maxBytes
  }

  ghost predicate BudgetRun(es: seq<Snapshot>, before: set<string>, after: set<string>, maxBytes: int) {
    exists m: nat :: BudgetCut(es, before, maxBytes, m) && after == CutKeys(es, before, m)
  }

  /** x is the newest of a source all of whose snapshots are selected. */
  predicate LastSurvivor(es: seq<Snapshot>, selected: set<string>, x: Snapshot) {
    var g := Group(es, Source(x));
    g != [] && x == g[|g| - 1] && forall y :: y in g ==> Key(y) in selected
  }

  ghost function PutBack(es: seq<Snapshot>, selected: set<string>): set<string> {
    set x | x in es && LastSurvivor(es, selected, x) :: Key(x)
  }

  /** selected holds what the rules and the byte budget select, before survivors are put back. */
  ghost predicate Selects(es: seq<Snapshot>, policy: Policy, cutoff: int, selected: set<string>) {
    var rules := RuleKeys(es, policy, cutoff);
    if policy.maxBytes > 0 then BudgetRun(es, rules, selected, policy.maxBytes) else selected == rules
  }

  predicate Limits(policy: Policy) { policy.keepLast > 0 || policy.keepDays > 0 || policy.maxBytes > 0 }

  function Picked(es: seq<Snapshot>, keys: set<string>): seq<Snapshot> { Filter(es, x => Key(x) in keys) }

  /** plan is what the planner answers for these snapshots. */
  ghost predicate IsPlan(policy: Policy, cutoff: int, snapshots: seq<Snapshot>, plan: seq<Snapshot>) {
    var es := Eligible(policy, snapshots);
    if !Limits(policy) then plan == []
    else exists selected ::
      Selects(es, policy, cutoff, selected) && plan == Picked(es, selected - PutBack(es, selected))
  }

  // ---- the planner -----------------------------------------------------------------------------------

  lemma GroupNext(es: seq<Snapshot>, i: nat, source: string)
    requires i < |es|
    ensures Group(es[..i + 1], source) == Group(es[..i], source) + (if Source(es[i]) == source then [es[i]] else [])
  {
    FilterNext(es, i, x => Source(x) == source);
  }

  ghost predicate GroupedUpTo(es: seq<Snapshot>, bySource: map<string, seq<Snapshot>>, i: nat)
    requires i <= |es|
  {
    && (forall source :: source in bySource ==> bySource[source] == Group(es[..i], source))
    && (forall source :: source !in bySource ==> Group(es[..i], source) == [])
    && (forall k :: 0 <= k < i ==> Source(es[k]) in bySource)
  }

  method GroupBySource(es: seq<Snapshot>) returns (bySource: map<string, seq<Snapshot>>)
    ensures forall x :: x in es ==> Source(x) in bySource
    ensures forall source :: source in bySource ==> bySource[source] == Group(es, source)
  {
    bySource := map[];
    for i := 0 to |es|
      invariant GroupedUpTo(es, bySource, i)
    {
      var source := Source(es[i]);
      var group := if source in bySource then bySource[source] else [];
      forall other { GroupNext(es, i, other); }
      bySource := bySource[source := group + [es[i]]];
    }
    assert es[..|es|] == es;
  }

  lemma EligibleSorted(policy: Policy, snapshots: seq<Snapshot>)
    requires UniqueKeys(Filter(snapshots, s => IsEligible(s, policy)))
    ensures StrictOrder(SnapshotLess) && Ascending(SnapshotLess, Eligible(policy, snapshots))
    ensures UniqueKeys(Eligible(policy, snapshots))
    ensures forall x :: x in Eligible(policy, snapshots) <==> x in snapshots && IsEligible(x, policy)
  {
    var f := Filter(snapshots, s => IsEligible(s, policy));
    StrLessIsOrder();
    assert Distinguishes(SnapshotLess, f);
    SortAscending(SnapshotLess, f);
    SortMembers(SnapshotLess, f);
    FilterMembers(snapshots, s => IsEligible(s, policy));
    AscendingKeys(f, Eligible(policy, snapshots));
  }

  lemma AscendingKeys(f: seq<Snapshot>, es: seq<Snapshot>)
    requires StrictOrder(SnapshotLess) && Ascending(SnapshotLess, es) && UniqueKeys(f)
    requires forall x :: x in es ==> x in f
    ensures UniqueKeys(es)
  {
    forall i, j | 0 <= i < j < |es|
      ensures Key(es[i]) != Key(es[j])
    {
      assert SnapshotLess(es[i], es[j]) && es[i] in f && es[j] in f;
    }
  }

  /** In a source's group, oldest first, what is newer than the i-th are those behind it. */
  lemma GroupRank(es: seq<Snapshot>, source: string, i: nat)
    requires StrictOrder(SnapshotLess) && Ascending(SnapshotLess, es) && i < |Group(es, source)|
    ensures NewerCount(es, Group(es, source)[i]) == |Group(es, source)| - 1 - i
  {
    var g := Group(es, source);
    var x := g[i];
    FilterMembers(es, y => Source(y) == source);
    assert x in g;
    FilterAscending(SnapshotLess, es, y => Source(y) == source);
    var newer := y => SnapshotLess(x, y);
    FilterTwice(es, y => Source(y) == source, newer, y => Source(y) == Source(x) && SnapshotLess(x, y));
    FilterBehind(SnapshotLess, g, i, newer);
  }

  /** All but the newest keepLast of a group. */
  function Oldest(group: seq<Snapshot>, keepLast: int): seq<Snapshot>
    requires keepLast > 0
  {
    group[..if |group| > keepLast then |group| - keepLast else 0]
  }

  lemma KeysDiffer(es: seq<Snapshot>, x: Snapshot, y: Snapshot)
    requires UniqueKeys(es) && x in es && y in es && Key(x) == Key(y)
    ensures x == y
  {
  }

  /** A key lies among a group's oldest exactly when it is that group's and keepLast snapshots are newer. */
  lemma OldestExactly(es: seq<Snapshot>, source: string, x: Snapshot, keepLast: int)
    requires keepLast > 0 && UniqueKeys(es) && StrictOrder(SnapshotLess) && Ascending(SnapshotLess, es) && x in es
    ensures Key(x) in Keys(Oldest(Group(es, source), keepLast))
            <==> Source(x) == source && NewerCount(es, x) >= keepLast
  {
    var g := Group(es, source);
    var oldest := Oldest(g, keepLast);
    FilterMembers(es, y => Source(y) == source);
    if Key(x) in Keys(oldest) {
      var y :| y in oldest && Key(y) == Key(x);
      var i :| 0 <= i < |oldest| && oldest[i] == y;
      assert g[i] == y && y in g;
      KeysDiffer(es, x, y);
      GroupRank(es, source, i);
    }
    if Source(x) == source && NewerCount(es, x) >= keepLast {
      assert x in g;
      var i :| 0 <= i < |g| && g[i] == x;
      GroupRank(es, source, i);
      assert oldest[i] == x;
    }
  }

  method CountExpired(es: seq<Snapshot>, keepLast: int) returns (expired: set<string>)
    requires keepLast > 0 && UniqueKeys(es) && StrictOrder(SnapshotLess) && Ascending(SnapshotLess, es)
    ensures forall x :: x in es ==> (Key(x) in expired <==> NewerCount(es, x) >= keepLast)
  {
    var bySource := GroupBySource(es);
    expired := {};
    var pending := bySource.Keys;
    while pending != {}
      invariant pending <= bySource.Keys
      invariant forall x :: x in es ==>
        (Key(x) in expired <==> Source(x) !in pending && NewerCount(es, x) >= keepLast)
    {
      var source :| source in pending;
      var group := bySource[source];
      var deleteCount := |group| - keepLast;
      ghost var before := expired;
      for i := 0 to if deleteCount > 0 then deleteCount else 0
        invariant expired == before + Keys(group[..i])
      {
        assert group[..i + 1] == group[..i] + [group[i]];
        expired := expired + {Key(group[i])};
      }
      pending := pending - {source};
      forall x | x in es
        ensures Key(x) in expired <==> Key(x) in before || (Source(x) == source && NewerCount(es, x) >= keepLast)
      {
        OldestExactly(es, source, x, keepLast);
      }
    }
  }

  method DayExpired(es: seq<Snapshot>, cutoff: int) returns (expired: set<string>)
    requires UniqueKeys(es)
    ensures forall x :: x in es ==> (Key(x) in expired <==> x.createdAt < cutoff)
  {
    expired := {};
    for i := 0 to |es|
      invariant forall k :: 0 <= k < |es| ==> (Key(es[k]) in expired <==> k < i && es[k].createdAt < cutoff)
    {
      if es[i].createdAt < cutoff {
        expired := expired + {Key(es[i])};
      }
    }
  }

  method SelectExpired(es: seq<Snapshot>, policy: Policy, cutoff: int) returns (selected: set<string>)
    requires UniqueKeys(es) && StrictOrder(SnapshotLess) && Ascending(SnapshotLess, es)
    ensures selected == RuleKeys(es, policy, cutoff)
  {
    var countExpired: set<string> := {};
    if policy.keepLast > 0 {
      countExpired := CountExpired(es, policy.keepLast);
    }
    var dayExpired: set<string> := {};
    if policy.keepDays > 0 {
      dayExpired := DayExpired(es, cutoff);
    }
    selected := {};
    for i := 0 to |es|
      invariant selected == set k | 0 <= k < i && Expired(es, policy, cutoff, es[k]) && !Protected(es[k]) :: Key(es[k])
    {
      var key := Key(es[i]);
      assert es[i] in es;
      var expired := false;
      if policy.keepLast > 0 && policy.keepDays > 0 {
        expired := key in countExpired && key in dayExpired;
      } else if policy.keepLast > 0 {
        expired := key in countExpired;
      } else if policy.keepDays > 0 {
        expired := key in dayExpired;
      }
      assert expired <==> Expired(es, policy, cutoff, es[i]);
      if expired && !Protected(es[i]) {
        selected := selected + {key};
      }
    }
  }

  // ---- the byte budget -------------------------------------------------------------------------------

  lemma {:induction false} SelectReduces(es: seq<Snapshot>, selected: set<string>, x: Snapshot)
    requires UniqueKeys(es) && x in es && Key(x) !in selected
    ensures RetainedBytes(es, selected + {Key(x)}) == RetainedBytes(es, selected) - PosBytes(x)
  {
    if es[0] == x {
      SelectOther(es[1..], selected, Key(x));
    } else {
      var k :| 0 <= k < |es| && es[k] == x;
      assert es[1..][k - 1] == x;
      SelectReduces(es[1..], selected, x);
    }
  }

  lemma {:induction false} SelectOther(es: seq<Snapshot>, selected: set<string>, key: string)
    requires forall i :: 0 <= i < |es| ==> Key(es[i]) != key
    ensures RetainedBytes(es, selected + {key}) == RetainedBytes(es, selected)
  {
    if es != [] { SelectOther(es[1..], selected, key); }
  }

  /** After looking at the first i snapshots, exactly the first m candidates went. */
  ghost predicate CutSoFar(es: seq<Snapshot>, before: set<string>, maxBytes: int, i: nat, m: nat) {
    var c := Candidates(es, before);
    && i <= |es| && m <= |c| && c[m..] == Candidates(es[i..], before)
    && (forall k :: i <= k < |es| ==> Key(es[k]) !in Keys(c[..m]))
    && (forall j :: 0 <= j < m ==> RetainedBytes(es, CutKeys(es, before, j)) > maxBytes)
  }

  lemma CutSkips(es: seq<Snapshot>, before: set<string>, maxBytes: int, i: nat, m: nat)
    requires CutSoFar(es, before, maxBytes, i, m) && i < |es|
    requires Key(es[i]) in CutKeys(es, before, m) || Protected(es[i])
    ensures CutSoFar(es, before, maxBytes, i + 1, m)
  {
    assert es[i..][0] == es[i] && es[i..][1..] == es[i + 1..];
  }

  lemma CutHead(es: seq<Snapshot>, before: set<string>, i: nat, m: nat)
    requires i < |es| && m <= |Candidates(es, before)|
    requires Candidates(es, before)[m..] == Candidates(es[i..], before)
    requires Key(es[i]) !in before && !Protected(es[i])
    ensures m < |Candidates(es, before)| && Candidates(es, before)[m] == es[i]
    ensures Candidates(es, before)[m + 1..] == Candidates(es[i + 1..], before)
    ensures Keys(Candidates(es, before)[..m + 1]) == Keys(Candidates(es, before)[..m]) + {Key(es[i])}
  {
    var c := Candidates(es, before);
    assert es[i..][0] == es[i] && es[i..][1..] == es[i + 1..];
    assert c[m..] == [es[i]] + Candidates(es[i + 1..], before);
    assert c[m] == c[m..][0];
    assert c[m + 1..] == c[m..][1..];
    assert c[..m + 1] == c[..m] + [es[i]];
  }

  lemma CutSoFarNext(es: seq<Snapshot>, before: set<string>, maxBytes: int, i: nat, m: nat)
    requires UniqueKeys(es) && CutSoFar(es, before, maxBytes, i, m) && i < |es|
    requires RetainedBytes(es, CutKeys(es, before, m)) > maxBytes
    requires m < |Candidates(es, before)| && Candidates(es, before)[m + 1..] == Candidates(es[i + 1..], before)
    requires Keys(Candidates(es, before)[..m + 1]) == Keys(Candidates(es, before)[..m]) + {Key(es[i])}
    ensures CutSoFar(es, before, maxBytes, i + 1, m + 1)
  {
  }

  lemma CutReduces(es: seq<Snapshot>, before: set<string>, i: nat, m: nat)
    requires UniqueKeys(es) && i < |es| && m < |Candidates(es, before)|
    requires Key(es[i]) !in CutKeys(es, before, m)
    requires Keys(Candidates(es, before)[..m + 1]) == Keys(Candidates(es, before)[..m]) + {Key(es[i])}
    ensures CutKeys(es, before, m + 1) == CutKeys(es, before, m) + {Key(es[i])}
    ensures RetainedBytes(es, CutKeys(es, before, m + 1))
            == RetainedBytes(es, CutKeys(es, before, m)) - PosBytes(es[i])
  {
    assert CutKeys(es, before, m + 1) == CutKeys(es, before, m) + {Key(es[i])};
    SelectReduces(es, CutKeys(es, before, m), es[i]);
  }

  method SelectWithinBudget(es: seq<Snapshot>, before: set<string>, maxBytes: int) returns (selected: set<string>)
    requires UniqueKeys(es)
    ensures BudgetRun(es, before, selected, maxBytes)
  {
    var retained := 0;
    assert es[0..] == es;
    for i := 0 to |es|
      invariant retained + RetainedBytes(es[i..], before) == RetainedBytes(es, before)
    {
      assert es[i..][0] == es[i] && es[i..][1..] == es[i + 1..];
      if Key(es[i]) !in before && es[i].bytes > 0 {
        retained := retained + es[i].bytes;
      }
    }
    selected := before;
    var i := 0;
    ghost var m := 0;
    assert CutKeys(es, before, 0) == before;
    while i < |es|
      invariant CutSoFar(es, before, maxBytes, i, m)
      invariant selected == CutKeys(es, before, m) && retained == RetainedBytes(es, selected)
    {
      if retained <= maxBytes {
        break;
      }
      var key := Key(es[i]);
      if key in selected || Protected(es[i]) {
        CutSkips(es, before, maxBytes, i, m);
        i := i + 1;
        continue;
      }
      CutHead(es, before, i, m);
      CutReduces(es, before, i, m);
      CutSoFarNext(es, before, maxBytes, i, m);
      selected := selected + {key};
      if es[i].bytes > 0 {
        retained := retained - es[i].bytes;
      }
      m := m + 1;
      i := i + 1;
    }
    assert i == |es| ==> es[i..] == [];
    assert BudgetCut(es, before, maxBytes, m);
  }

  // ---- the last survivor per source ------------------------------------------------------------------

  /** What is put back for the sources in done. */
  ghost function PutBackFrom(es: seq<Snapshot>, selected: set<string>, done: set<string>): set<string> {
    set x | x in es && Source(x) in done && LastSurvivor(es, selected, x) :: Key(x)
  }

  ghost predicate AllSelected(group: seq<Snapshot>, selected: set<string>) {
    group != [] && forall y :: y in group ==> Key(y) in selected
  }

  lemma PutBackStep(es: seq<Snapshot>, selected: set<string>, done: set<string>, source: string)
    requires UniqueKeys(es) && source !in done
    ensures var g := Group(es, source);
            && (forall y :: y in g ==> Key(y) !in PutBackFrom(es, selected, done))
            && PutBackFrom(es, selected, done + {source})
               == PutBackFrom(es, selected, done) + (if AllSelected(g, selected) then {Key(g[|g| - 1])} else {})
  {
    var g := Group(es, source);
    FilterMembers(es, x => Source(x) == source);
    forall y | y in g
      ensures Key(y) !in PutBackFrom(es, selected, done)
    {
      forall x | x in es && Key(x) == Key(y)
        ensures Source(x) !in done
      {
        KeysDiffer(es, x, y);
      }
    }
    forall x | x in es && Source(x) == source
      ensures LastSurvivor(es, selected, x) <==> AllSelected(g, selected) && x == g[|g| - 1]
    {
    }
    if AllSelected(g, selected) {
      assert g[|g| - 1] in g;
    }
  }

  method ProtectLastRemaining(es: seq<Snapshot>, before: set<string>) returns (selected: set<string>)
    requires UniqueKeys(es)
    ensures selected == before - PutBack(es, before)
  {
    var bySource := GroupBySource(es);
    selected := before;
    var pending := bySource.Keys;
    ghost var done: set<string> := {};
    while pending != {}
      invariant pending <= bySource.Keys && done == bySource.Keys - pending
      invariant selected == before - PutBackFrom(es, before, done)
    {
      var source :| source in pending;
      var group := bySource[source];
      PutBackStep(es, before, done, source);
      var remaining := 0;
      for i := 0 to |group|
        invariant remaining == 0 <==> forall k :: 0 <= k < i ==> Key(group[k]) in selected
        invariant remaining >= 0
      {
        if Key(group[i]) !in selected {
          remaining := remaining + 1;
        }
      }
      assert forall y :: y in group ==> (Key(y) in selected <==> Key(y) in before);
      assert remaining == 0 && |group| != 0 <==> AllSelected(group, before);
      if remaining == 0 && |group| != 0 {
        selected := selected - {Key(group[|group| - 1])};
      }
      done := done + {source};
      pending := pending - {source};
    }
    assert PutBackFrom(es, before, done) == PutBack(es, before);
  }

  // ---- the planner itself ----------------------------------------------------------------------------

  method PlanRetention(zoneKnown: bool, cutoff: int, policy: Policy, snapshots: seq<Snapshot>)
    returns (result: Result<seq<Snapshot>>)
    requires UniqueKeys(Filter(snapshots, s => IsEligible(s, policy)))
    ensures result.InvalidTimezone? <==> Limits(policy) && !zoneKnown
    ensures result.Ok? ==> IsPlan(policy, cutoff, snapshots, result.value)
  {
    if policy.keepLast <= 0 && policy.keepDays <= 0 && policy.maxBytes <= 0 {
      return Ok([]);
    }
    if !zoneKnown {
      return InvalidTimezone;
    }
    var eligible: seq<Snapshot> := [];
    for i := 0 to |snapshots|
      invariant eligible == Filter(snapshots[..i], s => IsEligible(s, policy))
    {
      FilterNext(snapshots, i, s => IsEligible(s, policy));
      if snapshots[i].policyId != policy.policyId || !CompletedStatus(snapshots[i].status) {
        continue;
      }
      eligible := eligible + [snapshots[i]];
    }
    assert snapshots[..|snapshots|] == snapshots;
    eligible := SortBy(SnapshotLess, eligible);
    EligibleSorted(policy, snapshots);
    var selected := SelectExpired(eligible, policy, cutoff);
    if policy.maxBytes > 0 {
      selected := SelectWithinBudget(eligible, selected, policy.maxBytes);
    }
    assert Selects(eligible, policy, cutoff, selected);
    ghost var chosen := selected;
    selected := ProtectLastRemaining(eligible, selected);
    var out: seq<Snapshot> := [];
    for i := 0 to |eligible|
      invariant out == Picked(eligible[..i], selected)
    {
      FilterNext(eligible, i, x => Key(x) in selected);
      if Key(eligible[i]) in selected {
        out := out + [eligible[i]];
      }
    }
    assert eligible[..|eligible|] == eligible;
    return Ok(out);
  }
}
