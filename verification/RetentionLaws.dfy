/** What every retention plan guarantees. */
module RetentionLaws {
  import opened Sorting
  import opened StringOrder
  import opened Filtering
  import opened Retention

  /** The planner's assumption: a policy's completed snapshots have distinct keys. */
  ghost predicate DistinctKeys(policy: Policy, snapshots: seq<Snapshot>) {
    UniqueKeys(Filter(snapshots, s => IsEligible(s, policy)))
  }

  /** Distinct (source, id) pairs give distinct keys when the sources hold no NUL. */
  lemma KeyInjective(a: Snapshot, b: Snapshot)
    requires '\0' !in Source(a) && '\0' !in Source(b) && Key(a) == Key(b)
    ensures Source(a) == Source(b) && a.id == b.id
  {
    SplitAtNul(Source(a), a.id, Source(b), b.id);
  }

  lemma SelectedUnprotected(es: seq<Snapshot>, policy: Policy, cutoff: int, selected: set<string>, x: Snapshot)
    requires UniqueKeys(es) && Selects(es, policy, cutoff, selected) && x in es && Key(x) in selected
    ensures !Protected(x)
  {
    var rules := RuleKeys(es, policy, cutoff);
    if Key(x) in rules {
      var y :| y in es && Expired(es, policy, cutoff, y) && !Protected(y) && Key(y) == Key(x);
      KeysDiffer(es, x, y);
    } else {
      var m: nat :| BudgetCut(es, rules, policy.maxBytes, m) && selected == CutKeys(es, rules, m);
      var c := Candidates(es, rules);
      FilterMembers(es, y => Key(y) !in rules && !Protected(y));
      var y :| y in c[..m] && Key(y) == Key(x);
      assert y in c;
      KeysDiffer(es, x, y);
    }
  }

  /** Membership in a plan, spelled out. */
  lemma PlanMembers(policy: Policy, cutoff: int, snapshots: seq<Snapshot>, plan: seq<Snapshot>) returns (selected: set<string>)
    requires DistinctKeys(policy, snapshots) && Limits(policy) && IsPlan(policy, cutoff, snapshots, plan)
    ensures var es := Eligible(policy, snapshots);
            && Selects(es, policy, cutoff, selected)
            && plan == Picked(es, selected - PutBack(es, selected))
            && (forall x :: x in plan <==> x in es && Key(x) in selected && !LastSurvivor(es, selected, x))
  {
    var es := Eligible(policy, snapshots);
    EligibleSorted(policy, snapshots);
    selected :| Selects(es, policy, cutoff, selected) && plan == Picked(es, selected - PutBack(es, selected));
    FilterMembers(es, x => Key(x) in selected - PutBack(es, selected));
    forall x | x in es
      ensures Key(x) in PutBack(es, selected) <==> LastSurvivor(es, selected, x)
    {
      if Key(x) in PutBack(es, selected) {
        var y :| y in es && LastSurvivor(es, selected, y) && Key(y) == Key(x);
        KeysDiffer(es, x, y);
      }
    }
  }

  lemma SourceKeepsOne(es: seq<Snapshot>, selected: set<string>, x: Snapshot) returns (y: Snapshot)
    requires x in es
    ensures y in es && Source(y) == Source(x) && (Key(y) !in selected || LastSurvivor(es, selected, y))
  {
    var g := Group(es, Source(x));
    FilterMembers(es, y => Source(y) == Source(x));
    assert x in g;
    y := g[|g| - 1];
    assert y in g;
    if z :| z in g && Key(z) !in selected {
      y := z;
    }
  }

  /** A plan is oldest first, takes only unprotected completed snapshots of the policy, and leaves every
      source one of them. */
  lemma PlanSafe(policy: Policy, cutoff: int, snapshots: seq<Snapshot>, plan: seq<Snapshot>)
    requires DistinctKeys(policy, snapshots) && IsPlan(policy, cutoff, snapshots, plan)
    ensures Ascending(SnapshotLess, plan)
    ensures forall x :: x in plan ==> x in snapshots && IsEligible(x, policy) && !x.active && !x.lastUsable
    ensures forall x :: x in snapshots && IsEligible(x, policy) ==>
              exists y :: y in snapshots && IsEligible(y, policy) && Source(y) == Source(x) && y !in plan
  {
    var es := Eligible(policy, snapshots);
    EligibleSorted(policy, snapshots);
    if Limits(policy) {
      var selected := PlanMembers(policy, cutoff, snapshots, plan);
      FilterAscending(SnapshotLess, es, x => Key(x) in selected - PutBack(es, selected));
      forall x | x in plan
        ensures !Protected(x)
      {
        SelectedUnprotected(es, policy, cutoff, selected, x);
      }
      forall x | x in es
        ensures exists y :: y in es && Source(y) == Source(x) && y !in plan
      {
        var y := SourceKeepsOne(es, selected, x);
      }
    }
  }

  /** With a keep_last limit, the newest snapshot of a source is never expired. */
  lemma NewestKept(es: seq<Snapshot>, policy: Policy, cutoff: int, x: Snapshot)
    requires StrictOrder(SnapshotLess) && Ascending(SnapshotLess, es) && policy.keepLast > 0
    requires var g := Group(es, Source(x)); g != [] && x == g[|g| - 1]
    ensures !Expired(es, policy, cutoff, x)
  {
    GroupRank(es, Source(x), |Group(es, Source(x))| - 1);
  }

  /** Without a byte budget and with a keep_last limit, no survivor has to be put back. */
  lemma NothingPutBack(es: seq<Snapshot>, policy: Policy, cutoff: int, x: Snapshot)
    requires UniqueKeys(es) && StrictOrder(SnapshotLess) && Ascending(SnapshotLess, es)
    requires policy.keepLast > 0 && x in es
    ensures !LastSurvivor(es, RuleKeys(es, policy, cutoff), x)
  {
    var rules := RuleKeys(es, policy, cutoff);
    if LastSurvivor(es, rules, x) {
      var g := Group(es, Source(x));
      assert x in g && Key(x) in rules;
      var y :| y in es && Expired(es, policy, cutoff, y) && Key(y) == Key(x);
      KeysDiffer(es, x, y);
      NewestKept(es, policy, cutoff, x);
    }
  }

  /** keep_last = k alone selects exactly the unprotected among each source's oldest n - k. */
  lemma KeepLastExact(policy: Policy, cutoff: int, snapshots: seq<Snapshot>, plan: seq<Snapshot>, x: Snapshot)
    requires DistinctKeys(policy, snapshots) && IsPlan(policy, cutoff, snapshots, plan)
    requires policy.keepLast > 0 && policy.keepDays <= 0 && policy.maxBytes <= 0
    ensures x in plan <==> x in Oldest(Group(Eligible(policy, snapshots), Source(x)), policy.keepLast) && !Protected(x)
  {
    var es := Eligible(policy, snapshots);
    EligibleSorted(policy, snapshots);
    var selected := PlanMembers(policy, cutoff, snapshots, plan);
    var g := Group(es, Source(x));
    FilterMembers(es, y => Source(y) == Source(x));
    assert x in Oldest(g, policy.keepLast) ==> x in g;
    if x in es {
      OldestExactly(es, Source(x), x, policy.keepLast);
      NothingPutBack(es, policy, cutoff, x);
      if Key(x) in selected {
        var y :| y in es && Expired(es, policy, cutoff, y) && !Protected(y) && Key(y) == Key(x);
        KeysDiffer(es, x, y);
      }
      if Key(x) in Keys(Oldest(g, policy.keepLast)) {
        var y :| y in Oldest(g, policy.keepLast) && Key(y) == Key(x);
        assert y in g;
        KeysDiffer(es, x, y);
      }
    }
  }

  /** Before survivors are put back, what the byte budget leaves fits, or is all protected; what it deletes
      is a run of the unprotected, oldest first; and keeping the newest of that run would exceed it. */
  lemma BudgetLaw(es: seq<Snapshot>, before: set<string>, after: set<string>, maxBytes: int)
    requires UniqueKeys(es) && BudgetRun(es, before, after, maxBytes)
    ensures RetainedBytes(es, after) <= maxBytes || forall x :: x in es && Key(x) !in after ==> Protected(x)
    ensures exists m: nat :: m <= |Candidates(es, before)| && after == CutKeys(es, before, m)
              && (m > 0 ==> RetainedBytes(es, after) + PosBytes(Candidates(es, before)[m - 1]) > maxBytes)
  {
    var m: nat :| BudgetCut(es, before, maxBytes, m) && after == CutKeys(es, before, m);
    var c := Candidates(es, before);
    FilterMembers(es, x => Key(x) !in before && !Protected(x));
    if m == |c| {
      assert c[..m] == c;
    }
    if m > 0 {
      CutTight(es, before, m);
    }
  }

  /** Taking the m-th candidate back out gives its bytes back. */
  lemma CutTight(es: seq<Snapshot>, before: set<string>, m: nat)
    requires UniqueKeys(es) && 0 < m <= |Candidates(es, before)|
    ensures RetainedBytes(es, CutKeys(es, before, m)) + PosBytes(Candidates(es, before)[m - 1])
            == RetainedBytes(es, CutKeys(es, before, m - 1))
  {
    var c := Candidates(es, before);
    FilterMembers(es, x => Key(x) !in before && !Protected(x));
    var x := c[m - 1];
    assert x in c;
    assert c[..m] == c[..m - 1] + [x];
    assert CutKeys(es, before, m) == CutKeys(es, before, m - 1) + {Key(x)};
    CandidateFresh(es, before, m - 1);
    SelectReduces(es, CutKeys(es, before, m - 1), x);
  }

  lemma {:induction false} FilterUnique(s: seq<Snapshot>, keep: Snapshot -> bool)
    requires UniqueKeys(s)
    ensures UniqueKeys(Filter(s, keep))
  {
    if s != [] {
      assert forall i :: 0 <= i < |s| - 1 ==> s[1..][i] == s[i + 1];
      FilterUnique(s[1..], keep);
      FilterMembers(s[1..], keep);
      var r := Filter(s[1..], keep);
      forall j | 0 <= j < |r|
        ensures Key(r[j]) != Key(s[0])
      {
        assert r[j] in r;
      }
    }
  }

  lemma CandidateFresh(es: seq<Snapshot>, before: set<string>, j: nat)
    requires UniqueKeys(es) && j < |Candidates(es, before)|
    ensures Key(Candidates(es, before)[j]) !in CutKeys(es, before, j)
  {
    FilterUnique(es, x => Key(x) !in before && !Protected(x));
    FilterMembers(es, x => Key(x) !in before && !Protected(x));
    assert Candidates(es, before)[j] in Candidates(es, before);
  }
}
