/** Planning again, at the same cutoff, on the snapshots a plan leaves behind selects nothing. */
module RetentionStable {
  import opened Sorting
  import opened Filtering
  import opened Merging
  import opened Retention
  import opened RetentionLaws

  function Remaining(snapshots: seq<Snapshot>, plan: seq<Snapshot>): seq<Snapshot> {
    Filter(snapshots, x => x !in plan)
  }

  lemma RemainingEligible(policy: Policy, snapshots: seq<Snapshot>, plan: seq<Snapshot>)
    requires DistinctKeys(policy, snapshots)
    ensures DistinctKeys(policy, Remaining(snapshots, plan))
    ensures Eligible(policy, Remaining(snapshots, plan)) == Remaining(Eligible(policy, snapshots), plan)
  {
    var eligible := s => IsEligible(s, policy);
    var kept := (x: Snapshot) => x !in plan;
    var both := (x: Snapshot) => IsEligible(x, policy) && x !in plan;
    FilterTwice(snapshots, kept, eligible, both);
    FilterTwice(snapshots, eligible, kept, both);
    FilterUnique(Filter(snapshots, eligible), kept);
    var after := Remaining(snapshots, plan);
    assert after == Filter(snapshots, kept) by { FilterAgrees(snapshots, kept, x => x !in plan); }
    DistinctAgrees(policy, after, Filter(Filter(snapshots, eligible), kept));
    EligibleSorted(policy, snapshots);
    EligibleSorted(policy, after);
    FilterMembers(snapshots, x => x !in plan);
    FilterMembers(Eligible(policy, snapshots), x => x !in plan);
    FilterAscending(SnapshotLess, Eligible(policy, snapshots), x => x !in plan);
    AscendingUnique(SnapshotLess, Eligible(policy, after), Remaining(Eligible(policy, snapshots), plan));
  }

  lemma DistinctAgrees(policy: Policy, snapshots: seq<Snapshot>, relevant: seq<Snapshot>)
    requires relevant == Filter(snapshots, s => IsEligible(s, policy)) && UniqueKeys(relevant)
    ensures DistinctKeys(policy, snapshots)
  {
  }

  /** A snapshot the rules select among the remaining ones was already selected by them. */
  lemma RulesShrink(es: seq<Snapshot>, plan: seq<Snapshot>, policy: Policy, cutoff: int, x: Snapshot)
    requires x in es && Expired(Remaining(es, plan), policy, cutoff, x)
    ensures Expired(es, policy, cutoff, x)
  {
    FilterFewer(es, y => y !in plan, y => Source(y) == Source(x) && SnapshotLess(x, y));
  }

  lemma {:induction false} RetainedFewer(es: seq<Snapshot>, keep: Snapshot -> bool, s2: set<string>, s1: set<string>)
    requires forall y :: y in es && keep(y) && Key(y) !in s2 ==> Key(y) !in s1
    ensures RetainedBytes(Filter(es, keep), s2) <= RetainedBytes(es, s1)
  {
    if es != [] {
      RetainedFewer(es[1..], keep, s2, s1);
      if keep(es[0]) {
        assert ([es[0]] + Filter(es[1..], keep))[1..] == Filter(es[1..], keep);
      }
    }
  }

  /** Two candidates of one list go in the order of the list. */
  lemma CutOrder(es: seq<Snapshot>, before: set<string>, y: Snapshot, x: Snapshot, j: nat)
    requires StrictOrder(SnapshotLess) && Ascending(SnapshotLess, es)
    requires y in es && Key(y) !in before && !Protected(y)
    requires j < |Candidates(es, before)| && Candidates(es, before)[j] == x && SnapshotLess(y, x)
    ensures Key(y) in CutKeys(es, before, j)
  {
    var c := Candidates(es, before);
    FilterMembers(es, z => Key(z) !in before && !Protected(z));
    FilterAscending(SnapshotLess, es, z => Key(z) !in before && !Protected(z));
    var p :| 0 <= p < |c| && c[p] == y;
    LessMeansEarlier(SnapshotLess, c, p, j);
    assert c[..j][p] == y;
  }

  /** Something a cut took is one of the candidates it went over. */
  lemma TakenBefore(es: seq<Snapshot>, before: set<string>, m: nat, y: Snapshot) returns (p: nat)
    requires UniqueKeys(es) && m <= |Candidates(es, before)| && y in es
    requires Key(y) in CutKeys(es, before, m) && Key(y) !in before
    ensures p < m && Candidates(es, before)[p] == y && !Protected(y)
  {
    var c := Candidates(es, before);
    FilterMembers(es, z => Key(z) !in before && !Protected(z));
    var z :| z in c[..m] && Key(z) == Key(y);
    p :| 0 <= p < m && c[..m][p] == z;
    assert c[p] == z && z in c;
    KeysDiffer(es, y, z);
  }

  /** A candidate that a cut left comes behind those it went over. */
  lemma LeftBehind(es: seq<Snapshot>, before: set<string>, m: nat, x: Snapshot) returns (q: nat)
    requires m <= |Candidates(es, before)| && x in es
    requires Key(x) !in CutKeys(es, before, m) && !Protected(x)
    ensures m <= q < |Candidates(es, before)| && Candidates(es, before)[q] == x
  {
    var c := Candidates(es, before);
    FilterMembers(es, z => Key(z) !in before && !Protected(z));
    assert x in c;
    q :| 0 <= q < |c| && c[q] == x;
  }

  /** Something the first cut took is older than any candidate it left. */
  lemma TakenIsOlder(es: seq<Snapshot>, before: set<string>, m: nat, y: Snapshot, x: Snapshot)
    requires UniqueKeys(es) && StrictOrder(SnapshotLess) && Ascending(SnapshotLess, es)
    requires m <= |Candidates(es, before)| && x in es && y in es
    requires Key(y) in CutKeys(es, before, m) && Key(y) !in before
    requires Key(x) !in CutKeys(es, before, m) && !Protected(x)
    ensures SnapshotLess(y, x) && !Protected(y)
  {
    var p := TakenBefore(es, before, m, y);
    var q := LeftBehind(es, before, m, x);
    FilterAscending(SnapshotLess, es, z => Key(z) !in before && !Protected(z));
  }

  /** The first plan: its snapshots, what it selected before putting survivors back, and what remains. */
  ghost predicate FirstPlan(policy: Policy, cutoff: int, es: seq<Snapshot>, plan: seq<Snapshot>, selected: set<string>) {
    && UniqueKeys(es) && StrictOrder(SnapshotLess) && Ascending(SnapshotLess, es)
    && Selects(es, policy, cutoff, selected)
    && forall x :: x in plan <==> x in es && Key(x) in selected && !LastSurvivor(es, selected, x)
  }

  lemma LeftBySelection(policy: Policy, cutoff: int, es: seq<Snapshot>, plan: seq<Snapshot>, s1: set<string>, y: Snapshot)
    requires FirstPlan(policy, cutoff, es, plan, s1) && y in es && y !in plan && Key(y) in s1
    ensures LastSurvivor(es, s1, y) && y in Group(es, Source(y))
  {
    FilterMembers(es, z => Source(z) == Source(y));
  }

  /** Rules that selected a survivor select it again. */
  lemma RulesAgain(policy: Policy, cutoff: int, es: seq<Snapshot>, rest: seq<Snapshot>, s1: set<string>, y: Snapshot)
    requires UniqueKeys(es) && StrictOrder(SnapshotLess) && Ascending(SnapshotLess, es)
    requires y in es && y in rest && LastSurvivor(es, s1, y) && Key(y) in RuleKeys(es, policy, cutoff)
    ensures Key(y) in RuleKeys(rest, policy, cutoff)
  {
    var z :| z in es && Expired(es, policy, cutoff, z) && !Protected(z) && Key(z) == Key(y);
    KeysDiffer(es, y, z);
    if policy.keepLast > 0 {
      NewestKept(es, policy, cutoff, y);
    }
    assert Expired(rest, policy, cutoff, y);
  }

  /** A survivor that was put back is selected anew before any candidate the first plan left alone. */
  lemma PutBackGoesFirst(policy: Policy, cutoff: int, es: seq<Snapshot>, plan: seq<Snapshot>, s1: set<string>,
                         j: nat, x: Snapshot, y: Snapshot)
    requires FirstPlan(policy, cutoff, es, plan, s1) && policy.maxBytes > 0
    requires var rest := Remaining(es, plan);
             var rules := RuleKeys(rest, policy, cutoff);
             && j < |Candidates(rest, rules)| && x == Candidates(rest, rules)[j]
    requires Key(x) !in s1 && y in es && y !in plan && Key(y) in s1
    ensures Key(y) in CutKeys(Remaining(es, plan), RuleKeys(Remaining(es, plan), policy, cutoff), j)
  {
    var rest := Remaining(es, plan);
    var rules, rules1 := RuleKeys(rest, policy, cutoff), RuleKeys(es, policy, cutoff);
    FilterMembers(es, z => z !in plan);
    LeftBySelection(policy, cutoff, es, plan, s1, y);
    if Key(y) in rules1 {
      RulesAgain(policy, cutoff, es, rest, s1, y);
    } else if Key(y) !in rules {
      FilterAscending(SnapshotLess, es, z => z !in plan);
      FilterMembers(rest, z => Key(z) !in rules && !Protected(z));
      assert x in Candidates(rest, rules);
      var m: nat :| BudgetCut(es, rules1, policy.maxBytes, m) && s1 == CutKeys(es, rules1, m);
      TakenIsOlder(es, rules1, m, y, x);
      CutOrder(rest, rules, y, x, j);
    }
  }

  /** The second plan's byte budget takes nothing the first plan left alone. */
  lemma BudgetShrinks(policy: Policy, cutoff: int, es: seq<Snapshot>, plan: seq<Snapshot>, s1: set<string>, m: nat, j: nat)
    requires FirstPlan(policy, cutoff, es, plan, s1) && policy.maxBytes > 0
    requires BudgetCut(Remaining(es, plan), RuleKeys(Remaining(es, plan), policy, cutoff), policy.maxBytes, m)
    requires j < m
    ensures Key(Candidates(Remaining(es, plan), RuleKeys(Remaining(es, plan), policy, cutoff))[j]) in s1
  {
    var rest := Remaining(es, plan);
    var rules := RuleKeys(rest, policy, cutoff);
    var x := Candidates(rest, rules)[j];
    if Key(x) !in s1 {
      var s2 := CutKeys(rest, rules, j);
      FilterMembers(es, z => z !in plan);
      FilterMembers(rest, z => Key(z) !in rules && !Protected(z));
      assert x in Candidates(rest, rules);
      forall y | y in es && y !in plan && Key(y) !in s2
        ensures Key(y) !in s1
      {
        if Key(y) in s1 {
          PutBackGoesFirst(policy, cutoff, es, plan, s1, j, x, y);
        }
      }
      RetainedFewer(es, y => y !in plan, s2, s1);
      BudgetLaw(es, RuleKeys(es, policy, cutoff), s1, policy.maxBytes);
    }
  }

  /** Whatever the second plan selects was selected by the first and put back. */
  lemma SelectedBefore(policy: Policy, cutoff: int, es: seq<Snapshot>, plan: seq<Snapshot>, s1: set<string>,
                       s2: set<string>, x: Snapshot)
    requires FirstPlan(policy, cutoff, es, plan, s1) && Selects(Remaining(es, plan), policy, cutoff, s2)
    requires x in Remaining(es, plan) && Key(x) in s2
    ensures Key(x) in s1
  {
    var rest := Remaining(es, plan);
    var rules := RuleKeys(rest, policy, cutoff);
    FilterMembers(es, z => z !in plan);
    if Key(x) in rules {
      var z :| z in rest && Expired(rest, policy, cutoff, z) && !Protected(z) && Key(z) == Key(x);
      KeysDiffer(es, x, z);
      RulesShrink(es, plan, policy, cutoff, x);
      assert Key(x) in RuleKeys(es, policy, cutoff);
    } else {
      var m: nat :| BudgetCut(rest, rules, policy.maxBytes, m) && s2 == CutKeys(rest, rules, m);
      var c := Candidates(rest, rules);
      var z :| z in c[..m] && Key(z) == Key(x);
      var j :| 0 <= j < m && c[..m][j] == z;
      BudgetShrinks(policy, cutoff, es, plan, s1, m, j);
    }
  }

  /** Planning again on what a plan leaves behind selects nothing, under any combination of limits. */
  lemma PlanStable(policy: Policy, cutoff: int, snapshots: seq<Snapshot>, plan: seq<Snapshot>, again: seq<Snapshot>)
    requires DistinctKeys(policy, snapshots) && IsPlan(policy, cutoff, snapshots, plan)
    requires IsPlan(policy, cutoff, Remaining(snapshots, plan), again)
    ensures again == []
  {
    if Limits(policy) {
      var es := Eligible(policy, snapshots);
      EligibleSorted(policy, snapshots);
      RemainingEligible(policy, snapshots, plan);
      var s1 := PlanMembers(policy, cutoff, snapshots, plan);
      var s2 := PlanMembers(policy, cutoff, Remaining(snapshots, plan), again);
      assert FirstPlan(policy, cutoff, es, plan, s1);
      var rest := Remaining(es, plan);
      if again != [] {
        var x := again[0];
        assert x in again;
        SelectedBefore(policy, cutoff, es, plan, s1, s2, x);
        SoleSurvivor(policy, cutoff, es, plan, s1, s2, x);
      }
    }
  }

  /** A survivor put back is alone of its source afterwards, so it is put back again. */
  lemma SoleSurvivor(policy: Policy, cutoff: int, es: seq<Snapshot>, plan: seq<Snapshot>, s1: set<string>,
                     s2: set<string>, x: Snapshot)
    requires FirstPlan(policy, cutoff, es, plan, s1)
    requires x in Remaining(es, plan) && Key(x) in s1 && Key(x) in s2
    ensures LastSurvivor(Remaining(es, plan), s2, x)
  {
    var rest := Remaining(es, plan);
    LeftBySelected(policy, cutoff, es, plan, s1, x);
    forall y | y in rest && Source(y) == Source(x)
      ensures y == x
    {
      LeftBySurvival(policy, cutoff, es, plan, s1, x, y);
    }
    AloneSurvives(rest, s2, x);
  }

  lemma LeftBySelected(policy: Policy, cutoff: int, es: seq<Snapshot>, plan: seq<Snapshot>, s1: set<string>, x: Snapshot)
    requires FirstPlan(policy, cutoff, es, plan, s1) && x in Remaining(es, plan) && Key(x) in s1
    ensures LastSurvivor(es, s1, x)
    ensures forall y :: y in Remaining(es, plan) ==> y in es && y !in plan
  {
    FilterMembers(es, z => z !in plan);
    LeftBySelection(policy, cutoff, es, plan, s1, x);
  }

  lemma AloneSurvives(es: seq<Snapshot>, selected: set<string>, x: Snapshot)
    requires x in es && Key(x) in selected && forall y :: y in es && Source(y) == Source(x) ==> y == x
    ensures LastSurvivor(es, selected, x)
  {
    FilterMembers(es, z => Source(z) == Source(x));
    var g := Group(es, Source(x));
    assert x in g;
    assert g[|g| - 1] in g;
  }

  lemma LeftBySurvival(policy: Policy, cutoff: int, es: seq<Snapshot>, plan: seq<Snapshot>, s1: set<string>,
                       x: Snapshot, y: Snapshot)
    requires FirstPlan(policy, cutoff, es, plan, s1) && LastSurvivor(es, s1, x)
    requires y in es && y !in plan && Source(y) == Source(x)
    ensures y == x
  {
    FilterMembers(es, z => Source(z) == Source(x));
    assert y in Group(es, Source(x));
    LeftBySelection(policy, cutoff, es, plan, s1, y);
  }
}
