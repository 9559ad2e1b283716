/** Batch targets, their statuses, and the two folds over them. */
module BatchTypes {
  import opened Sorting

  datatype TargetStatus = Pending | Running | Success | Failed | Timeout | Denied | Conflict | Unavailable | Invalid

  datatype BatchStatus = BatchPending | BatchRunning | Completed | Partial | BatchFailed

  datatype Target = Target(op: nat, nodeId: string, processId: string, status: TargetStatus, error: string)

  datatype Summary = Summary(
    success: nat, failed: nat, timeout: nat, denied: nat, conflict: nat, unavailable: nat, invalid: nat)
  {
    function Total(): nat { success + failed + timeout + denied + conflict + unavailable + invalid }
  }

  predicate Incomplete(s: TargetStatus) { s == Pending || s == Running }

  /** A definite failure: RetryFailed gives it a new operation. */
  predicate Retryable(s: TargetStatus) {
    s == Failed || s == Denied || s == Conflict || s == Unavailable || s == Invalid
  }

  predicate Final(s: BatchStatus) { s == Completed || s == Partial || s == BatchFailed }

  /** What a batch's status says about its targets. */
  function StatusOf(targets: seq<Target>): BatchStatus {
    if exists t :: t in targets && Incomplete(t.status) then BatchRunning
    else if forall t :: t in targets ==> t.status == Success then Completed
    else if forall t :: t in targets ==> t.status != Success && t.status != Timeout then BatchFailed
    else Partial
  }

  function Count(targets: seq<Target>, status: TargetStatus): nat {
    if targets == [] then 0
    else Count(targets[..|targets| - 1], status) + if targets[|targets| - 1].status == status then 1 else 0
  }

  function SummaryOf(targets: seq<Target>): Summary {
    Summary(Count(targets, Success), Count(targets, Failed), Count(targets, Timeout), Count(targets, Denied),
            Count(targets, Conflict), Count(targets, Unavailable), Count(targets, Invalid))
  }

  method Rollup(targets: seq<Target>) returns (status: BatchStatus)
    ensures status == StatusOf(targets)
  {
    var success, timeout := 0, 0;
    for i := 0 to |targets|
      invariant 0 <= success <= i && 0 <= timeout
      invariant forall k :: 0 <= k < i ==> !Incomplete(targets[k].status)
      invariant success == i <==> forall k :: 0 <= k < i ==> targets[k].status == Success
      invariant success == 0 <==> forall k :: 0 <= k < i ==> targets[k].status != Success
      invariant timeout == 0 <==> forall k :: 0 <= k < i ==> targets[k].status != Timeout
    {
      assert targets[i] in targets;
      match targets[i].status {
        case Pending | Running => return BatchRunning;
        case Success => success := success + 1;
        case Timeout => timeout := timeout + 1;
        case _ =>
      }
    }
    assert forall k :: 0 <= k < |targets| ==> targets[k] in targets;
    if success == |targets| {
      return Completed;
    }
    if success == 0 && timeout == 0 {
      return BatchFailed;
    }
    return Partial;
  }

  method CountSummary(targets: seq<Target>) returns (s: Summary)
    ensures s == SummaryOf(targets)
  {
    s := Summary(0, 0, 0, 0, 0, 0, 0);
    for i := 0 to |targets|
      invariant s == SummaryOf(targets[..i])
    {
      assert targets[..i + 1][..i] == targets[..i];
      match targets[i].status {
        case Success => s := s.(success := s.success + 1);
        case Failed => s := s.(failed := s.failed + 1);
        case Timeout => s := s.(timeout := s.timeout + 1);
        case Denied => s := s.(denied := s.denied + 1);
        case Conflict => s := s.(conflict := s.conflict + 1);
        case Unavailable => s := s.(unavailable := s.unavailable + 1);
        case Invalid => s := s.(invalid := s.invalid + 1);
        case _ =>
      }
    }
    assert targets[..|targets|] == targets;
  }

  /** The summary of targets none of which is incomplete totals all of them. */
  lemma {:induction false} SummaryTotals(targets: seq<Target>)
    ensures SummaryOf(targets).Total() <= |targets|
    ensures SummaryOf(targets).Total() == |targets| <==> forall t :: t in targets ==> !Incomplete(t.status)
  {
    if targets != [] {
      var init, last := targets[..|targets| - 1], targets[|targets| - 1];
      SummaryTotals(init);
      assert targets == init + [last];
      assert last in targets;
    }
  }

  /** Listing the targets in another order, as the store may, changes neither fold. */
  lemma {:induction false} FoldsIgnoreOrder(a: seq<Target>, b: seq<Target>)
    requires multiset(a) == multiset(b)
    ensures StatusOf(a) == StatusOf(b) && SummaryOf(a) == SummaryOf(b)
  {
    forall t ensures t in a <==> t in b { assert t in a <==> t in multiset(a); assert t in b <==> t in multiset(b); }
    forall status ensures Count(a, status) == Count(b, status) { CountIgnoresOrder(a, b, status); }
  }

  lemma {:induction false} CountIgnoresOrder(a: seq<Target>, b: seq<Target>, status: TargetStatus)
    requires multiset(a) == multiset(b)
    ensures Count(a, status) == Count(b, status)
  {
    if a == [] {
      assert |multiset(b)| == 0;
    } else {
      var k := MatchFirst(a, b);
      CountIgnoresOrder(a[1..], b[..k] + b[k + 1..], status);
      CountSplit(a, 0, status);
      CountSplit(b, k, status);
      assert a[..0] + a[0 + 1..] == a[1..];
    }
  }

  lemma CountSplit(a: seq<Target>, k: nat, status: TargetStatus)
    requires k < |a|
    ensures Count(a, status) == Count(a[..k] + a[k + 1..], status) + if a[k].status == status then 1 else 0
  {
    assert a == a[..k] + ([a[k]] + a[k + 1..]);
    CountConcat(a[..k], [a[k]] + a[k + 1..], status);
    CountConcat([a[k]], a[k + 1..], status);
    CountConcat(a[..k], a[k + 1..], status);
    assert [a[k]][..0] == [];
  }

  lemma {:induction false} CountConcat(a: seq<Target>, b: seq<Target>, status: TargetStatus)
    ensures Count(a + b, status) == Count(a, status) + Count(b, status)
  {
    if b == [] {
      assert a + b == a;
    } else {
      assert (a + b)[..|a + b| - 1] == a + b[..|b| - 1];
      CountConcat(a, b[..|b| - 1], status);
    }
  }
}
