/** One batch: its stored rows, the calls that rewrite them, and the worker that executes them.

  Store calls succeed, an API call is one step, and so is the final read, rollup and write of a run; the
  engine holds no lock across these. Operation ids are numbers handed out by a counter, which makes every
  new id fresh. A row keeps its place in `rows`; the store lists rows by operation id, which the folds do
  not notice (BatchTypes.FoldsIgnoreOrder).
*/
module BatchEngine {
  import opened BatchTypes

  datatype Option<T> = None | Some(value: T)

  /** What the expander resolved: no operation yet, and a status only where the target cannot run. */
  datatype Expanded = Expanded(nodeId: string, processId: string, processName: string, status: Option<TargetStatus>, error: string)

  datatype Db = Db(rows: seq<Target>, status: BatchStatus, summary: Summary, nextId: nat)

  // ---- the new rows, as functions of the old -------------------------------------------------------------

  predicate NonZero(x: Expanded) {
    x.nodeId != "" || x.processId != "" || x.processName != "" || x.status != None || x.error != ""
  }

  function NewRow(x: Expanded, op: nat): Target {
    Target(op, x.nodeId, x.processId, if x.status.Some? then x.status.value else Pending, x.error)
  }

  /** The rows for the targets that name something, with consecutive operation ids. */
  function NewRows(raw: seq<Expanded>, firstOp: nat): seq<Target> {
    if raw == [] then []
    else
      var init := NewRows(raw[..|raw| - 1], firstOp);
      var x := raw[|raw| - 1];
      if NonZero(x) then init + [NewRow(x, firstOp + |init|)] else init
  }

  /** How many of the first k rows are definite failures. */
  function RetryableBefore(rows: seq<Target>, k: nat): nat
    requires k <= |rows|
  {
    if k == 0 then 0 else RetryableBefore(rows, k - 1) + if Retryable(rows[k - 1].status) then 1 else 0
  }

  function RetryableCount(rows: seq<Target>): nat { RetryableBefore(rows, |rows|) }

  /** A definite failure becomes pending under the next fresh operation; every other row stays. */
  function RetriedRow(rows: seq<Target>, k: nat, nextId: nat): Target
    requires k < |rows|
  {
    if Retryable(rows[k].status) then rows[k].(op := nextId + RetryableBefore(rows, k), status := Pending, error := "")
    else rows[k]
  }

  function RetriedRows(rows: seq<Target>, nextId: nat): seq<Target> {
    seq(|rows|, k requires 0 <= k < |rows| => RetriedRow(rows, k, nextId))
  }

  /** A timed-out target becomes pending under its own operation; every other row stays. */
  function ReplayedRow(t: Target): Target {
    if t.status == Timeout then t.(status := Pending, error := "") else t
  }

  function ReplayedRows(rows: seq<Target>): seq<Target> {
    seq(|rows|, k requires 0 <= k < |rows| => ReplayedRow(rows[k]))
  }

  /** The store's update of the row with a given operation. */
  function WriteByOp(rows: seq<Target>, op: nat, status: TargetStatus, error: string): seq<Target> {
    seq(|rows|, k requires 0 <= k < |rows| =>
      if rows[k].op == op then rows[k].(status := status, error := error) else rows[k])
  }

  function Retry(db: Db): Db {
    var rows := RetriedRows(db.rows, db.nextId);
    Db(rows, BatchRunning, SummaryOf(rows), db.nextId + RetryableCount(db.rows))
  }

  function Replay(db: Db): Db {
    var rows := ReplayedRows(db.rows);
    db.(rows := rows, status := BatchRunning, summary := SummaryOf(rows))
  }

  function Finalized(db: Db): Db { db.(status := StatusOf(db.rows), summary := SummaryOf(db.rows)) }

  predicate SomeStatus(rows: seq<Target>, p: TargetStatus -> bool) { exists t :: t in rows && p(t.status) }

  lemma {:induction false} RetryableCounted(rows: seq<Target>, k: nat)
    requires k <= |rows|
    ensures RetryableBefore(rows, k) > 0 <==> exists i :: 0 <= i < k && Retryable(rows[i].status)
    ensures RetryableBefore(rows, k) <= RetryableCount(rows)
    decreases |rows| - k
  {
    if k < |rows| { RetryableCounted(rows, k + 1); }
    RetryablePositive(rows, k);
  }

  lemma {:induction false} RetryablePositive(rows: seq<Target>, k: nat)
    requires k <= |rows|
    ensures RetryableBefore(rows, k) > 0 <==> exists i :: 0 <= i < k && Retryable(rows[i].status)
  {
    if k > 0 { RetryablePositive(rows, k - 1); }
  }

  lemma NothingRetried(rows: seq<Target>, nextId: nat)
    requires !SomeStatus(rows, Retryable)
    ensures RetriedRows(rows, nextId) == rows
  {
    assert forall k :: 0 <= k < |rows| ==> rows[k] in rows;
  }

  // ---- the calls -----------------------------------------------------------------------------------------

  /** The engine as seen from one batch. */
  class Engine {
    var rows: seq<Target>
    var status: BatchStatus
    var summary: Summary
    var nextId: nat
    var queued: nat

    function View(): Db
      reads this
    {
      Db(rows, status, summary, nextId)
    }

    /** Creates the batch from what the expander resolved; `started` says whether the worker runs. */
    constructor (raw: seq<Expanded>, firstId: nat, started: bool)
      ensures rows == NewRows(raw, firstId + 1) && status == BatchPending && summary == SummaryOf(rows)
      ensures nextId == firstId + 1 + |rows| && queued == if started then 1 else 0
    {
      rows, status, nextId, queued := [], BatchPending, firstId + 1, 0;
      summary := Summary(0, 0, 0, 0, 0, 0, 0);
      new;
      for i := 0 to |raw|
        invariant rows == NewRows(raw[..i], firstId + 1) && nextId == firstId + 1 + |rows|
        invariant status == BatchPending && queued == 0
      {
        assert raw[..i + 1][..i] == raw[..i];
        if NonZero(raw[i]) {
          rows := rows + [NewRow(raw[i], nextId)];
          nextId := nextId + 1;
        }
      }
      assert raw[..|raw|] == raw;
      summary := CountSummary(rows);
      queued := if started then 1 else 0;
    }

    /** Gives every definite failure a new operation; an error if there is none. */
    method RetryFailed() returns (ok: bool)
      modifies this
      ensures ok <==> SomeStatus(old(rows), Retryable)
      ensures View() == if ok then Retry(old(View())) else old(View())
      ensures queued == old(queued) + if ok then 1 else 0
    {
      var before, first, n := rows, nextId, 0;
      for i := 0 to |before|
        invariant |rows| == |before|
        invariant forall k :: 0 <= k < i ==> rows[k] == RetriedRow(before, k, first)
        invariant forall k :: i <= k < |before| ==> rows[k] == before[k]
        invariant n == RetryableBefore(before, i) && nextId == first + n
        invariant status == old(status) && summary == old(summary) && queued == old(queued)
      {
        if Retryable(before[i].status) {
          rows := rows[i := before[i].(op := nextId, status := Pending, error := "")];
          nextId := nextId + 1;
          n := n + 1;
        }
      }
      assert rows == RetriedRows(before, first);
      RetryablePositive(before, |before|);
      if n == 0 {
        NothingRetried(before, first);
        return false;
      }
      Requeue();
      return true;
    }

    /** Sets timed-out targets back to pending under their own operations; an error if there is none. */
    method ReplayTimeout() returns (ok: bool)
      modifies this
      ensures ok <==> exists t :: t in old(rows) && t.status == Timeout
      ensures View() == if ok then Replay(old(View())) else old(View())
      ensures queued == old(queued) + if ok then 1 else 0
    {
      var before, n := rows, 0;
      for i := 0 to |before|
        invariant |rows| == |before|
        invariant forall k :: 0 <= k < i ==> rows[k] == ReplayedRow(before[k])
        invariant forall k :: i <= k < |before| ==> rows[k] == before[k]
        invariant n >= 0 && (n == 0 <==> forall k :: 0 <= k < i ==> before[k].status != Timeout)
        invariant status == old(status) && summary == old(summary) && queued == old(queued) && nextId == old(nextId)
      {
        if before[i].status == Timeout {
          rows := rows[i := before[i].(status := Pending, error := "")];
          n := n + 1;
        }
      }
      assert rows == ReplayedRows(before);
      if n == 0 {
        assert rows == before;
        return false;
      }
      assert exists k :: 0 <= k < |before| && before[k].status == Timeout;
      Requeue();
      return true;
    }

    /** Counts, marks the batch running and enqueues it. */
    method Requeue()
      modifies this
      ensures rows == old(rows) && nextId == old(nextId)
      ensures status == BatchRunning && summary == SummaryOf(rows) && queued == old(queued) + 1
    {
      summary := CountSummary(rows);
      status := BatchRunning;
      queued := queued + 1;
    }

    /** Enqueues the batch if some target is incomplete. */
    method Resume()
      modifies this`queued
      ensures queued == old(queued) + if SomeStatus(rows, Incomplete) then 1 else 0
    {
      for i := 0 to |rows|
        invariant queued == old(queued) && forall k :: 0 <= k < i ==> !Incomplete(rows[k].status)
      {
        if Incomplete(rows[i].status) {
          assert rows[i] in rows;
          queued := queued + 1;
          return;
        }
      }
    }

    /** The end of a run: status and summary from the rows as they are. */
    method Finalize()
      modifies this
      ensures View() == Finalized(old(View())) && queued == old(queued)
    {
      status := Rollup(rows);
      summary := CountSummary(rows);
    }
  }

  // ---- creating a batch ----------------------------------------------------------------------------------

  datatype CreateError = BadOperator | BadType | EmptySelector | NoExpander | ExpandFailed | NoTargets

  /** A nil expander, an expansion that failed, or what it resolved. */
  datatype Expansion = Nil | Fails | Resolves(raw: seq<Expanded>)

  /** The first reason to refuse the request. */
  function Refusal(operatorGiven: bool, typeValid: bool, selectorEmpty: bool, expansion: Expansion): Option<CreateError> {
    if !operatorGiven then Some(BadOperator)
    else if !typeValid then Some(BadType)
    else if selectorEmpty then Some(EmptySelector)
    else if expansion.Nil? then Some(NoExpander)
    else if expansion.Fails? then Some(ExpandFailed)
    else if forall x :: x in expansion.raw ==> !NonZero(x) then Some(NoTargets)
    else None
  }

  lemma {:induction false} NoRows(raw: seq<Expanded>, firstOp: nat)
    ensures NewRows(raw, firstOp) == [] <==> forall x :: x in raw ==> !NonZero(x)
  {
    if raw != [] {
      NoRows(raw[..|raw| - 1], firstOp);
      assert raw == raw[..|raw| - 1] + [raw[|raw| - 1]];
    }
  }

  method FilterNonZero(raw: seq<Expanded>) returns (kept: seq<Expanded>)
    ensures kept == [] <==> forall x :: x in raw ==> !NonZero(x)
    ensures forall firstOp :: NewRows(kept, firstOp) == NewRows(raw, firstOp)
  {
    kept := [];
    for i := 0 to |raw|
      invariant kept == [] <==> forall x :: x in raw[..i] ==> !NonZero(x)
      invariant forall firstOp :: NewRows(kept, firstOp) == NewRows(raw[..i], firstOp)
    {
      assert raw[..i + 1] == raw[..i] + [raw[i]] && raw[..i + 1][..i] == raw[..i];
      if NonZero(raw[i]) {
        assert (kept + [raw[i]])[..|kept|] == kept;
        kept := kept + [raw[i]];
      }
    }
    assert raw[..|raw|] == raw;
  }

  /** Creates a batch, or says why not; a batch that is created has a target. */
  method CreateWithExpand(operatorGiven: bool, typeValid: bool, selectorEmpty: bool, expansion: Expansion, firstId: nat,
                          started: bool)
    returns (error: Option<CreateError>, engine: Engine?)
    ensures error == Refusal(operatorGiven, typeValid, selectorEmpty, expansion)
    ensures engine == null <==> error != None
    ensures error == None ==>
      && fresh(engine) && engine.View() == Db(NewRows(expansion.raw, firstId + 1), BatchPending,
                                              SummaryOf(engine.rows), firstId + 1 + |engine.rows|)
      && engine.rows != [] && engine.queued == if started then 1 else 0
  {
    if !operatorGiven { return Some(BadOperator), null; }
    if !typeValid { return Some(BadType), null; }
    if selectorEmpty { return Some(EmptySelector), null; }
    if expansion.Nil? { return Some(NoExpander), null; }
    if expansion.Fails? { return Some(ExpandFailed), null; }
    var targets := FilterNonZero(expansion.raw);
    if |targets| == 0 {
      return Some(NoTargets), null;
    }
    NoRows(expansion.raw, firstId + 1);
    engine := new Engine(targets, firstId, started);
    error := None;
  }
}
