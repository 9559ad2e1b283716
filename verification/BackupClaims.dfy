/** The replicated ledger behind scheduled backups: which leader, in which term, may drive a run.

  A state holds the fires of the schedule, the runs, the term each run is fenced by, and one task per run
  and node. Commands are applied one after another in log order; the clock a command carries is its
  sender's and nothing relates the clocks of two commands. Whether a policy accepts a new run (it exists,
  at that revision, with those targets) is part of the command. Runs are created running and finished with a
  terminal status. Hashes of fire keys are injective.
*/
module BackupClaims {

  const DAY: int := 24 * 60 * 60
  const DEFAULT_LEASE: int := 120

  datatype FireKey = FireKey(policy: string, fire: int)

  datatype RunId = Scheduled(key: FireKey) | Manual(op: string)

  /** Failed stands for every unsuccessful terminal status; all of them may be retried. */
  datatype TaskStatus = Pending | InProgress | Succeeded | Failed

  datatype Task = Task(status: TaskStatus, term: nat)

  datatype Run = Run(policy: string, targets: seq<string>, ended: bool, lease: int)

  datatype Fire = Fire(runId: RunId, term: nat, lease: int, ended: bool)

  datatype State = State(ledger: map<FireKey, Fire>, runs: map<RunId, Run>, terms: map<RunId, nat>,
                         tasks: map<(RunId, string), Task>)

  datatype Command =
    | ClaimScheduled(key: FireKey, targets: seq<string>, term: nat, now: int, lease: int, accepted: bool)
    | ClaimRun(run: RunId, term: nat, now: int, lease: int)
    | UpdateTask(run: RunId, node: string, status: TaskStatus, term: nat)
    | Retry(run: RunId, term: nat, now: int, lease: int)
    | Create(op: string, policy: string, targets: seq<string>, term: nat, lease: int, accepted: bool)
    | Finish(run: RunId, term: nat)

  predicate Terminal(status: TaskStatus) { status == Succeeded || status == Failed }

  predicate ValidLease(now: int, lease: int) { now < lease <= now + DAY }

  function EffectiveLease(now: int, lease: int): int { if lease == 0 then now + DEFAULT_LEASE else lease }

  function TermOf(s: State, run: RunId): nat { if run in s.terms then s.terms[run] else 0 }

  function Max(a: nat, b: nat): nat { if a < b then b else a }

  /** The run a command may acquire or touch. */
  function RunOf(cmd: Command): RunId {
    match cmd
    case ClaimScheduled(key, _, _, _, _, _) => Scheduled(key)
    case ClaimRun(run, _, _, _) => run
    case UpdateTask(run, _, _, _) => run
    case Retry(run, _, _, _) => run
    case Create(op, _, _, _, _, _) => Manual(op)
    case Finish(run, _) => run
  }

  // ---- who acquires ---------------------------------------------------------------------------------------

  /** The first claim of a fire, which creates its run. A run that is there without its fire must be the one
      the claim would create, lease and all. */
  predicate Opens(s: State, cmd: Command) {
    cmd.ClaimScheduled? && cmd.key !in s.ledger && cmd.accepted && cmd.term > 0 &&
    ValidLease(cmd.now, EffectiveLease(cmd.now, cmd.lease)) &&
    (Scheduled(cmd.key) in s.runs ==> s.runs[Scheduled(cmd.key)] == Run(cmd.key.policy, cmd.targets, false, cmd.lease))
  }

  /** A claim of a known fire whose run is not over, by a newer term, after the lease. */
  predicate TakesOver(s: State, cmd: Command) {
    cmd.ClaimScheduled? && cmd.key in s.ledger &&
    var f := s.ledger[cmd.key];
    f.runId in s.runs && !s.runs[f.runId].ended && f.lease <= cmd.now && f.term < cmd.term &&
    (cmd.lease == 0 || ValidLease(cmd.now, cmd.lease)) && !(f.lease == 0 && !f.ended)
  }

  /** A recovering leader's claim of a run. */
  predicate Recovers(s: State, cmd: Command) {
    cmd.ClaimRun? && cmd.run in s.runs && cmd.term > 0 && cmd.now > 0 && ValidLease(cmd.now, cmd.lease) &&
    !s.runs[cmd.run].ended && s.runs[cmd.run].lease <= cmd.now && TermOf(s, cmd.run) < cmd.term
  }

  predicate Creates(s: State, cmd: Command) {
    cmd.Create? && cmd.accepted && cmd.term > 0 && Manual(cmd.op) !in s.runs
  }

  /** The command makes its sender's term the run's owner. */
  predicate Acquires(s: State, cmd: Command) {
    Opens(s, cmd) || TakesOver(s, cmd) || Recovers(s, cmd) || Creates(s, cmd)
  }

  // ---- the transition -------------------------------------------------------------------------------------

  /** Keeps the fires of a run in step with it. */
  function Synced(ledger: map<FireKey, Fire>, run: RunId, term: nat, lease: int, ended: bool): map<FireKey, Fire> {
    map k | k in ledger :: if ledger[k].runId == run then Fire(run, Max(ledger[k].term, term), lease, ended) else ledger[k]
  }

  predicate Over(run: Run, id: RunId, tasks: map<(RunId, string), Task>) {
    run.ended || (run.targets != [] && forall n :: n in run.targets ==> (id, n) in tasks && Terminal(tasks[(id, n)].status))
  }

  predicate Accepts(s: State, cmd: Command)
    requires cmd.UpdateTask?
  {
    cmd.term > 0 && TermOf(s, cmd.run) <= cmd.term && cmd.run in s.runs &&
    ((cmd.run, cmd.node) in s.tasks ==>
      (s.tasks[(cmd.run, cmd.node)].term <= cmd.term && !Terminal(s.tasks[(cmd.run, cmd.node)].status)))
  }

  /** A run that is not over may be finished by a term that neither the run nor a task of it is ahead of. */
  predicate Finishes(s: State, cmd: Command)
    requires cmd.Finish?
  {
    cmd.term > 0 && cmd.run in s.runs && TermOf(s, cmd.run) <= cmd.term && !s.runs[cmd.run].ended &&
    forall k :: k in s.tasks && k.0 == cmd.run ==> s.tasks[k].term <= cmd.term
  }

  predicate Retries(s: State, cmd: Command)
    requires cmd.Retry?
  {
    cmd.term > 0 && (cmd.lease == 0 || (cmd.now > 0 && ValidLease(cmd.now, cmd.lease))) && cmd.run in s.runs &&
    TermOf(s, cmd.run) <= cmd.term
  }

  predicate SomeFailed(s: State, run: RunId) {
    exists k :: k in s.tasks && k.0 == run && s.tasks[k].status == Failed
  }

  function Updated(s: State, cmd: Command): State
    requires cmd.UpdateTask? && Accepts(s, cmd)
  {
    var tasks := s.tasks[(cmd.run, cmd.node) := Task(cmd.status, cmd.term)];
    var run := s.runs[cmd.run].(ended := Over(s.runs[cmd.run], cmd.run, tasks));
    State(if run.ended then Synced(s.ledger, cmd.run, cmd.term, 0, true) else s.ledger, s.runs[cmd.run := run],
          s.terms[cmd.run := Max(TermOf(s, cmd.run), cmd.term)], tasks)
  }

  function Retried(s: State, cmd: Command): State
    requires cmd.Retry? && Retries(s, cmd)
  {
    var terms := s.terms[cmd.run := Max(TermOf(s, cmd.run), cmd.term)];
    if !SomeFailed(s, cmd.run) then s.(terms := terms)
    else
      var run := s.runs[cmd.run].(ended := false, lease := if cmd.lease != 0 then cmd.lease else s.runs[cmd.run].lease);
      State(Synced(s.ledger, cmd.run, cmd.term, run.lease, false), s.runs[cmd.run := run], terms,
            map k | k in s.tasks ::
              if k.0 == cmd.run && s.tasks[k].status == Failed then Task(Pending, cmd.term) else s.tasks[k])
  }

  function FinishedBy(s: State, cmd: Command): State
    requires cmd.Finish? && Finishes(s, cmd)
  {
    s.(ledger := Synced(s.ledger, cmd.run, cmd.term, 0, true),
       runs := s.runs[cmd.run := s.runs[cmd.run].(ended := true)],
       terms := s.terms[cmd.run := Max(TermOf(s, cmd.run), cmd.term)])
  }

  function Apply(s: State, cmd: Command): State {
    match cmd
    case ClaimScheduled(key, targets, term, now, lease, _) =>
      var until := EffectiveLease(now, lease);
      if TakesOver(s, cmd) then
        var f := s.ledger[key];
        s.(ledger := s.ledger[key := Fire(f.runId, term, until, false)],
           runs := s.runs[f.runId := s.runs[f.runId].(lease := until)],
           terms := s.terms[f.runId := term])
      else if Opens(s, cmd) then
        s.(ledger := s.ledger[key := Fire(Scheduled(key), term, until, false)],
           runs := s.runs[Scheduled(key) := Run(key.policy, targets, false, until)],
           terms := s.terms[Scheduled(key) := term])
      else s
    case ClaimRun(run, term, _, lease) =>
      if Recovers(s, cmd) then
        s.(ledger := Synced(s.ledger, run, term, lease, false),
           runs := s.runs[run := s.runs[run].(lease := lease)],
           terms := s.terms[run := term])
      else s
    case UpdateTask(_, _, _, _) => if Accepts(s, cmd) then Updated(s, cmd) else s
    case Retry(_, _, _, _) => if Retries(s, cmd) then Retried(s, cmd) else s
    case Create(op, policy, targets, term, lease, _) =>
      if Creates(s, cmd) then
        s.(runs := s.runs[Manual(op) := Run(policy, targets, false, lease)], terms := s.terms[Manual(op) := term])
      else s
    case Finish(_, _) => if Finishes(s, cmd) then FinishedBy(s, cmd) else s
  }

  function Empty(): State { State(map[], map[], map[], map[]) }

  function After(log: seq<Command>): State {
    if log == [] then Empty() else Apply(After(log[..|log| - 1]), log[|log| - 1])
  }

  /** Entry i of the log made its sender's term the owner of the run. */
  predicate AcquiredAt(log: seq<Command>, i: nat, run: RunId) {
    i < |log| && Acquires(After(log[..i]), log[i]) && RunOf(log[i]) == run
  }
}
