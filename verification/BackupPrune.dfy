/** What pruning run metadata does to the fences: logs in which old runs and fires are forgotten between the
    commands. */
module BackupPrune {
  import opened BackupClaims

  /** An entry of the log. A prune says which of the ended runs finished before its cutoff. */
  datatype Entry = Do(cmd: Command) | Prune(finished: set<RunId>, before: int)

  /** The prune removes the run: it is over and finished before the cutoff. */
  predicate DropsRun(s: State, e: Entry, run: RunId) {
    e.Prune? && run in s.runs && s.runs[run].ended && run in e.finished
  }

  /** The prune removes the fire: its lease is over, or its run was and the fire lies before the cutoff. */
  predicate DropsFire(s: State, e: Entry, key: FireKey) {
    e.Prune? && key in s.ledger &&
    var f := s.ledger[key];
    (f.lease > 0 && f.lease <= e.before) || (f.ended && key.fire < e.before)
  }

  function Pruned(s: State, e: Entry): State
    requires e.Prune?
  {
    State(map k | k in s.ledger && !DropsFire(s, e, k) :: s.ledger[k],
          map r | r in s.runs && !DropsRun(s, e, r) :: s.runs[r],
          map r | r in s.terms && !DropsRun(s, e, r) :: s.terms[r],
          map k | k in s.tasks && !DropsRun(s, e, k.0) :: s.tasks[k])
  }

  function Step(s: State, e: Entry): State { if e.Do? then Apply(s, e.cmd) else Pruned(s, e) }

  function Reached(log: seq<Entry>): State {
    if log == [] then Empty() else Step(Reached(log[..|log| - 1]), log[|log| - 1])
  }

  /** Entry i made its sender's term the owner of the run. */
  predicate OwnedAt(log: seq<Entry>, i: nat, run: RunId) {
    i < |log| && log[i].Do? && Acquires(Reached(log[..i]), log[i].cmd) && RunOf(log[i].cmd) == run
  }
}
