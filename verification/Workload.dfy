/** An agent's workload summary: the versioned observation of its processes that peers compare by
    (epoch, version) before they fetch it. */
module Workload {
  import opened StringOrder

  const WORD: nat := 0x1_0000_0000_0000_0000

  datatype Option<T> = None | Some(value: T)

  datatype Process = Process(id: string, name: string, group: string, desired: string, observed: string,
                             health: string, latestRevision: int, activeRevision: int, freshness: int)

  /** What a source remembers: the hash of the last content it saw, if any, and what it would publish. */
  datatype Live = Live(version: nat, known: Option<int>, observations: nat, verified: int, processes: seq<Process>)

  /** What a summary says about the workload; the list is an array of its own. */
  datatype Summary = Summary(epoch: string, syncVersion: nat, version: nat, observations: nat, verified: int,
                             processes: array<Process>)

  /** Peers synchronise only with a source that has an epoch and a version. */
  function SyncVersion(epoch: string, version: nat): nat { if epoch == "" || version == 0 then 0 else 1 }

  /** One call of observe: the read failed, or it returned processes, here in the order the sort left them. */
  datatype Step = Unread | Seen(sorted: seq<Process>, now: int)

  // ---- order and content ----------------------------------------------------------------------------------

  predicate KeyLess(a: Process, b: Process) {
    if a.id != b.id then StrLess(a.id, b.id) else StrLess(a.name, b.name)
  }

  predicate SameKey(a: Process, b: Process) { a.id == b.id && a.name == b.name }

  ghost predicate Sorted(s: seq<Process>) {
    forall i, j :: 0 <= i < j < |s| ==> !KeyLess(s[j], s[i])
  }

  /** What sort.Slice promises: sorted by (process id, name), nothing about equal keys. */
  ghost predicate SortOf(r: seq<Process>, s: seq<Process>) {
    Sorted(r) && multiset(r) == multiset(s)
  }

  function Unstamped(p: Process): Process { p.(freshness := 0) }

  /** The content of a list: everything but the freshness stamps. */
  function Content(s: seq<Process>): seq<Process> {
    seq(|s|, i requires 0 <= i < |s| => Unstamped(s[i]))
  }

  function Stamped(s: seq<Process>, now: int): seq<Process> {
    seq(|s|, i requires 0 <= i < |s| => s[i].(freshness := now))
  }

  ghost predicate Injective(digest: seq<Process> -> int) {
    forall a, b :: digest(a) == digest(b) ==> a == b
  }

  lemma KeyOrder(a: Process, b: Process)
    ensures !(KeyLess(a, b) && KeyLess(b, a))
    ensures KeyLess(a, b) || KeyLess(b, a) || SameKey(a, b)
    ensures SameKey(a, b) ==> !KeyLess(a, b)
  {
    StrLessIsOrder();
  }

  lemma NotLessTransitive(a: Process, b: Process, c: Process)
    requires !KeyLess(a, b) && !KeyLess(b, c)
    ensures !KeyLess(a, c)
  {
    StrLessIsOrder();
  }

  lemma InsertKeepsSorted(r: seq<Process>, x: Process, k: nat)
    requires Sorted(r) && k <= |r|
    requires forall j :: k <= j < |r| ==> KeyLess(x, r[j])
    requires k > 0 ==> !KeyLess(x, r[k - 1])
    ensures Sorted(r[..k] + [x] + r[k..])
  {
    var s := r[..k] + [x] + r[k..];
    forall i, j | 0 <= i < j < |s| ensures !KeyLess(s[j], s[i]) {
      if j == k && i < k - 1 {
        NotLessTransitive(x, r[k - 1], r[i]);
      }
      if i == k {
        KeyOrder(x, s[j]);
      }
    }
  }

  method SortSlice(ps: seq<Process>) returns (r: seq<Process>)
    ensures SortOf(r, ps)
  {
    r := [];
    for i := 0 to |ps|
      invariant SortOf(r, ps[..i])
    {
      var k := |r|;
      while k > 0 && KeyLess(ps[i], r[k - 1])
        invariant 0 <= k <= |r| && forall j :: k <= j < |r| ==> KeyLess(ps[i], r[j])
      {
        k := k - 1;
      }
      InsertKeepsSorted(r, ps[i], k);
      assert r == r[..k] + r[k..] && ps[..i + 1] == ps[..i] + [ps[i]];
      r := r[..k] + [ps[i]] + r[k..];
    }
    assert ps[..|ps|] == ps;
  }

  method WorkloadContentHash(digest: seq<Process> -> int, processes: seq<Process>) returns (hash: int)
    ensures hash == digest(Content(processes))
  {
    var content := processes;
    for i := 0 to |content|
      invariant |content| == |processes|
      invariant forall j :: 0 <= j < i ==> content[j] == Unstamped(processes[j])
      invariant forall j :: i <= j < |content| ==> content[j] == processes[j]
    {
      content := content[i := content[i].(freshness := 0)];
    }
    assert content == Content(processes);
    return digest(content);
  }

  // ---- one observation ------------------------------------------------------------------------------------

  /** The step of one observation. Counters are 64-bit words. */
  function Observed(digest: seq<Process> -> int, s: Live, step: Step): Live {
    match step
    case Unread => s
    case Seen(sorted, now) =>
      var hash := digest(Content(sorted));
      Live(if s.known == Some(hash) then s.version else NextWord(s.version),
           Some(hash), NextWord(s.observations), now, Stamped(sorted, now))
  }

  /** One more, in 64 bits. */
  function NextWord(n: nat): nat { if n == WORD - 1 then 0 else n + 1 }

  class LiveSource {
    const digest: seq<Process> -> int
    const epoch: string
    var version: nat
    var hash: int
    var hashSet: bool
    var observationSeq: nat
    var verified: int
    /** The reused slice: its backing array and its length. */
    var buffer: array<Process>
    var length: nat

    ghost predicate Valid()
      reads this
    {
      length <= buffer.Length
    }

    ghost function State(): Live
      requires Valid()
      reads this, buffer
    {
      Live(version, if hashSet then Some(hash) else None, observationSeq, verified, buffer[..length])
    }

    constructor (digest: seq<Process> -> int, epoch: string)
      ensures Valid() && fresh(buffer)
      ensures this.digest == digest && this.epoch == epoch
      ensures State() == Live(0, None, 0, 0, [])
    {
      this.digest, this.epoch := digest, epoch;
      version, hash, hashSet, observationSeq, verified := 0, 0, false, 0, 0;
      buffer, length := new Process[0], 0;
    }

    /** append(processes[:0], ps...): reuses the backing array when it is large enough. */
    method Refill(ps: seq<Process>)
      requires Valid()
      modifies this`buffer, this`length, buffer
      ensures Valid() && buffer[..length] == ps
      ensures buffer == old(buffer) || fresh(buffer)
    {
      if |ps| > buffer.Length {
        buffer := new Process[|ps|](i requires 0 <= i < |ps| => ps[i]);
      } else {
        for i := 0 to |ps|
          invariant forall j :: 0 <= j < i ==> buffer[j] == ps[j]
          modifies buffer
        {
          buffer[i] := ps[i];
        }
      }
      length := |ps|;
    }

    /** Reads, sorts, compares hashes and restamps; a failed read changes nothing. */
    method Observe(read: Option<seq<Process>>, now: int) returns (ghost step: Step)
      requires Valid()
      modifies this, buffer
      ensures Valid() && (buffer == old(buffer) || fresh(buffer))
      ensures State() == Observed(digest, old(State()), step)
      ensures match read
              case None => step == Unread
              case Some(ps) => step.Seen? && step.now == now && SortOf(step.sorted, ps)
    {
      if read == None {
        return Unread;
      }
      var processes := SortSlice(read.value);
      step := Seen(processes, now);
      ghost var sorted := processes;
      var h := WorkloadContentHash(digest, processes);
      if !hashSet || h != hash {
        version := NextWord(version);
        hash := h;
        hashSet := true;
      }
      observationSeq := NextWord(observationSeq);
      verified := now;
      for i := 0 to |processes|
        invariant |processes| == |sorted|
        invariant forall j :: 0 <= j < i ==> processes[j] == sorted[j].(freshness := now)
        invariant forall j :: i <= j < |sorted| ==> processes[j] == sorted[j]
      {
        processes := processes[i := processes[i].(freshness := now)];
      }
      assert processes == Stamped(sorted, now);
      Refill(processes);
    }

    /** A summary observes first and hands out its own copy of the list, so that a later observation,
        which writes only this object and its buffer, leaves it alone. */
    method Snapshot(read: Option<seq<Process>>, now: int) returns (summary: Summary, ghost step: Step)
      requires Valid()
      modifies this, buffer
      ensures Valid() && (buffer == old(buffer) || fresh(buffer))
      ensures State() == Observed(digest, old(State()), step)
      ensures match read
              case None => step == Unread
              case Some(ps) => step.Seen? && step.now == now && SortOf(step.sorted, ps)
      ensures fresh(summary.processes) && summary.processes != buffer && summary.processes[..] == State().processes
      ensures summary == Summary(epoch, SyncVersion(epoch, State().version), State().version, State().observations,
                                 State().verified, summary.processes)
    {
      step := Observe(read, now);
      var processes := new Process[length](i requires 0 <= i < length <= buffer.Length reads this, buffer => buffer[i]);
      assert processes[..] == buffer[..length];
      summary := Summary(epoch, SyncVersion(epoch, version), version, observationSeq, verified, processes);
    }
  }
}
