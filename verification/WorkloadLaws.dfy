/** What versions say about content over whole runs of a source, and what a reordering of the processes does. */
module WorkloadLaws {
  import opened Workload
  import Sorting

  // ---- runs -----------------------------------------------------------------------------------------------

  function Start(): Live { Live(0, None, 0, 0, []) }

  function Run(digest: seq<Process> -> int, steps: seq<Step>): Live {
    if steps == [] then Start() else Observed(digest, Run(digest, steps[..|steps| - 1]), steps[|steps| - 1])
  }

  /** What the process plane answers at a time, or that it failed. */
  datatype Reading = Reading(processes: Option<seq<Process>>, now: int)

  /** The steps are what observing these readings at these times can do. */
  ghost predicate StepsOf(readings: seq<Reading>, steps: seq<Step>) {
    |steps| == |readings| && forall i :: 0 <= i < |readings| ==> StepOf(readings[i], steps[i])
  }

  ghost predicate StepOf(read: Reading, step: Step) {
    match read.processes
    case None => step == Unread
    case Some(ps) => step.Seen? && step.now == read.now && SortOf(step.sorted, ps)
  }

  method ObserveOne(source: LiveSource, read: Reading, ghost steps: seq<Step>) returns (ghost step: Step)
    requires source.Valid() && source.State() == Run(source.digest, steps)
    modifies source, source.buffer
    ensures source.Valid() && (source.buffer == old(source.buffer) || fresh(source.buffer))
    ensures source.State() == Run(source.digest, steps + [step]) && StepOf(read, step)
  {
    step := source.Observe(read.processes, read.now);
    assert (steps + [step])[..|steps|] == steps;
  }

  /** A source that makes any sequence of observations goes through such a run. */
  method Replay(digest: seq<Process> -> int, epoch: string, readings: seq<Reading>)
    returns (source: LiveSource, ghost steps: seq<Step>)
    ensures source.Valid() && StepsOf(readings, steps) && source.State() == Run(digest, steps)
  {
    source := new LiveSource(digest, epoch);
    steps := [];
    for i := 0 to |readings|
      invariant fresh(source) && fresh(source.buffer) && source.Valid() && source.digest == digest
      invariant StepsOf(readings[..i], steps) && source.State() == Run(digest, steps)
    {
      var step := ObserveOne(source, readings[i], steps);
      steps := steps + [step];
    }
    assert readings[..|readings|] == readings;
  }

  /** The contents seen along a run, in order. */
  function Contents(steps: seq<Step>): seq<seq<Process>> {
    if steps == [] then []
    else
      var init := Contents(steps[..|steps| - 1]);
      var last := steps[|steps| - 1];
      if last.Seen? then init + [Content(last.sorted)] else init
  }

  /** How many entries differ from the one before; the first always counts. */
  function Changes(cs: seq<seq<Process>>): nat {
    if |cs| == 0 then 0
    else if |cs| == 1 then 1
    else Changes(cs[..|cs| - 1]) + if cs[|cs| - 1] == cs[|cs| - 2] then 0 else 1
  }

  lemma StampKeepsContent(s: seq<Process>, now: int)
    ensures Content(Stamped(s, now)) == Content(s)
  {
    assert forall i :: 0 <= i < |s| ==> Content(Stamped(s, now))[i] == Content(s)[i];
  }

  function Last(cs: seq<seq<Process>>): seq<Process>
    requires cs != []
  {
    cs[|cs| - 1]
  }

  /** What is published is the last content seen. */
  lemma {:induction false} RunContent(digest: seq<Process> -> int, steps: seq<Step>)
    ensures Contents(steps) == [] ==> Run(digest, steps).known == None && Run(digest, steps).processes == []
    ensures Contents(steps) != [] ==> Run(digest, steps).known == Some(digest(Last(Contents(steps))))
    ensures Contents(steps) != [] ==> Content(Run(digest, steps).processes) == Last(Contents(steps))
  {
    if steps != [] {
      var init, last := steps[..|steps| - 1], steps[|steps| - 1];
      RunContent(digest, init);
      if last.Seen? {
        StampKeepsContent(last.sorted, last.now);
      }
    }
  }

  lemma ChangesAppend(cs: seq<seq<Process>>, c: seq<Process>)
    ensures Changes(cs + [c]) == Changes(cs) + if cs != [] && c == Last(cs) then 0 else 1
  {
    assert (cs + [c])[..|cs|] == cs;
  }

  /** The version counts the changes of content and the observation number the successful reads, both modulo
      2^64. */
  lemma {:induction false} RunCounts(digest: seq<Process> -> int, steps: seq<Step>)
    requires Injective(digest)
    ensures Run(digest, steps).version == Changes(Contents(steps)) % WORD
    ensures Run(digest, steps).observations == |Contents(steps)| % WORD
  {
    if steps != [] {
      var init, last := steps[..|steps| - 1], steps[|steps| - 1];
      RunCounts(digest, init);
      RunContent(digest, init);
      if last.Seen? {
        ChangesAppend(Contents(init), Content(last.sorted));
        NextModulo(Changes(Contents(init)));
        NextModulo(|Contents(init)|);
      }
    }
  }

  lemma NextModulo(a: nat)
    ensures NextWord(a % WORD) == (a + 1) % WORD
  {
  }

  lemma {:induction false} ContentsGrow(early: seq<Step>, late: seq<Step>)
    requires early <= late
    ensures Contents(early) <= Contents(late)
    decreases |late|
  {
    if early != late {
      ContentsGrow(early, late[..|late| - 1]);
    }
  }

  lemma {:induction false} ChangesGrow(a: seq<seq<Process>>, b: seq<seq<Process>>)
    requires a <= b
    ensures Changes(a) <= Changes(b)
    ensures Changes(a) == Changes(b) ==> SameLast(a, b)
    decreases |b|
  {
    if a != b {
      ChangesGrow(a, b[..|b| - 1]);
    }
  }

  predicate SameLast(a: seq<seq<Process>>, b: seq<seq<Process>>) {
    if a == [] then b == [] else b != [] && Last(a) == Last(b)
  }

  /** How often the content changed over a run. */
  function Versions(steps: seq<Step>): nat { Changes(Contents(steps)) }

  lemma VersionsGrow(early: seq<Step>, late: seq<Step>)
    requires early <= late
    ensures Versions(early) <= Versions(late)
    ensures Versions(early) == Versions(late) ==> SameLast(Contents(early), Contents(late))
  {
    ContentsGrow(early, late);
    ChangesGrow(Contents(early), Contents(late));
  }

  /** Two summaries of one run carry the same version exactly when the number of changes between them is a
      multiple of 2^64. */
  lemma VersionsMeet(digest: seq<Process> -> int, early: seq<Step>, late: seq<Step>)
    requires Injective(digest) && early <= late
    ensures Run(digest, early).version == Run(digest, late).version <==>
            (Versions(late) - Versions(early)) % WORD == 0
  {
    VersionsGrow(early, late);
    VersionIsCount(digest, early);
    VersionIsCount(digest, late);
    ModuloDifference(Versions(early), Versions(late));
  }

  lemma VersionIsCount(digest: seq<Process> -> int, steps: seq<Step>)
    requires Injective(digest)
    ensures Run(digest, steps).version == Versions(steps) % WORD
  {
    RunCounts(digest, steps);
  }

  lemma NoChangeSameContent(digest: seq<Process> -> int, early: seq<Step>, late: seq<Step>)
    requires early <= late && Versions(early) == Versions(late)
    ensures Content(Run(digest, early).processes) == Content(Run(digest, late).processes)
  {
    VersionsGrow(early, late);
    RunContent(digest, early);
    RunContent(digest, late);
  }

  /** With fewer than 2^64 changes between them, summaries of equal version have equal content. */
  lemma EqualVersionEqualContent(digest: seq<Process> -> int, early: seq<Step>, late: seq<Step>)
    requires Injective(digest) && early <= late
    requires Versions(late) - Versions(early) < WORD
    requires Run(digest, early).version == Run(digest, late).version
    ensures Content(Run(digest, early).processes) == Content(Run(digest, late).processes)
  {
    VersionsMeet(digest, early, late);
    VersionsAreApart(early, late);
    NoChangeSameContent(digest, early, late);
  }

  lemma VersionsAreApart(early: seq<Step>, late: seq<Step>)
    requires early <= late && Versions(late) - Versions(early) < WORD
    requires (Versions(late) - Versions(early)) % WORD == 0
    ensures Versions(early) == Versions(late)
  {
    VersionsGrow(early, late);
  }

  lemma ModuloDifference(a: nat, b: nat)
    requires a <= b
    ensures a % WORD == b % WORD <==> (b - a) % WORD == 0
  {
  }

  // ---- the wrap -------------------------------------------------------------------------------------------

  function Revision(k: int): Process { Process("p", "p", "", "", "", "", k, 0, 0) }

  /** A run whose one process has a new revision at every observation. */
  function Deploys(n: nat): seq<Step> {
    seq(n, k requires 0 <= k < n => Seen([Revision(k)], 0))
  }

  lemma {:induction false} DeploysChange(n: nat)
    ensures |Contents(Deploys(n))| == n && Changes(Contents(Deploys(n))) == n
    ensures n > 0 ==> Contents(Deploys(n))[n - 1] == [Revision(n - 1)]
  {
    if n > 0 {
      DeploysChange(n - 1);
      assert Deploys(n)[..n - 1] == Deploys(n - 1);
      assert Content([Revision(n - 1)]) == [Revision(n - 1)];
      assert Contents(Deploys(n)) == Contents(Deploys(n - 1)) + [[Revision(n - 1)]];
      assert Contents(Deploys(n))[..n - 1] == Contents(Deploys(n - 1));
      if n > 1 {
        assert [Revision(n - 1)][0] != [Revision(n - 2)][0];
      }
    }
  }

  /** After 2^64 changes the version comes round again with other content. */
  lemma VersionWraps(digest: seq<Process> -> int)
    requires Injective(digest)
    ensures Run(digest, Deploys(1)).version == Run(digest, Deploys(1 + WORD)).version
    ensures Content(Run(digest, Deploys(1)).processes) != Content(Run(digest, Deploys(1 + WORD)).processes)
  {
    DeploysChange(1);
    DeploysChange(1 + WORD);
    RunCounts(digest, Deploys(1));
    RunCounts(digest, Deploys(1 + WORD));
    RunContent(digest, Deploys(1));
    RunContent(digest, Deploys(1 + WORD));
    assert [Revision(0)][0] != [Revision(WORD)][0];
  }

  // ---- reordering -----------------------------------------------------------------------------------------

  /** Processes that the sort cannot tell apart carry the same content. */
  ghost predicate KeysDecideContent(s: seq<Process>) {
    forall p, q :: p in s && q in s && SameKey(p, q) ==> Unstamped(p) == Unstamped(q)
  }

  /** Processes with the same key are the same. */
  ghost predicate KeysIdentify(s: seq<Process>) {
    forall p, q :: p in s && q in s && SameKey(p, q) ==> p == q
  }

  lemma KeysIdentifyContent(ps: seq<Process>, a: seq<Process>)
    requires KeysDecideContent(ps) && multiset(a) == multiset(ps)
    ensures KeysIdentify(Content(a))
  {
    forall p, q | p in Content(a) && q in Content(a) && SameKey(p, q) ensures p == q {
      var i :| 0 <= i < |a| && Content(a)[i] == p;
      var j :| 0 <= j < |a| && Content(a)[j] == q;
      assert a[i] in multiset(ps) && a[j] in multiset(ps);
    }
  }

  lemma {:induction false} ContentPermutes(a: seq<Process>, b: seq<Process>)
    requires multiset(a) == multiset(b)
    ensures multiset(Content(a)) == multiset(Content(b))
  {
    if a == [] {
      assert b == [] by { assert |multiset(b)| == |b|; }
    } else {
      var k := Sorting.MatchFirst(a, b);
      var rest := b[..k] + b[k + 1..];
      ContentPermutes(a[1..], rest);
      assert Content(a) == [Unstamped(a[0])] + Content(a[1..]);
      assert Content(rest) == Content(b[..k]) + Content(b[k + 1..]);
      assert Content(b) == Content(b[..k]) + [Unstamped(b[k])] + Content(b[k + 1..]);
    }
  }

  lemma HeadsMatch(a: seq<Process>, b: seq<Process>)
    requires a != [] && b != [] && Sorted(a) && Sorted(b) && multiset(a) == multiset(b)
    ensures SameKey(a[0], b[0]) && b[0] in a
  {
    assert a[0] in multiset(b) && b[0] in multiset(a);
    var i :| 0 <= i < |b| && b[i] == a[0];
    var j :| 0 <= j < |a| && a[j] == b[0];
    KeyOrder(a[0], b[0]);
  }

  lemma {:induction false} SortedUnique(a: seq<Process>, b: seq<Process>)
    requires Sorted(a) && Sorted(b) && multiset(a) == multiset(b)
    requires KeysIdentify(a)
    ensures a == b
  {
    assert |a| == |multiset(a)| == |multiset(b)| == |b|;
    if a != [] {
      HeadsMatch(a, b);
      TailsMatch(a, b);
      SortedUnique(a[1..], b[1..]);
      assert a == [a[0]] + a[1..] && b == [b[0]] + b[1..];
    }
  }

  lemma TailsMatch(a: seq<Process>, b: seq<Process>)
    requires a != [] && b != [] && a[0] == b[0] && multiset(a) == multiset(b)
    ensures multiset(a[1..]) == multiset(b[1..])
  {
    assert a == [a[0]] + a[1..] && b == [b[0]] + b[1..];
    assert multiset(a[1..]) == multiset(a) - multiset{a[0]} == multiset(b[1..]);
  }

  lemma ContentSorted(a: seq<Process>)
    requires Sorted(a)
    ensures Sorted(Content(a))
  {
  }

  /** Any two sorts of two readings with the same content agree up to stamps, when keys decide content. */
  lemma SortsAgree(ps: seq<Process>, qs: seq<Process>, a: seq<Process>, b: seq<Process>)
    requires KeysDecideContent(ps) && SortOf(a, ps) && SortOf(b, qs)
    ensures Content(a) == Content(b) <==> multiset(Content(ps)) == multiset(Content(qs))
  {
    ContentPermutes(a, ps);
    ContentPermutes(b, qs);
    if multiset(Content(ps)) == multiset(Content(qs)) {
      ContentSorted(a);
      ContentSorted(b);
      KeysIdentifyContent(ps, a);
      SortedUnique(Content(a), Content(b));
    }
  }

  /** After a reading ps, the next reading bumps the version exactly when it is not a rearrangement of the
      same content. */
  lemma ReorderingKeepsVersion(digest: seq<Process> -> int, s: Live, ps: seq<Process>, qs: seq<Process>,
                               first: Step, second: Step)
    requires Injective(digest) && s.version < WORD && KeysDecideContent(ps)
    requires first.Seen? && second.Seen? && SortOf(first.sorted, ps) && SortOf(second.sorted, qs)
    ensures
      var t := Observed(digest, s, first);
      Observed(digest, t, second).version == t.version <==> multiset(Content(ps)) == multiset(Content(qs))
  {
    SortsAgree(ps, qs, first.sorted, second.sorted);
  }

  /** The condition is exact: the sort fixes the content of a reading whatever it does with equal keys if and
      only if equal keys carry equal content. Otherwise the order the source happened to use shows through. */
  lemma SortFixesContent(ps: seq<Process>, a: seq<Process>)
    requires SortOf(a, ps)
    ensures KeysDecideContent(ps) <==> forall b :: SortOf(b, ps) ==> Content(b) == Content(a)
  {
    if KeysDecideContent(ps) {
      forall b | SortOf(b, ps) ensures Content(b) == Content(a) {
        SortsAgree(ps, ps, b, a);
      }
    } else {
      var p, q :| p in ps && q in ps && SameKey(p, q) && Unstamped(p) != Unstamped(q);
      assert p in multiset(a) && q in multiset(a);
      var i :| 0 <= i < |a| && a[i] == p;
      var j :| 0 <= j < |a| && a[j] == q;
      SwapKeepsSort(a, i, j);
      var b := a[i := a[j]][j := a[i]];
      assert SortOf(b, ps) && Content(b)[i] != Content(a)[i];
    }
  }

  lemma SwapKeepsSort(a: seq<Process>, i: nat, j: nat)
    requires Sorted(a) && i < |a| && j < |a| && SameKey(a[i], a[j])
    ensures SortOf(a[i := a[j]][j := a[i]], a)
  {
    var b := a[i := a[j]][j := a[i]];
    forall x, y | 0 <= x < y < |b| ensures !KeyLess(b[y], b[x]) {
      assert SameKey(b[x], a[x]) && SameKey(b[y], a[y]);
    }
  }
}
