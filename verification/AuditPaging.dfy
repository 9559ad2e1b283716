/** The aggregated audit list: prefixes of every node's log are fetched in chunks, merged, sorted and sliced.

  A node's log is a sequence in the order its own store serves it. Nothing is assumed about that order:
  the store sorts by its timestamp column and then by row, the merge sorts by millisecond, source and
  audit id, and the two need not agree.
*/
module AuditPaging {
  import opened Sorting
  import opened StringOrder
  import opened Merging

  datatype Entry = Entry(ts: int, source: string, id: string, action: string)

  datatype PageResult = PageResult(entries: seq<Entry>, total: nat)

  const MAX_LIMIT := 200
  const MAX_PAGE := 100

  function NormalizeLimit(limit: int): int {
    if limit <= 0 then 50 else if limit > MAX_LIMIT then MAX_LIMIT else limit
  }

  function NormalizePage(page: int): int {
    if page <= 0 then 1 else if page > MAX_PAGE then MAX_PAGE else page
  }

  predicate EntryLess(a: Entry, b: Entry) {
    if a.ts != b.ts then a.ts > b.ts
    else if a.source != b.source then StrLess(a.source, b.source)
    else StrLess(a.id, b.id)
  }

  predicate HasMore(result: PageResult, offset: nat) { offset + |result.entries| < result.total }

  /** One page of a node's own log, as its own handler answers a forwarded request. */
  function HopNode(log: seq<Entry>, limit: int, page: int): PageResult {
    var l, p := NormalizeLimit(limit), NormalizePage(page);
    PageResult(SlicePage(log, (p - 1) * l, l), |log|)
  }

  lemma NextChunk(page: int, chunkSize: int)
    ensures (page + 1 - 1) * chunkSize == (page - 1) * chunkSize + chunkSize
    ensures page >= 100 && chunkSize == 200 ==> (page - 1) * chunkSize + chunkSize >= 20000
  {
  }

  /** The chunked fetch yields exactly the first `needed` entries of a log; its cap of 100 pages of 200
      would only show beyond 20000 entries. */
  method HopNodePrefix(log: seq<Entry>, needed: nat) returns (result: PageResult)
    ensures result.entries == Take(log, Min(needed, MAX_PAGE * MAX_LIMIT))
    ensures needed > 0 ==> result.total == |log|
  {
    var chunkSize := if needed > 200 then 200 else needed;
    var entries: seq<Entry> := [];
    var total := 0;
    var page := 1;
    ghost var got := 0;
    while |entries| < needed
      invariant 1 <= page <= MAX_PAGE && 0 <= got == (page - 1) * chunkSize
      invariant entries == Take(log, got)
      invariant page > 1 ==> |entries| == got && total == |log|
      invariant page == 1 ==> total == 0
      decreases MAX_PAGE - page
    {
      var chunk := HopNode(log, chunkSize, page);
      assert chunk.entries == SlicePage(log, got, chunkSize);
      NextChunk(page, chunkSize);
      NextWindow(log, got + chunkSize, got, chunkSize);
      entries := entries + chunk.entries;
      total := chunk.total;
      got := got + chunkSize;
      if |chunk.entries| < chunkSize || |entries| >= chunk.total || page >= 100 {
        break;
      }
      page := page + 1;
    }
    if |entries| > needed {
      entries := entries[..needed];
    }
    if total == 0 && |entries| > 0 {
      total := |entries|;
    }
    return PageResult(entries, total);
  }

  // ---- the merge -----------------------------------------------------------------------------------

  datatype MemberState = Alive | Suspect | Failed | Other

  /** reachable says whether the hops to the member succeed within their deadline. */
  datatype Member = Member(nodeID: string, state: MemberState, reachable: bool, log: seq<Entry>)

  function UnavailableEntry(m: Member, now: int): Entry { Entry(now, m.nodeID, "", "unavailable") }

  /** What a member contributes: its log, or the one-entry log that stands for an unreachable node. */
  function Contribution(m: Member, localID: string, now: int): seq<Entry> {
    if m.nodeID == "" || m.nodeID == localID || m.state.Other? then []
    else if m.state.Alive? && m.reachable then m.log
    else [UnavailableEntry(m, now)]
  }

  function Contributions(members: seq<Member>, localID: string, now: int): seq<seq<Entry>> {
    seq(|members|, i requires 0 <= i < |members| => Contribution(members[i], localID, now))
  }

  /** The first n entries of every log, one log after the other. */
  function Pool(logs: seq<seq<Entry>>, n: nat): seq<Entry> {
    if logs == [] then [] else Take(logs[0], n) + Pool(logs[1..], n)
  }

  function Everything(logs: seq<seq<Entry>>): seq<Entry> {
    if logs == [] then [] else logs[0] + Everything(logs[1..])
  }

  lemma {:induction false} PoolAppend(logs: seq<seq<Entry>>, log: seq<Entry>, n: nat)
    ensures multiset(Pool(logs + [log], n)) == multiset(Pool(logs, n)) + multiset(Take(log, n))
    ensures |Everything(logs + [log])| == |Everything(logs)| + |log|
  {
    if logs == [] {
      assert logs + [log] == [log];
      assert Pool([log], n) == Take(log, n) + Pool([], n);
      assert Everything([log]) == log + Everything([]);
    } else {
      assert (logs + [log])[1..] == logs[1..] + [log];
      PoolAppend(logs[1..], log, n);
    }
  }

  lemma {:induction false} PoolConcat(a: seq<seq<Entry>>, b: seq<seq<Entry>>, n: nat)
    ensures Pool(a + b, n) == Pool(a, n) + Pool(b, n)
    ensures Everything(a + b) == Everything(a) + Everything(b)
  {
    if a == [] {
      assert a + b == b;
    } else {
      assert (a + b)[1..] == a[1..] + b;
      PoolConcat(a[1..], b, n);
    }
  }

  /** Logs arriving in another order pool the same entries. */
  lemma {:induction false} PoolPermutation(a: seq<seq<Entry>>, b: seq<seq<Entry>>, n: nat)
    requires multiset(a) == multiset(b)
    ensures multiset(Pool(a, n)) == multiset(Pool(b, n))
    ensures |Everything(a)| == |Everything(b)|
  {
    if a == [] {
      assert |b| == |multiset(b)| == |multiset(a)| == 0;
    } else {
      var k := MatchFirst(a, b);
      var rest := b[..k] + b[k + 1..];
      assert b == b[..k] + ([b[k]] + b[k + 1..]);
      PoolPermutation(a[1..], rest, n);
      PoolConcat(b[..k], [b[k]] + b[k + 1..], n);
      PoolConcat([b[k]], b[k + 1..], n);
      PoolConcat(b[..k], b[k + 1..], n);
      assert Pool([b[k]], n) == Take(b[k], n) + Pool([], n);
      assert Everything([b[k]]) == b[k] + Everything([]);
    }
  }

  /** One member's answer: its prefix and total, or the placeholder that counts as one entry. */
  method Answer(m: Member, localID: string, needed: nat, now: int) returns (result: PageResult)
    requires 0 < needed <= MAX_PAGE * MAX_LIMIT
    ensures result.entries == Take(Contribution(m, localID, now), needed)
    ensures result.total == |Contribution(m, localID, now)|
  {
    result := PageResult([], 0);
    if m.nodeID == "" || m.nodeID == localID {
      return;
    }
    match m.state {
      case Suspect | Failed =>
        result := PageResult([UnavailableEntry(m, now)], 1);
      case Alive =>
        if m.reachable {
          result := HopNodePrefix(m.log, needed);
        } else {
          result := PageResult([UnavailableEntry(m, now)], 1);
        }
      case Other =>
    }
  }

  /** Collects the members' answers, given in the order in which they arrive. */
  method AggregateRemotes(arrivals: seq<Member>, localID: string, needed: nat, now: int) returns (out: PageResult)
    requires 0 < needed <= MAX_PAGE * MAX_LIMIT
    ensures multiset(out.entries) == multiset(Pool(Contributions(arrivals, localID, now), needed))
    ensures out.total == |Everything(Contributions(arrivals, localID, now))|
  {
    var entries: seq<Entry> := [];
    var total := 0;
    for k := 0 to |arrivals|
      invariant multiset(entries) == multiset(Pool(Contributions(arrivals[..k], localID, now), needed))
      invariant total == |Everything(Contributions(arrivals[..k], localID, now))|
    {
      var result := Answer(arrivals[k], localID, needed, now);
      ghost var before := Contributions(arrivals[..k], localID, now);
      ghost var answer := Contribution(arrivals[k], localID, now);
      assert Contributions(arrivals[..k + 1], localID, now) == before + [answer];
      PoolAppend(before, answer, needed);
      entries, total := entries + result.entries, total + result.total;
    }
    assert arrivals[..|arrivals|] == arrivals;
    return PageResult(entries, total);
  }

  /** One aggregated page: the local store's prefix and the members' answers, sorted and sliced. */
  method ListAggregate(local: seq<Entry>, arrivals: seq<Member>, localID: string, limit: int, page: int, now: int)
    returns (result: PageResult)
    requires 1 <= limit <= MAX_LIMIT && 1 <= page <= MAX_PAGE
    requires UniqueIds(Everything([local] + Contributions(arrivals, localID, now)))
    ensures var logs := [local] + Contributions(arrivals, localID, now);
            result == PageResult(MergedPage(logs, page * limit, (page - 1) * limit, limit), |Everything(logs)|)
  {
    var needed := page * limit;
    var offset := (page - 1) * limit;
    PageArithmetic(page, limit);
    var localPage := PageResult(SlicePage(local, 0, needed), |local|);
    var remote := AggregateRemotes(arrivals, localID, needed, now);
    var entries := SortBy(EntryLess, localPage.entries + remote.entries);
    ghost var others := Contributions(arrivals, localID, now);
    ghost var logs := [local] + others;
    assert logs[1..] == others;
    assert localPage.entries == Take(local, needed);
    assert multiset(localPage.entries + remote.entries) == multiset(Pool(logs, needed));
    SamePoolSameSort(logs, needed, localPage.entries + remote.entries);
    return PageResult(SlicePage(entries, offset, limit), localPage.total + remote.total);
  }

  /** One node's page, asked of that node; a node that cannot be reached shows as one placeholder entry. */
  method ListTarget(m: Member, limit: int, page: int, now: int) returns (result: PageResult)
    requires 1 <= limit <= MAX_LIMIT && 1 <= page <= MAX_PAGE
    ensures result == PageResult(SlicePage(TargetLog(m, now), (page - 1) * limit, limit), |TargetLog(m, now)|)
  {
    PageArithmetic(page, limit);
    if m.reachable {
      return HopNode(m.log, limit, page);
    }
    PlaceholderPage(page, limit);
    return PageResult(if page == 1 then [UnavailableEntry(m, now)] else [], 1);
  }

  function TargetLog(m: Member, now: int): seq<Entry> { if m.reachable then m.log else [UnavailableEntry(m, now)] }

  lemma PlaceholderPage(page: nat, limit: nat)
    requires page >= 1 && limit >= 1
    ensures (page - 1) * limit == 0 <==> page == 1
  {
  }

  lemma PageArithmetic(page: nat, limit: nat)
    requires 0 < page <= MAX_PAGE && 0 < limit <= MAX_LIMIT
    ensures 0 <= (page - 1) * limit && (page - 1) * limit + limit == page * limit
    ensures 0 < page * limit <= MAX_PAGE * MAX_LIMIT
  {
  }

  /** Entries pooled in any order sort to the same list. */
  lemma SamePoolSameSort(logs: seq<seq<Entry>>, n: nat, b: seq<Entry>)
    requires UniqueIds(Everything(logs)) && multiset(b) == multiset(Pool(logs, n))
    ensures SortBy(EntryLess, b) == SortBy(EntryLess, Pool(logs, n))
  {
    var a := Pool(logs, n);
    EntryOrder();
    UniqueIdsDistinguished(Everything(logs));
    PoolDistinguished(logs, n);
    DistinguishesPermutation(EntryLess, a, b);
    forall x
      ensures x in a <==> x in b
    {
      assert x in a <==> x in multiset(a);
      assert x in b <==> x in multiset(b);
    }
    SortIgnoresOrder(EntryLess, a, b);
  }

  // ---- what a page should be -------------------------------------------------------------------------

  /** What the merge of the logs' first `needed` entries shows. */
  function MergedPage(logs: seq<seq<Entry>>, needed: nat, offset: nat, limit: nat): seq<Entry> {
    SlicePage(SortBy(EntryLess, Pool(logs, needed)), offset, limit)
  }

  /** Every entry of every log, in the order of the merged list. */
  function FullOrder(logs: seq<seq<Entry>>): seq<Entry> { SortBy(EntryLess, Everything(logs)) }

  function FullPage(logs: seq<seq<Entry>>, offset: nat, limit: nat): seq<Entry> {
    SlicePage(FullOrder(logs), offset, limit)
  }

  /** None of the first n entries of the merged list is stored beyond the first n of its own log. */
  ghost predicate PrefixesSuffice(logs: seq<seq<Entry>>, n: nat) {
    forall t :: 0 <= t < n && t < |FullOrder(logs)| ==> FullOrder(logs)[t] in Pool(logs, n)
  }

  /** Audit ids are unique per source, so the merge order tells all entries apart. */
  ghost predicate UniqueIds(entries: seq<Entry>) {
    forall i, j :: 0 <= i < j < |entries| ==>
      entries[i].source != entries[j].source || entries[i].id != entries[j].id
  }

  lemma EntryOrder()
    ensures StrictOrder(EntryLess)
  {
    StrLessIsOrder();
  }

  lemma UniqueIdsDistinguished(entries: seq<Entry>)
    requires UniqueIds(entries)
    ensures Distinguishes(EntryLess, entries)
  {
    StrLessIsOrder();
  }

  lemma {:induction false} PoolMembers(logs: seq<seq<Entry>>, n: nat)
    ensures forall e :: e in Pool(logs, n) <==> exists i :: 0 <= i < |logs| && e in Take(logs[i], n)
    ensures forall e :: e in Everything(logs) <==> exists i :: 0 <= i < |logs| && e in logs[i]
    ensures forall e :: e in Pool(logs, n) ==> e in Everything(logs)
  {
    if logs != [] {
      var rest := logs[1..];
      PoolMembers(rest, n);
      forall e
        ensures e in Pool(logs, n) <==> exists i :: 0 <= i < |logs| && e in Take(logs[i], n)
      {
        if i :| 0 <= i < |logs| && e in Take(logs[i], n) {
          assert i > 0 ==> rest[i - 1] == logs[i];
        }
        if i :| 0 <= i < |rest| && e in Take(rest[i], n) { assert logs[i + 1] == rest[i]; }
      }
      forall e
        ensures e in Everything(logs) <==> exists i :: 0 <= i < |logs| && e in logs[i]
      {
        if i :| 0 <= i < |logs| && e in logs[i] {
          assert i > 0 ==> rest[i - 1] == logs[i];
        }
        if i :| 0 <= i < |rest| && e in rest[i] { assert logs[i + 1] == rest[i]; }
      }
    }
  }

  lemma {:induction false} PoolDistinguished(logs: seq<seq<Entry>>, n: nat)
    requires Distinguishes(EntryLess, Everything(logs))
    ensures Distinguishes(EntryLess, Pool(logs, n))
  {
    if logs != [] {
      var all, rest := Everything(logs), Everything(logs[1..]);
      assert forall i :: 0 <= i < |rest| ==> rest[i] == all[|logs[0]| + i];
      PoolDistinguished(logs[1..], n);
      PoolMembers(logs[1..], n);
      var pool, head := Pool(logs, n), Take(logs[0], n);
      forall i, j | 0 <= i < j < |pool|
        ensures EntryLess(pool[i], pool[j]) || EntryLess(pool[j], pool[i])
      {
        if j < |head| {
          assert pool[i] == all[i] && pool[j] == all[j];
        } else if i < |head| {
          assert pool[j] in Pool(logs[1..], n);
          var k :| 0 <= k < |rest| && rest[k] == pool[j];
          assert pool[i] == all[i] && pool[j] == all[|logs[0]| + k];
        } else {
          assert pool[i] == Pool(logs[1..], n)[i - |head|] && pool[j] == Pool(logs[1..], n)[j - |head|];
        }
      }
    }
  }
}
