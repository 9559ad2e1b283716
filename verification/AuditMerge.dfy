/** When merged prefixes give the same pages as sorting every log in full. */
module AuditMerge {
  import opened Sorting
  import opened Merging
  import opened AuditPaging

  lemma MergeSetup(logs: seq<seq<Entry>>, n: nat)
    requires UniqueIds(Everything(logs))
    ensures StrictOrder(EntryLess)
    ensures Ascending(EntryLess, SortBy(EntryLess, Pool(logs, n))) && Ascending(EntryLess, FullOrder(logs))
    ensures Within(SortBy(EntryLess, Pool(logs, n)), FullOrder(logs))
    ensures forall x :: x in SortBy(EntryLess, Pool(logs, n)) <==> x in Pool(logs, n)
    ensures forall x :: x in FullOrder(logs) <==> x in Everything(logs)
    ensures |SortBy(EntryLess, Pool(logs, n))| == |Pool(logs, n)| && |FullOrder(logs)| == |Everything(logs)|
  {
    SortPermutes(EntryLess, Pool(logs, n));
    SortPermutes(EntryLess, Everything(logs));
    EntryOrder();
    UniqueIdsDistinguished(Everything(logs));
    PoolDistinguished(logs, n);
    SortAscending(EntryLess, Pool(logs, n));
    SortAscending(EntryLess, Everything(logs));
    SortMembers(EntryLess, Pool(logs, n));
    SortMembers(EntryLess, Everything(logs));
    PoolMembers(logs, n);
  }

  lemma {:induction false} PoolLength(logs: seq<seq<Entry>>, n: nat, i: nat)
    requires i < |logs|
    ensures |Take(logs[i], n)| <= |Pool(logs, n)|
  {
    if i > 0 { PoolLength(logs[1..], n, i - 1); }
  }

  /** An entry missing from the pooled prefixes sits at or beyond n in its own log, so the pool is long enough. */
  lemma MissingMeansLongLog(logs: seq<seq<Entry>>, n: nat, e: Entry)
    requires e in Everything(logs) && e !in Pool(logs, n)
    ensures |Pool(logs, n)| >= n
    ensures exists i, p :: 0 <= i < |logs| && n <= p < |logs[i]| && logs[i][p] == e
  {
    PoolMembers(logs, n);
    var i :| 0 <= i < |logs| && e in logs[i];
    var p :| 0 <= p < |logs[i]| && logs[i][p] == e;
    forall q | 0 <= q < |Take(logs[i], n)|
      ensures logs[i][q] != e
    {
      assert Take(logs[i], n)[q] in Take(logs[i], n);
    }
    PoolLength(logs, n, i);
  }

  /** The merged page is the page of the full list exactly when no entry of the list up to the end of
      the page is stored too deep in its own log. */
  lemma MergedPageExact(logs: seq<seq<Entry>>, n: nat, offset: nat, limit: nat)
    requires limit > 0 && n == offset + limit && UniqueIds(Everything(logs))
    ensures MergedPage(logs, n, offset, limit) == FullPage(logs, offset, limit) <==> PrefixesSuffice(logs, n)
  {
    MergeSetup(logs, n);
    if t :| 0 <= t < n && t < |FullOrder(logs)| && FullOrder(logs)[t] !in Pool(logs, n) {
      MissingMeansLongLog(logs, n, FullOrder(logs)[t]);
    }
    WindowExact(EntryLess, SortBy(EntryLess, Pool(logs, n)), FullOrder(logs), n, offset, limit);
  }

  lemma {:induction false} EverythingLength(logs: seq<seq<Entry>>, i: nat)
    requires i < |logs|
    ensures |logs[i]| <= |Everything(logs)|
  {
    if i > 0 { EverythingLength(logs[1..], i - 1); }
  }

  lemma LongLogLongList(logs: seq<seq<Entry>>, n: nat, e: Entry)
    requires exists i, p :: 0 <= i < |logs| && n <= p < |logs[i]| && logs[i][p] == e
    ensures |FullOrder(logs)| > n
  {
    var i, p :| 0 <= i < |logs| && n <= p < |logs[i]| && logs[i][p] == e;
    EverythingLength(logs, i);
    SortPermutes(EntryLess, Everything(logs));
  }

  /** In a log stored in the merge's own order, an entry's place in the merged list is no earlier than its
      place in the log. */
  lemma SortedEntryFetched(logs: seq<seq<Entry>>, n: nat, t: nat)
    requires UniqueIds(Everything(logs))
    requires forall i :: 0 <= i < |logs| ==> Ascending(EntryLess, logs[i])
    requires t < n && t < |FullOrder(logs)|
    ensures FullOrder(logs)[t] in Pool(logs, n)
  {
    MergeSetup(logs, n);
    var f := FullOrder(logs);
    var e := f[t];
    assert e in f;
    if e !in Pool(logs, n) {
      MissingMeansLongLog(logs, n, e);
      var i, p :| 0 <= i < |logs| && n <= p < |logs[i]| && logs[i][p] == e;
      LogWithin(logs, i);
      RankAtLeast(EntryLess, logs[i], f, p, t);
    }
  }

  lemma LogWithin(logs: seq<seq<Entry>>, i: nat)
    requires i < |logs|
    ensures Within(logs[i], FullOrder(logs))
  {
    PoolMembers(logs, 0);
    SortMembers(EntryLess, Everything(logs));
  }

  /** Logs stored in the merge's own order are always fetched deep enough. */
  lemma SortedLogsSuffice(logs: seq<seq<Entry>>, n: nat)
    requires UniqueIds(Everything(logs))
    requires forall i :: 0 <= i < |logs| ==> Ascending(EntryLess, logs[i])
    ensures PrefixesSuffice(logs, n)
  {
    forall t | 0 <= t < n && t < |FullOrder(logs)|
      ensures FullOrder(logs)[t] in Pool(logs, n)
    {
      SortedEntryFetched(logs, n, t);
    }
  }

  // ---- when every page is right --------------------------------------------------------------------------

  /** The pages a request can ask for. */
  predicate Requestable(page: nat, limit: nat) { 1 <= page <= MAX_PAGE && 1 <= limit <= MAX_LIMIT }

  /** Where such a page starts, and where it ends. */
  function PageStart(page: nat, limit: nat): nat
    requires page > 0
  {
    (page - 1) * limit
  }

  function PageEnd(page: nat, limit: nat): nat { page * limit }

  /** Some page that can be asked for ends after n entries. */
  ghost predicate EndsAt(n: nat) {
    exists page: nat, limit: nat :: Requestable(page, limit) && PageEnd(page, limit) == n
  }

  /** No entry stands beyond the end of a page in its own log that it stands before in the full list. */
  ghost predicate PlacedForPages(logs: seq<seq<Entry>>) {
    forall i, p, t, n: nat :: Stands(logs, i, p, t) && EndsAt(n) && t < n ==> p < n
  }

  /** The entry at p in log i stands at t in the full list. */
  ghost predicate Stands(logs: seq<seq<Entry>>, i: int, p: int, t: int) {
    0 <= i < |logs| && 0 <= p < |logs[i]| && 0 <= t < |FullOrder(logs)| && FullOrder(logs)[t] == logs[i][p]
  }

  ghost predicate PageIsRight(logs: seq<seq<Entry>>, n: nat, offset: nat, limit: nat) {
    MergedPage(logs, n, offset, limit) == FullPage(logs, offset, limit)
  }

  /** Every page that can be asked for. */
  ghost predicate EveryPageIsRight(logs: seq<seq<Entry>>) {
    forall page: nat, limit: nat :: Requestable(page, limit) ==>
      PageIsRight(logs, PageEnd(page, limit), PageStart(page, limit), limit)
  }

  lemma PageBounds(page: nat, limit: nat)
    requires Requestable(page, limit)
    ensures PageEnd(page, limit) == PageStart(page, limit) + limit
  {
  }

  /** Where log i starts in the concatenation of all logs. */
  function StartOf(logs: seq<seq<Entry>>, i: nat): nat
    requires i <= |logs|
  {
    if i == 0 then 0 else |logs[0]| + StartOf(logs[1..], i - 1)
  }

  lemma {:induction false} PlaceInEverything(logs: seq<seq<Entry>>, i: nat, p: nat)
    requires i < |logs| && p < |logs[i]|
    ensures StartOf(logs, i) + p < |Everything(logs)| && Everything(logs)[StartOf(logs, i) + p] == logs[i][p]
  {
    if i > 0 {
      PlaceInEverything(logs[1..], i - 1, p);
    }
  }

  lemma {:induction false} StartsApart(logs: seq<seq<Entry>>, i: nat, j: nat)
    requires i < j <= |logs|
    ensures StartOf(logs, i) + |logs[i]| <= StartOf(logs, j)
  {
    if i > 0 {
      StartsApart(logs[1..], i - 1, j - 1);
    }
  }

  /** With unique ids an entry has one place in one log. */
  lemma OnePlace(logs: seq<seq<Entry>>, i: nat, p: nat, j: nat, q: nat)
    requires UniqueIds(Everything(logs))
    requires i < |logs| && p < |logs[i]| && j < |logs| && q < |logs[j]| && logs[i][p] == logs[j][q]
    ensures i == j && p == q
  {
    PlaceInEverything(logs, i, p);
    PlaceInEverything(logs, j, q);
    if i < j {
      StartsApart(logs, i, j);
    } else if j < i {
      StartsApart(logs, j, i);
    }
  }

  lemma PlacedMeansFetched(logs: seq<seq<Entry>>, n: nat)
    requires UniqueIds(Everything(logs)) && PlacedForPages(logs) && EndsAt(n)
    ensures PrefixesSuffice(logs, n)
  {
    MergeSetup(logs, n);
    PoolMembers(logs, n);
    var f := FullOrder(logs);
    forall t | 0 <= t < n && t < |f| ensures f[t] in Pool(logs, n) {
      assert f[t] in f;
      var i :| 0 <= i < |logs| && f[t] in logs[i];
      var p :| 0 <= p < |logs[i]| && logs[i][p] == f[t];
      assert Stands(logs, i, p, t);
      assert Take(logs[i], n)[p] == f[t];
    }
  }

  lemma FetchedMeansPlaced(logs: seq<seq<Entry>>, n: nat, i: nat, p: nat, t: nat)
    requires UniqueIds(Everything(logs)) && PrefixesSuffice(logs, n) && Stands(logs, i, p, t) && t < n
    ensures p < n
  {
    PoolMembers(logs, n);
    assert FullOrder(logs)[t] in Pool(logs, n);
    var j :| 0 <= j < |logs| && FullOrder(logs)[t] in Take(logs[j], n);
    var q :| 0 <= q < |Take(logs[j], n)| && Take(logs[j], n)[q] == logs[i][p];
    OnePlace(logs, i, p, j, q);
  }

  /** Every page that can be asked for is right exactly when no entry stands, in its own log, beyond the end of a
      page that it stands before in the full list. */
  lemma EveryPageExact(logs: seq<seq<Entry>>)
    requires UniqueIds(Everything(logs))
    ensures EveryPageIsRight(logs) <==> PlacedForPages(logs)
  {
    if PlacedForPages(logs) {
      forall page: nat, limit: nat | Requestable(page, limit)
        ensures PageIsRight(logs, PageEnd(page, limit), PageStart(page, limit), limit)
      {
        PageBounds(page, limit);
        PlacedMeansFetched(logs, PageEnd(page, limit));
        MergedPageExact(logs, PageEnd(page, limit), PageStart(page, limit), limit);
      }
    }
    if EveryPageIsRight(logs) {
      forall i, p, t, n: nat | Stands(logs, i, p, t) && EndsAt(n) && t < n ensures p < n
      {
        RightMeansFetched(logs, n);
        FetchedMeansPlaced(logs, n, i, p, t);
      }
    }
  }

  lemma RightMeansFetched(logs: seq<seq<Entry>>, n: nat)
    requires UniqueIds(Everything(logs)) && EveryPageIsRight(logs) && EndsAt(n)
    ensures PrefixesSuffice(logs, n)
  {
    var page: nat, limit: nat :| Requestable(page, limit) && PageEnd(page, limit) == n;
    PageBounds(page, limit);
    assert PageIsRight(logs, PageEnd(page, limit), PageStart(page, limit), limit);
    MergedPageExact(logs, n, PageStart(page, limit), limit);
  }

  /** Among the first MAX_LIMIT places every place is the end of a page. */
  lemma EveryPlaceEnds(n: nat)
    requires 1 <= n <= MAX_LIMIT
    ensures EndsAt(n)
  {
    assert Requestable(1, n) && PageEnd(1, n) == n;
  }

  // ---- one log -------------------------------------------------------------------------------------------

  /** Entries of the log with the end of a page between them are in the merge's order. */
  ghost predicate OrderedAcrossPages(log: seq<Entry>) {
    forall x, y, n: nat :: 0 <= x < n <= y < |log| && EndsAt(n) ==> EntryLess(log[x], log[y])
  }

  /** The entries stored first are the first of the sorted list, when the prefix holds these. */
  lemma PrefixIsSorted(log: seq<Entry>, n: nat, x: nat, y: nat)
    requires UniqueIds(log) && PrefixesSuffice([log], n) && x < n <= y < |log|
    ensures EntryLess(log[x], log[y])
  {
    SingleLog(log, n);
    MergeSetup([log], n);
    var f, s := FullOrder([log]), SortBy(EntryLess, Take(log, n));
    forall t | 0 <= t < n ensures f[t] in s {
      assert f[t] in Pool([log], n);
    }
    SameUpTo(EntryLess, s, f, n);
    assert Take(log, n)[x] == log[x] && log[x] in s && log[y] in f;
    var q :| 0 <= q < |s| && s[q] == log[x];
    var r :| 0 <= r < |f| && f[r] == log[y];
    assert EntryLess(f[q], f[r]);
  }

  /** In a log ordered across the end, an entry stored behind it has the whole prefix before it in the list. */
  lemma OrderedMeansPlaced(log: seq<Entry>, n: nat, p: nat, t: nat)
    requires UniqueIds(log) && 0 < n <= p < |log| && t < |FullOrder([log])| && FullOrder([log])[t] == log[p]
    requires forall x :: 0 <= x < n ==> EntryLess(log[x], log[p])
    ensures n <= t
  {
    SingleLog(log, n);
    MergeSetup([log], n);
    var f, s := FullOrder([log]), SortBy(EntryLess, Take(log, n));
    assert s[n - 1] in s;
    var x :| 0 <= x < n && Take(log, n)[x] == s[n - 1];
    assert s[n - 1] in f;
    var q :| 0 <= q < |f| && f[q] == s[n - 1];
    RankAtLeast(EntryLess, s, f, n - 1, q);
    LessMeansEarlier(EntryLess, f, q, t);
  }

  /** For one log: every page that can be asked for is right exactly when the log is in the merge's order across
      the end of every page. */
  lemma SingleLogExact(log: seq<Entry>)
    requires UniqueIds(log)
    ensures EveryPageIsRight([log]) <==> OrderedAcrossPages(log)
  {
    SingleLog(log, 0);
    EveryPageExact([log]);
    if EveryPageIsRight([log]) {
      forall x, y, n: nat | 0 <= x < n <= y < |log| && EndsAt(n) ensures EntryLess(log[x], log[y]) {
        RightMeansFetched([log], n);
        PrefixIsSorted(log, n, x, y);
      }
    }
    if OrderedAcrossPages(log) {
      forall i, p, t, n: nat | Stands([log], i, p, t) && EndsAt(n) && t < n ensures p < n {
        if n <= p { OrderedMeansPlaced(log, n, p, t); }
      }
    }
  }

  /** Up to one more entry than fits on a page that means: when the whole log is in the merge's order. */
  lemma ShortLogExact(log: seq<Entry>)
    requires UniqueIds(log) && |log| <= MAX_LIMIT + 1
    ensures EveryPageIsRight([log]) <==> Ascending(EntryLess, log)
  {
    SingleLogExact(log);
    if OrderedAcrossPages(log) {
      forall x, y | 0 <= x < y < |log| ensures EntryLess(log[x], log[y]) {
        EveryPlaceEnds(y);
      }
    }
  }

  // ---- page after page -----------------------------------------------------------------------------------

  /** How many entries the first p pages cover. */
  function PagesEnd(p: nat, limit: nat): nat {
    if p == 0 then 0 else PagesEnd(p - 1, limit) + limit
  }

  lemma {:induction false} PagesEndIs(p: nat, limit: nat)
    ensures PagesEnd(p, limit) == p * limit
  {
    if p > 0 {
      PagesEndIs(p - 1, limit);
      assert p * limit == (p - 1) * limit + limit;
    }
  }

  /** Pages 1 to p, one after the other. */
  function MergedPages(logs: seq<seq<Entry>>, p: nat, limit: nat): seq<Entry> {
    if p == 0 then []
    else MergedPages(logs, p - 1, limit) + MergedPage(logs, PagesEnd(p, limit), PagesEnd(p - 1, limit), limit)
  }

  /** Right or not, a merged page is as long as it should be. */
  lemma PageLength(logs: seq<seq<Entry>>, n: nat, offset: nat, limit: nat)
    requires limit > 0 && n == offset + limit && UniqueIds(Everything(logs))
    ensures |MergedPage(logs, n, offset, limit)| == |FullPage(logs, offset, limit)|
  {
    MergeSetup(logs, n);
    var f := FullOrder(logs);
    if t :| 0 <= t < n && t < |f| && f[t] !in Pool(logs, n) {
      MissingMeansLongLog(logs, n, f[t]);
      LongLogLongList(logs, n, f[t]);
    }
    WindowLength(EntryLess, SortBy(EntryLess, Pool(logs, n)), f, n, offset, limit);
  }

  /** For each of the first p pages, no entry up to its end is stored too deep in its own log. */
  ghost predicate PagesFetched(logs: seq<seq<Entry>>, p: nat, limit: nat) {
    p == 0 || (PagesFetched(logs, p - 1, limit) && PrefixesSuffice(logs, PagesEnd(p, limit)))
  }

  /** Reading page after page lists every entry once, in order, up to page p exactly when for each of these
      pages no entry up to its end is stored too deep in its own log. */
  lemma {:induction false} PagesConcatenate(logs: seq<seq<Entry>>, p: nat, limit: nat)
    requires limit > 0 && UniqueIds(Everything(logs))
    ensures |MergedPages(logs, p, limit)| == |Take(FullOrder(logs), PagesEnd(p, limit))|
    ensures MergedPages(logs, p, limit) == Take(FullOrder(logs), PagesEnd(p, limit)) <==> PagesFetched(logs, p, limit)
  {
    if p > 0 {
      PagesConcatenate(logs, p - 1, limit);
      OnePageMore(logs, PagesEnd(p, limit), PagesEnd(p - 1, limit), limit, MergedPages(logs, p - 1, limit));
    }
  }

  lemma OnePageMore(logs: seq<seq<Entry>>, n: nat, offset: nat, limit: nat, before: seq<Entry>)
    requires limit > 0 && n == offset + limit && UniqueIds(Everything(logs))
    requires |before| == |Take(FullOrder(logs), offset)|
    ensures
      var all, whole := before + MergedPage(logs, n, offset, limit), Take(FullOrder(logs), n);
      |all| == |whole| && (all == whole <==> before == Take(FullOrder(logs), offset) && PrefixesSuffice(logs, n))
  {
    MergedPageExact(logs, n, offset, limit);
    PageLength(logs, n, offset, limit);
    NextWindow(FullOrder(logs), n, offset, limit);
    PartsOfEqual(before, MergedPage(logs, n, offset, limit), Take(FullOrder(logs), offset), FullPage(logs, offset, limit));
  }

  lemma PartsOfEqual(a: seq<Entry>, b: seq<Entry>, c: seq<Entry>, d: seq<Entry>)
    requires |a| == |c| && |b| == |d|
    ensures a + b == c + d <==> a == c && b == d
  {
    if a + b == c + d {
      assert a == (a + b)[..|a|] && c == (c + d)[..|a|];
      assert b == (a + b)[|a|..] && d == (c + d)[|a|..];
    }
  }

  /** So it does for logs stored in the merge's own order, ties included. */
  lemma SortedLogsConcatenate(logs: seq<seq<Entry>>, p: nat, limit: nat)
    requires limit > 0 && UniqueIds(Everything(logs))
    requires forall i :: 0 <= i < |logs| ==> Ascending(EntryLess, logs[i])
    ensures MergedPages(logs, p, limit) == Take(FullOrder(logs), p * limit)
  {
    SortedPagesFetched(logs, p, limit);
    PagesConcatenate(logs, p, limit);
    PagesEndIs(p, limit);
  }

  lemma {:induction false} SortedPagesFetched(logs: seq<seq<Entry>>, p: nat, limit: nat)
    requires UniqueIds(Everything(logs)) && forall i :: 0 <= i < |logs| ==> Ascending(EntryLess, logs[i])
    ensures PagesFetched(logs, p, limit)
  {
    if p > 0 {
      SortedPagesFetched(logs, p - 1, limit);
      SortedLogsSuffice(logs, PagesEnd(p, limit));
    }
  }

  /** HasMore tells whether entries remain after the page, whatever order the logs are stored in. */
  lemma HasMoreExact(logs: seq<seq<Entry>>, n: nat, offset: nat, limit: nat)
    requires limit > 0 && n == offset + limit && UniqueIds(Everything(logs))
    ensures HasMore(PageResult(MergedPage(logs, n, offset, limit), |Everything(logs)|), offset)
            <==> n < |FullOrder(logs)|
  {
    MergeSetup(logs, n);
    var f := FullOrder(logs);
    if t :| 0 <= t < n && t < |f| && f[t] !in Pool(logs, n) {
      MissingMeansLongLog(logs, n, f[t]);
      LongLogLongList(logs, n, f[t]);
    }
    WindowEndExact(EntryLess, SortBy(EntryLess, Pool(logs, n)), f, n, offset, limit);
  }

  /** The order in which the members' answers arrive does not show in the page. */
  lemma ArrivalOrderIrrelevant(a: seq<seq<Entry>>, b: seq<seq<Entry>>, n: nat, offset: nat, limit: nat)
    requires UniqueIds(Everything(a)) && multiset(a) == multiset(b)
    ensures MergedPage(a, n, offset, limit) == MergedPage(b, n, offset, limit)
  {
    PoolPermutation(a, b, n);
    SamePoolSameSort(a, n, Pool(b, n));
  }

  datatype Response = Response(entries: seq<Entry>, total: nat, page: int, pageSize: int, hasMore: bool)

  /** Whom a request asks: every node, one other node, or only this one. */
  datatype Scope = Everywhere | OneNode(member: Member) | Here

  /** The response is right about the first n entries of the full list, from offset on: the total, whether more
      follow, and the page itself exactly when the prefixes reach far enough. */
  ghost predicate Answers(resp: Response, logs: seq<seq<Entry>>, n: nat, offset: nat)
    requires resp.pageSize >= 0
  {
    && resp.total == |FullOrder(logs)|
    && (resp.hasMore <==> n < |FullOrder(logs)|)
    && (resp.entries == FullPage(logs, offset, resp.pageSize) <==> PrefixesSuffice(logs, n))
  }

  /** The response is the page of one log as its store serves it. */
  predicate ShowsLog(resp: Response, log: seq<Entry>, n: nat, offset: nat)
    requires resp.pageSize >= 0
  {
    resp.total == |log| && resp.entries == SlicePage(log, offset, resp.pageSize) && (resp.hasMore <==> n < |log|)
  }

  lemma LogPage(log: seq<Entry>, n: nat, offset: nat, limit: nat, page: int)
    requires limit > 0 && n == offset + limit
    ensures
      var result := PageResult(SlicePage(log, offset, limit), |log|);
      ShowsLog(Response(result.entries, result.total, page, limit, HasMore(result, offset)), log, n, offset)
  {
  }

  lemma ResponseLaw(logs: seq<seq<Entry>>, n: nat, offset: nat, limit: nat, page: int)
    requires limit > 0 && n == offset + limit && UniqueIds(Everything(logs))
    ensures
      var result := PageResult(MergedPage(logs, n, offset, limit), |Everything(logs)|);
      Answers(Response(result.entries, result.total, page, limit, HasMore(result, offset)), logs, n, offset)
  {
    MergedPageExact(logs, n, offset, limit);
    HasMoreExact(logs, n, offset, limit);
    SortPermutes(EntryLess, Everything(logs));
  }

  /** The whole request: normalised page and limit, the page of its scope, and the paging fields beside it. */
  method ListAudit(reqLimit: int, reqPage: int, scope: Scope, local: seq<Entry>, arrivals: seq<Member>,
                   localID: string, now: int)
    returns (resp: Response)
    requires UniqueIds(Everything([local] + Contributions(arrivals, localID, now)))
    ensures 1 <= resp.page <= MAX_PAGE && 1 <= resp.pageSize <= MAX_LIMIT
    ensures resp.page == if reqPage <= 0 then 1 else Min(reqPage, MAX_PAGE)
    ensures resp.pageSize == if reqLimit <= 0 then 50 else Min(reqLimit, MAX_LIMIT)
    ensures
      var n, offset := resp.page * resp.pageSize, (resp.page - 1) * resp.pageSize;
      match scope
      case Everywhere => Answers(resp, [local] + Contributions(arrivals, localID, now), n, offset)
      case OneNode(m) => ShowsLog(resp, TargetLog(m, now), n, offset)
      case Here => ShowsLog(resp, local, n, offset)
  {
    var limit, page := NormalizeLimit(reqLimit), NormalizePage(reqPage);
    PageArithmetic(page, limit);
    var offset := (page - 1) * limit;
    var result: PageResult;
    match scope
    case Everywhere =>
      result := ListAggregate(local, arrivals, localID, limit, page, now);
      ResponseLaw([local] + Contributions(arrivals, localID, now), page * limit, offset, limit, page);
      return Response(result.entries, result.total, page, limit, HasMore(result, offset));
    case OneNode(m) =>
      result := ListTarget(m, limit, page, now);
      LogPage(TargetLog(m, now), page * limit, offset, limit, page);
      return Response(result.entries, result.total, page, limit, HasMore(result, offset));
    case Here =>
      result := PageResult(SlicePage(local, offset, limit), |local|);
      LogPage(local, page * limit, offset, limit, page);
      return Response(result.entries, result.total, page, limit, HasMore(result, offset));
  }

  /** Two entries of one millisecond, stored newest row first: pages of one entry repeat one and lose the other. */
  lemma MillisecondTieRepeats()
    ensures var later, earlier := Entry(5, "n", "b", "stop"), Entry(5, "n", "a", "start");
            var logs := [[later, earlier]];
            && UniqueIds(Everything(logs))
            && FullOrder(logs) == [earlier, later]
            && MergedPage(logs, 1, 0, 1) == [later] && MergedPage(logs, 2, 1, 1) == [later]
  {
    var later, earlier := Entry(5, "n", "b", "stop"), Entry(5, "n", "a", "start");
    assert EntryLess(earlier, later);
    TwoOutOfOrder(later, earlier);
  }

  /** Two entries stored the wrong way round: pages of one entry show the first twice and the second never. */
  lemma TwoOutOfOrder(first: Entry, second: Entry)
    requires EntryLess(second, first) && first.id != second.id
    ensures
      var logs := [[first, second]];
      && UniqueIds(Everything(logs)) && FullOrder(logs) == [second, first]
      && MergedPage(logs, 1, 0, 1) == [first] && MergedPage(logs, 2, 1, 1) == [first]
  {
    var log := [first, second];
    SingleLog(log, 1);
    SingleLog(log, 2);
    SortPair(second, first);
    assert Take(log, 1) == [first] && Take(log, 2) == log;
    assert SortBy(EntryLess, [first]) == [first];
  }

  lemma SingleLog(log: seq<Entry>, n: nat)
    ensures Everything([log]) == log && Pool([log], n) == Take(log, n)
  {
    assert [log][1..] == [];
    assert Everything([log]) == log + Everything([]);
    assert Pool([log], n) == Take(log, n) + Pool([], n);
  }

  lemma SortPair(small: Entry, large: Entry)
    requires EntryLess(small, large)
    ensures SortBy(EntryLess, [large, small]) == [small, large]
  {
    assert [large, small][1..] == [small] && [small][1..] == [];
    EntryOrder();
    assert SortBy(EntryLess, [small]) == Insert(EntryLess, small, []) == [small];
    assert Insert(EntryLess, large, [small]) == [small] + Insert(EntryLess, large, [small][1..]);
    assert Insert(EntryLess, large, []) == [large];
  }
}
