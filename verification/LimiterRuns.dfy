/** Any sequence of calls, by any users, on a clock that does not run backwards. */
module LimiterRuns {
  import opened Filtering
  import opened LoginLimiter

  datatype Call = Call(user: string, now: int)

  type Table = map<string, seq<int>>

  function HitsOf(h: Table, user: string): seq<int> { if user in h then h[user] else [] }

  predicate Allowed(h: Table, call: Call) { |Live(HitsOf(h, call.user), call.now)| < LIMIT }

  /** What Limiter.Allow does to the table of recorded times. */
  function Next(h: Table, call: Call): Table {
    h[call.user := Live(HitsOf(h, call.user), call.now) + if Allowed(h, call) then [call.now] else []]
  }

  function Run(calls: seq<Call>): Table {
    if calls == [] then map[] else Next(Run(calls[..|calls| - 1]), calls[|calls| - 1])
  }

  /** The limiter records the table's times. */
  ghost predicate Holds(limiter: Limiter, h: Table)
    reads limiter, limiter.Repr
    requires limiter.Valid()
  {
    forall u :: limiter.Hits(u) == HitsOf(h, u)
  }

  method CallOne(limiter: Limiter, call: Call, ghost h: Table) returns (ok: bool)
    requires limiter.Valid() && Holds(limiter, h)
    modifies limiter, limiter.Repr
    ensures limiter.Valid() && fresh(limiter.Repr - old(limiter.Repr)) && Holds(limiter, Next(h, call))
    ensures ok == Allowed(h, call)
  {
    assert limiter.Hits(call.user) == HitsOf(h, call.user);
    ok := limiter.Allow(call.user, call.now);
  }

  /** Whether the i-th call is allowed. */
  predicate AllowedAt(calls: seq<Call>, i: nat)
    requires i < |calls|
  {
    Allowed(Run(calls[..i]), calls[i])
  }

  /** The answers to the calls, each given on the table as it then is. */
  function Answers(calls: seq<Call>): seq<bool> {
    if calls == [] then []
    else Answers(calls[..|calls| - 1]) + [Allowed(Run(calls[..|calls| - 1]), calls[|calls| - 1])]
  }

  lemma {:induction false} AnswerAt(calls: seq<Call>, i: nat)
    requires i < |calls|
    ensures |Answers(calls)| == |calls| && Answers(calls)[i] == AllowedAt(calls, i)
  {
    var init := calls[..|calls| - 1];
    if i < |init| {
      AnswerAt(init, i);
      assert init[..i] == calls[..i];
    } else if init != [] {
      AnswerAt(init, 0);
    }
  }

  lemma NextCall(calls: seq<Call>, i: nat)
    requires i < |calls|
    ensures Run(calls[..i + 1]) == Next(Run(calls[..i]), calls[i])
    ensures Answers(calls[..i + 1]) == Answers(calls[..i]) + [AllowedAt(calls, i)]
  {
    assert calls[..i + 1][..i] == calls[..i];
  }

  /** The limiter, called with any sequence of calls, holds that table, and answers each call as it says. */
  method Replay(calls: seq<Call>) returns (limiter: Limiter, answers: seq<bool>)
    ensures limiter.Valid() && Holds(limiter, Run(calls)) && answers == Answers(calls)
  {
    limiter := new Limiter();
    answers := [];
    for i := 0 to |calls|
      invariant fresh(limiter) && fresh(limiter.Repr)
      invariant limiter.Valid() && Holds(limiter, Run(calls[..i])) && answers == Answers(calls[..i])
    {
      NextCall(calls, i);
      var ok := CallOne(limiter, calls[i], Run(calls[..i]));
      answers := answers + [ok];
    }
    assert calls[..|calls|] == calls;
  }

  /** The times at which the user was ever allowed in. */
  function AllowedTimes(calls: seq<Call>, user: string): seq<int> {
    if calls == [] then []
    else
      var init, last := calls[..|calls| - 1], calls[|calls| - 1];
      AllowedTimes(init, user) + if last.user == user && Allowed(Run(init), last) then [last.now] else []
  }

  ghost predicate Monotonic(calls: seq<Call>) {
    forall i, j :: 0 <= i < j < |calls| ==> calls[i].now <= calls[j].now
  }

  lemma LiveOfLive(hits: seq<int>, now: int, later: int)
    requires now <= later
    ensures Live(Live(hits, now), later) == Live(hits, later)
  {
    FilterTwice(hits, t => t > now - WINDOW, t => t > later - WINDOW, t => t > later - WINDOW);
    LiveIs(hits, now, t => t > now - WINDOW);
    LiveIs(Live(hits, now), later, t => t > later - WINDOW);
    LiveIs(hits, later, t => t > later - WINDOW);
  }

  lemma LiveIs(hits: seq<int>, now: int, keep: int -> bool)
    requires forall t :: keep(t) <==> t > now - WINDOW
    ensures Live(hits, now) == Filter(hits, keep)
  {
    FilterAgrees(hits, t => t > now - WINDOW, keep);
  }

  lemma LiveConcat(a: seq<int>, b: seq<int>, now: int)
    ensures Live(a + b, now) == Live(a, now) + Live(b, now)
  {
    FilterConcat(a, b, t => t > now - WINDOW);
  }

  /** Compaction never loses a time that still counts: what is live in the table is what is live in the
      full history. */
  lemma {:induction false} TableIsHistory(calls: seq<Call>, user: string, later: int)
    requires Monotonic(calls) && (forall i :: 0 <= i < |calls| ==> calls[i].now <= later)
    ensures Live(HitsOf(Run(calls), user), later) == Live(AllowedTimes(calls, user), later)
  {
    if calls != [] {
      var init, last := calls[..|calls| - 1], calls[|calls| - 1];
      assert forall i :: 0 <= i < |init| ==> init[i] == calls[i];
      TableIsHistory(init, user, later);
      var h := Run(init);
      assert calls == init + [last];
      if last.user != user {
        assert HitsOf(Run(calls), user) == HitsOf(h, user);
        assert AllowedTimes(calls, user) == AllowedTimes(init, user);
      } else {
        var added := if Allowed(h, last) then [last.now] else [];
        LiveConcat(Live(HitsOf(h, user), last.now), added, later);
        LiveOfLive(HitsOf(h, user), last.now, later);
        LiveConcat(AllowedTimes(init, user), added, later);
        assert AllowedTimes(calls, user) == AllowedTimes(init, user) + added;
        assert HitsOf(Run(calls), user) == Live(HitsOf(h, user), last.now) + added;
      }
    }
  }

  /** A call is refused exactly when LIMIT logins of its user were allowed in the minute up to it. */
  lemma RefusedExactly(calls: seq<Call>, i: nat)
    requires Monotonic(calls) && i < |calls|
    ensures !AllowedAt(calls, i) <==> |Live(AllowedTimes(calls[..i], calls[i].user), calls[i].now)| >= LIMIT
  {
    TableIsHistory(calls[..i], calls[i].user, calls[i].now);
  }

  lemma {:induction false} FilterImplies<T>(s: seq<T>, p: T -> bool, q: T -> bool)
    requires forall x :: x in s && p(x) ==> q(x)
    ensures |Filter(s, p)| <= |Filter(s, q)|
  {
    if s != [] { FilterImplies(s[1..], p, q); }
  }

  function InWindow(times: seq<int>, start: int): seq<int> { Filter(times, t => start <= t < start + WINDOW) }

  /** Any one-minute half-open window holds at most LIMIT allowed logins of a user. */
  lemma {:induction false} WindowBounded(calls: seq<Call>, user: string, start: int)
    requires Monotonic(calls)
    ensures |InWindow(AllowedTimes(calls, user), start)| <= LIMIT
  {
    if calls != [] {
      var init, last := calls[..|calls| - 1], calls[|calls| - 1];
      assert forall i :: 0 <= i < |init| ==> init[i] == calls[i];
      WindowBounded(init, user, start);
      var times := AllowedTimes(init, user);
      if last.user == user && Allowed(Run(init), last) {
        assert AllowedTimes(calls, user) == times + [last.now];
        FilterConcat(times, [last.now], t => start <= t < start + WINDOW);
        assert [last.now][1..] == [];
        if start <= last.now < start + WINDOW {
          TableIsHistory(init, user, last.now);
          FilterImplies(times, t => start <= t < start + WINDOW, t => t > last.now - WINDOW);
          LiveIs(times, last.now, t => t > last.now - WINDOW);
        }
      } else {
        assert AllowedTimes(calls, user) == times;
      }
    }
  }
}
