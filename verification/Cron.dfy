/** The cron search behind scheduled snapshots and replication policies: the
    next fire strictly after an instant, the latest fire at or before it, and
    the minute tick that takes a snapshot. Instants are nanoseconds; the
    calendar and the time zone are one function from an instant to the civil
    fields it shows, about which nothing is assumed. */
module Cron {

  const MINUTE: nat := 60_000_000_000
  const HORIZON: nat := 366 * 24 * 60 * MINUTE

  /** A whitespace-separated field: `*`, text that strconv.Atoi reads as an
      integer, or anything else. */
  datatype Token = Star | Number(n: int) | Garbage

  datatype Civil = Civil(minute: int, hour: int, day: int, month: int, weekday: int)

  datatype CronField = Any | Exactly(n: int)

  datatype Parsed = Field(field: CronField) | BadField

  /** What a search answers: the zero time of a disabled schedule, a fire, or
      the INVALID error. */
  datatype Answer = Disabled | At(time: int) | Invalid

  // ---------- fields ----------

  predicate InRange(token: Token, lo: int, hi: int) {
    match token
    case Star => true
    case Number(n) => lo <= n <= hi
    case Garbage => false
  }

  function ParseField(token: Token, lo: int, hi: int): (r: Parsed)
    ensures r.Field? <==> InRange(token, lo, hi)
  {
    match token
    case Star => Field(Any)
    case Number(n) => if n < lo || n > hi then BadField else Field(Exactly(n))
    case Garbage => BadField
  }

  function Lows(): seq<int> { [0, 0, 1, 1, 0] }

  function Highs(): seq<int> { [59, 23, 31, 12, 6] }

  predicate Valid(expr: seq<Token>) {
    expr == [] ||
    (|expr| == 5 && forall i :: 0 <= i < 5 ==> InRange(expr[i], Lows()[i], Highs()[i]))
  }

  method ValidateCron(expr: seq<Token>) returns (ok: bool)
    ensures ok == Valid(expr)
  {
    if |expr| == 0 {
      return true;
    }
    if |expr| != 5 {
      return false;
    }
    for i := 0 to 5
      invariant forall j :: 0 <= j < i ==> InRange(expr[j], Lows()[j], Highs()[j])
    {
      match expr[i]
      case Star =>
      case Number(n) =>
        if n < Lows()[i] || n > Highs()[i] {
          return false;
        }
      case Garbage =>
        return false;
    }
    return true;
  }

  predicate Agrees(token: Token, value: int) {
    token == Star || token == Number(value)
  }

  /** The instant shows the civil fields the expression asks for. Day of month
      and weekday are both required, unlike the usual cron alternative. */
  predicate Matches(expr: seq<Token>, cal: int -> Civil, t: int) {
    |expr| == 5 &&
    Agrees(expr[0], cal(t).minute) && Agrees(expr[1], cal(t).hour) && Agrees(expr[2], cal(t).day) &&
    Agrees(expr[3], cal(t).month) && Agrees(expr[4], cal(t).weekday)
  }

  method CronMatch(civil: Civil, f: Fields) returns (r: bool)
    ensures r <==> Shows(f, civil)
  {
    if f.min != Any && civil.minute != f.min.n { return false; }
    if f.hour != Any && civil.hour != f.hour.n { return false; }
    if f.dom != Any && civil.day != f.dom.n { return false; }
    if f.mon != Any && civil.month != f.mon.n { return false; }
    if f.dow != Any && civil.weekday != f.dow.n { return false; }
    return true;
  }

  // ---------- minutes ----------

  function Floor(t: int): (r: int)
    ensures r <= t < r + MINUTE
    ensures Aligned(r)
  {
    t - t % MINUTE
  }

  predicate Aligned(t: int) {
    t % MINUTE == 0
  }

  lemma AlignedGap(t: int, u: int)
    requires Aligned(t) && Aligned(u) && t < u
    ensures t + MINUTE <= u
  {
  }

  lemma FloorIsLatest(t: int, u: int)
    requires Aligned(u) && u <= t
    ensures u <= Floor(t)
  {
    if Floor(t) < u {
      AlignedGap(Floor(t), u);
    }
  }

  /** A minute the schedule fires at. */
  predicate FiresAt(expr: seq<Token>, cal: int -> Civil, t: int) {
    Aligned(t) && Matches(expr, cal, t)
  }

  ghost predicate Quiet(expr: seq<Token>, cal: int -> Civil, after: int, upTo: int) {
    forall t :: after < t <= upTo ==> !FiresAt(expr, cal, t)
  }

  /** The last minute a search for the next fire looks at. */
  function LastMinute(from: int): int { Floor(from) + MINUTE + HORIZON }

  /** The first minute a search for the previous fire looks at. */
  function FirstMinute(from: int): int { Floor(from) - HORIZON }

  ghost predicate IsNext(expr: seq<Token>, cal: int -> Civil, from: int, r: Answer) {
    match r
    case Disabled => expr == []
    case At(t) => expr != [] && Valid(expr) && FiresAt(expr, cal, t) && from < t <= LastMinute(from) &&
                  Quiet(expr, cal, from, t - 1)
    case Invalid => !Valid(expr) || (expr != [] && Quiet(expr, cal, from, LastMinute(from)))
  }

  ghost predicate IsPrevious(expr: seq<Token>, cal: int -> Civil, from: int, r: Answer) {
    match r
    case Disabled => expr == []
    case At(t) => expr != [] && Valid(expr) && FiresAt(expr, cal, t) && FirstMinute(from) <= t <= from &&
                  Quiet(expr, cal, t, from)
    case Invalid => !Valid(expr) || (expr != [] && Quiet(expr, cal, FirstMinute(from) - 1, from))
  }

  // ---------- searches ----------

  datatype Fields = Fields(min: CronField, hour: CronField, dom: CronField, mon: CronField, dow: CronField)

  predicate Shows(f: Fields, civil: Civil) {
    (f.min == Any || f.min == Exactly(civil.minute)) && (f.hour == Any || f.hour == Exactly(civil.hour)) &&
    (f.dom == Any || f.dom == Exactly(civil.day)) && (f.mon == Any || f.mon == Exactly(civil.month)) &&
    (f.dow == Any || f.dow == Exactly(civil.weekday))
  }

  /** Validates and parses an expression; None stands for every error. */
  method ParseFields(expr: seq<Token>) returns (ok: bool, f: Fields)
    requires expr != []
    ensures ok <==> Valid(expr)
    ensures ok ==> forall cal: int -> Civil, t :: Matches(expr, cal, t) <==> Shows(f, cal(t))
  {
    f := Fields(Any, Any, Any, Any, Any);
    ok := ValidateCron(expr);
    if !ok || |expr| != 5 { return false, f; }
    var min := ParseField(expr[0], 0, 59);
    if min == BadField { return false, f; }
    var hour := ParseField(expr[1], 0, 23);
    if hour == BadField { return false, f; }
    var dom := ParseField(expr[2], 1, 31);
    if dom == BadField { return false, f; }
    var mon := ParseField(expr[3], 1, 12);
    if mon == BadField { return false, f; }
    var dow := ParseField(expr[4], 0, 6);
    if dow == BadField { return false, f; }
    return true, Fields(min.field, hour.field, dom.field, mon.field, dow.field);
  }

  lemma QuietForward(expr: seq<Token>, cal: int -> Civil, from: int, t: int)
    requires Aligned(t) && Quiet(expr, cal, from, t - 1) && !Matches(expr, cal, t)
    ensures Quiet(expr, cal, from, t + MINUTE - 1)
  {
  }

  lemma QuietBackward(expr: seq<Token>, cal: int -> Civil, from: int, t: int)
    requires Aligned(t) && Quiet(expr, cal, t, from) && !Matches(expr, cal, t)
    ensures Quiet(expr, cal, t - MINUTE, from)
  {
  }

  method NextAt(expr: seq<Token>, cal: int -> Civil, from: int) returns (r: Answer)
    ensures IsNext(expr, cal, from, r)
  {
    if expr == [] {
      return Disabled;
    }
    var ok, f := ParseFields(expr);
    if !ok {
      return Invalid;
    }
    var t := Floor(from) + MINUTE;
    var deadline := t + HORIZON;
    while t <= deadline
      invariant Aligned(t) && from < t
      invariant Quiet(expr, cal, from, t - 1)
    {
      var hit := CronMatch(cal(t), f);
      if hit {
        return At(t);
      }
      QuietForward(expr, cal, from, t);
      t := t + MINUTE;
    }
    return Invalid;
  }

  method PreviousOrEqualAt(expr: seq<Token>, cal: int -> Civil, from: int) returns (r: Answer)
    ensures IsPrevious(expr, cal, from, r)
  {
    if expr == [] {
      return Disabled;
    }
    var ok, f := ParseFields(expr);
    if !ok {
      return Invalid;
    }
    var t := Floor(from);
    var deadline := t - HORIZON;
    while t >= deadline
      invariant Aligned(t) && t <= from
      invariant Quiet(expr, cal, t, from)
      decreases t - deadline
    {
      var hit := CronMatch(cal(t), f);
      if hit {
        return At(t);
      }
      QuietBackward(expr, cal, from, t);
      t := t - MINUTE;
    }
    return Invalid;
  }

  /** The engine's minute tick: what the search for the next fire after one
      minute ago says, and whether a snapshot is created. */
  method TickSchedule(expr: seq<Token>, cal: int -> Civil, now: int) returns (failed: bool, create: bool)
    ensures failed <==> !Valid(expr) || (expr != [] && Quiet(expr, cal, now - MINUTE, LastMinute(now - MINUTE)))
    ensures create <==> Valid(expr) && FiresAt(expr, cal, Floor(now))
  {
    var next := NextAt(expr, cal, now - MINUTE);
    TickNext(expr, cal, now, next);
    if next == Invalid {
      return true, false;
    }
    if next == Disabled || next.time > now {
      return false, false;
    }
    return false, true;
  }

  // ---------- laws of the searches ----------

  lemma TickNext(expr: seq<Token>, cal: int -> Civil, now: int, next: Answer)
    requires IsNext(expr, cal, now - MINUTE, next)
    ensures next == Invalid <==>
      !Valid(expr) || (expr != [] && Quiet(expr, cal, now - MINUTE, LastMinute(now - MINUTE)))
    ensures (next.At? && next.time <= now) <==> Valid(expr) && FiresAt(expr, cal, Floor(now))
  {
    if next.At? && next.time <= now {
      FloorIsLatest(now, next.time);
      if next.time < Floor(now) {
        AlignedGap(next.time, Floor(now));
      }
      assert next.time == Floor(now);
    }
  }

  /** Looking back from t, either nothing fires in the last k minutes before it, or there is a latest fire. */
  lemma {:induction false} LatestFire(expr: seq<Token>, cal: int -> Civil, t: int, k: nat) returns (r: Answer)
    requires Aligned(t) && expr != []
    ensures r == Invalid ==> Quiet(expr, cal, t - k * MINUTE - 1, t)
    ensures r.At? ==> FiresAt(expr, cal, r.time) && t - k * MINUTE <= r.time <= t && Quiet(expr, cal, r.time, t)
    ensures r != Disabled
    decreases k
  {
    if FiresAt(expr, cal, t) {
      r := At(t);
    } else if k == 0 {
      r := Invalid;
    } else {
      r := LatestFire(expr, cal, t - MINUTE, k - 1);
    }
  }

  lemma PreviousExists(expr: seq<Token>, cal: int -> Civil, from: int)
    ensures exists r :: IsPrevious(expr, cal, from, r)
  {
    if expr == [] {
      assert IsPrevious(expr, cal, from, Disabled);
    } else if !Valid(expr) {
      assert IsPrevious(expr, cal, from, Invalid);
    } else {
      var r := LatestFire(expr, cal, Floor(from), 366 * 24 * 60);
      assert IsPrevious(expr, cal, from, r);
    }
  }

  /** Both searches have one right answer. */
  lemma SearchesAgree(expr: seq<Token>, cal: int -> Civil, from: int, r: Answer, s: Answer)
    ensures IsNext(expr, cal, from, r) && IsNext(expr, cal, from, s) ==> r == s
    ensures IsPrevious(expr, cal, from, r) && IsPrevious(expr, cal, from, s) ==> r == s
  {
  }

  /** Advancing from the latest fire never repeats it or an earlier one: it
      gives exactly the fire that follows `from`, unless that one lies beyond
      the horizon of the earlier starting point. */
  lemma NextOfPrevious(expr: seq<Token>, cal: int -> Civil, from: int, p: int, r: Answer, s: Answer)
    requires IsPrevious(expr, cal, from, At(p))
    requires IsNext(expr, cal, p, r) && IsNext(expr, cal, from, s)
    ensures r.At? ==> from < r.time
    ensures r == if s.At? && s.time <= LastMinute(p) then s else Invalid
  {
    FloorIsLatest(from, Floor(p));
  }

  /** Looking back from anywhere between two fires finds the earlier of them,
      and from a fire it finds that fire itself. */
  lemma PreviousOfNext(expr: seq<Token>, cal: int -> Civil, from: int, n: int, x: int, r: Answer)
    requires IsNext(expr, cal, from, At(n))
    requires from <= x && IsPrevious(expr, cal, x, r)
    ensures x == n ==> r == At(n)
    ensures x < n && r.At? ==> r.time <= from
    ensures n <= x && r.At? ==> n <= r.time
  {
  }

  /** A delayed look-back answers with the newest fire it has not passed, so
      no fire within the horizon is older than the answer and still unseen. */
  lemma LookBackCatchesUp(expr: seq<Token>, cal: int -> Civil, m: int, now: int, r: Answer)
    requires expr != [] && Valid(expr)
    requires FiresAt(expr, cal, m) && FirstMinute(now) <= m <= now
    requires IsPrevious(expr, cal, now, r)
    ensures r.At? && m <= r.time <= Floor(now)
  {
    if r.At? {
      FloorIsLatest(now, r.time);
    }
  }

  /** The snapshot tick fires exactly when the look-back answers with the
      current minute: it is the part of the catch-up rule that forgets any
      minute no tick fell into. */
  lemma TickIsTheCurrentFire(expr: seq<Token>, cal: int -> Civil, now: int, next: Answer, previous: Answer)
    requires IsNext(expr, cal, now - MINUTE, next) && IsPrevious(expr, cal, now, previous)
    ensures (next.At? && next.time <= now) <==> previous == At(Floor(now))
  {
    TickNext(expr, cal, now, next);
    if FiresAt(expr, cal, Floor(now)) && Valid(expr) {
      LookBackCatchesUp(expr, cal, Floor(now), now, previous);
    }
  }

  // ---------- runs of ticks ----------

  /** The minutes a run of ticks takes a snapshot for, in order. */
  function Created(expr: seq<Token>, cal: int -> Civil, ticks: seq<int>): seq<int> {
    if ticks == [] then []
    else (if FiresAt(expr, cal, Floor(ticks[0])) then [Floor(ticks[0])] else []) + Created(expr, cal, ticks[1..])
  }

  /** The firing minutes among the n minutes from lo on. */
  function Fires(expr: seq<Token>, cal: int -> Civil, lo: int, n: nat): seq<int>
    decreases n
  {
    if n == 0 then []
    else (if FiresAt(expr, cal, lo) then [lo] else []) + Fires(expr, cal, lo + MINUTE, n - 1)
  }

  ghost predicate OncePerMinute(ticks: seq<int>) {
    forall i, j :: 0 <= i && j == i + 1 < |ticks| ==> Floor(ticks[j]) == Floor(ticks[i]) + MINUTE
  }

  /** With one tick in every minute, the snapshots are exactly the schedule's
      firing minutes, each once. */
  lemma {:induction false} SteadyTicks(expr: seq<Token>, cal: int -> Civil, ticks: seq<int>)
    requires ticks != [] && OncePerMinute(ticks)
    ensures Created(expr, cal, ticks) == Fires(expr, cal, Floor(ticks[0]), |ticks|)
  {
    if |ticks| == 1 {
      assert Created(expr, cal, ticks[1..]) == [];
      assert Fires(expr, cal, Floor(ticks[0]) + MINUTE, 0) == [];
    } else {
      SteadyTicks(expr, cal, ticks[1..]);
    }
  }

  /** Without that assumption: a minute gets one snapshot for every tick that
      falls into it when it fires, and none otherwise. */
  lemma {:induction false} SnapshotsOfMinute(expr: seq<Token>, cal: int -> Civil, ticks: seq<int>, m: int)
    ensures multiset(Created(expr, cal, ticks))[m] ==
            if FiresAt(expr, cal, m) then |TicksIn(ticks, m)| else 0
  {
    if ticks != [] {
      SnapshotsOfMinute(expr, cal, ticks[1..], m);
      var head := if FiresAt(expr, cal, Floor(ticks[0])) then [Floor(ticks[0])] else [];
      assert Created(expr, cal, ticks) == head + Created(expr, cal, ticks[1..]);
      assert multiset(head + Created(expr, cal, ticks[1..])) == multiset(head) + multiset(Created(expr, cal, ticks[1..]));
    }
  }

  function TicksIn(ticks: seq<int>, m: int): seq<int> {
    if ticks == [] then []
    else (if Floor(ticks[0]) == m then [ticks[0]] else []) + TicksIn(ticks[1..], m)
  }

  /** Minutes in which nothing fires contribute nothing. */
  lemma {:induction false} QuietFires(expr: seq<Token>, cal: int -> Civil, lo: int, k: nat, n: nat, t: int)
    requires Aligned(lo) && k <= n && t == lo + k * MINUTE
    requires Quiet(expr, cal, lo - 1, t - 1)
    ensures Fires(expr, cal, lo, n) == Fires(expr, cal, t, n - k)
    decreases k
  {
    if k > 0 {
      QuietFires(expr, cal, lo + MINUTE, k - 1, n - 1, t);
    }
  }

  /** The forward search enumerates the schedule: the first firing minute is
      its answer, and the rest follows from just after that answer. */
  lemma {:induction false} FiresByNext(expr: seq<Token>, cal: int -> Civil, lo: int, k: nat, n: nat, t: int)
    requires Aligned(lo) && k < n && t == lo + k * MINUTE
    requires IsNext(expr, cal, lo - 1, At(t))
    ensures Fires(expr, cal, lo, n) == [t] + Fires(expr, cal, t + MINUTE, n - k - 1)
  {
    QuietFires(expr, cal, lo, k, n, t);
  }
}
