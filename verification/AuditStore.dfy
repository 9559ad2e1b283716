/** The order in which a node's store serves its audit log: by the text of the timestamp and then by row, both
    descending. The text drops trailing zeros of the fraction, so it does not sort like the time it shows. */
module AuditStore {
  import opened Sorting
  import opened StringOrder
  import opened Merging
  import opened AuditPaging
  import opened AuditMerge

  const NANOS: nat := 1_000_000_000
  const MILLI: nat := 1_000_000

  /** A stored event; `second` counts seconds and `nanos` the rest. Row ids are unique. */
  datatype Row = Row(second: int, nanos: nat, rowId: int, auditId: string, action: string)

  predicate ValidRow(r: Row) { r.nanos < NANOS }

  function Digit(d: nat): char
    requires d < 10
  {
    '0' + d as char
  }

  function Pow10(k: nat): nat { if k == 0 then 1 else 10 * Pow10(k - 1) }

  /** The digits of n as a fraction of 10^k, without trailing zeros. */
  function Fraction(n: nat, k: nat): string
    requires n < Pow10(k)
  {
    if n == 0 then ""
    else
      LeadingDigit(n, k);
      [Digit(n / Pow10(k - 1))] + Fraction(n % Pow10(k - 1), k - 1)
  }

  lemma LeadingDigit(n: nat, k: nat)
    requires 0 < n < Pow10(k)
    ensures k > 0 && Pow10(k - 1) > 0 && n / Pow10(k - 1) < 10 && n % Pow10(k - 1) < Pow10(k - 1)
    ensures n == n / Pow10(k - 1) * Pow10(k - 1) + n % Pow10(k - 1)
  {
    Pow10Positive(k - 1);
    DivisionBounds(n, Pow10(k - 1));
  }

  lemma DivisionBounds(n: nat, p: nat)
    requires p > 0 && n < 10 * p
    ensures n / p < 10 && n % p < p && n == n / p * p + n % p
  {
  }

  lemma {:induction false} Pow10Positive(k: nat)
    ensures Pow10(k) > 0
  {
    if k > 0 {
      Pow10Positive(k - 1);
    }
  }

  lemma NineDigits()
    ensures Pow10(9) == NANOS
  {
    assert Pow10(3) == 1000;
    assert Pow10(6) == 1000 * Pow10(3);
    assert Pow10(9) == 1000 * Pow10(6);
  }

  /** The text after the seconds, as RFC3339Nano writes it. */
  function Tail(r: Row): string
    requires ValidRow(r)
  {
    NineDigits();
    (if r.nanos == 0 then "" else ".") + Fraction(r.nanos, 9) + "Z"
  }

  /** Texts up to the seconds have one width and sort like the seconds. */
  predicate TextLess(a: Row, b: Row)
    requires ValidRow(a) && ValidRow(b)
  {
    if a.second != b.second then a.second < b.second else StrLess(Tail(a), Tail(b))
  }

  /** ORDER BY timestamp DESC, rowid DESC. */
  predicate ServedBefore(a: Row, b: Row) {
    ValidRow(a) && ValidRow(b) && (TextLess(b, a) || (a.second == b.second && Tail(a) == Tail(b) && a.rowId > b.rowId))
  }

  function EntryOf(r: Row, source: string): Entry {
    Entry(r.second * 1000 + r.nanos / MILLI, source, r.auditId, r.action)
  }

  /** The log in the order the store serves it. */
  function Served(rows: seq<Row>, source: string): seq<Entry> {
    var s := SortBy(ServedBefore, rows);
    seq(|s|, i requires 0 <= i < |s| => EntryOf(s[i], source))
  }

  // ---- text order and time order ---------------------------------------------------------------------------

  lemma DigitLess(a: nat, b: nat)
    requires a < 10 && b < 10
    ensures Digit(a) < Digit(b) <==> a < b
    ensures '.' < Digit(a) < 'Z'
  {
  }

  lemma SmallerHead(a: nat, b: nat, p: nat)
    requires p > 0 && a < b
    ensures a / p <= b / p
    ensures a / p == b / p ==> a % p < b % p
  {
    DivisionIs(a, p);
    DivisionIs(b, p);
    ProductGrows(b / p, a / p, p);
  }

  lemma DivisionIs(n: nat, p: nat)
    requires p > 0
    ensures n == n / p * p + n % p && n % p < p
  {
  }

  lemma {:induction false} ProductGrows(x: nat, y: nat, p: nat)
    ensures x < y ==> x * p + p <= y * p
    decreases y
  {
    if x < y {
      assert y * p == (y - 1) * p + p;
      ProductGrows(x, y - 1, p);
    }
  }

  /** Leading digits and what follows them, of two fractions. */
  lemma Heads(a: nat, b: nat, k: nat) returns (da: nat, ra: nat, db: nat, rb: nat)
    requires 0 < a < b < Pow10(k)
    ensures k > 0 && ra < Pow10(k - 1) && rb < Pow10(k - 1) && da < 10 && db < 10
    ensures Fraction(a, k) == [Digit(da)] + Fraction(ra, k - 1) && Fraction(b, k) == [Digit(db)] + Fraction(rb, k - 1)
    ensures da < db || (da == db && ra < rb)
  {
    LeadingDigit(a, k);
    LeadingDigit(b, k);
    var p := Pow10(k - 1);
    SmallerHead(a, b, p);
    da, ra, db, rb := a / p, a % p, b / p, b % p;
  }

  lemma HeadOf(b: nat, k: nat) returns (db: nat, rb: nat)
    requires 0 < b < Pow10(k)
    ensures k > 0 && rb < Pow10(k - 1) && db < 10 && Fraction(b, k) == [Digit(db)] + Fraction(rb, k - 1)
  {
    LeadingDigit(b, k);
    db, rb := b / Pow10(k - 1), b % Pow10(k - 1);
  }

  /** Followed by the zone letter, x sorts below y unless y goes on from x; then it sorts above. */
  predicate Ordered(x: string, y: string) {
    !(y <= x) && if x <= y then StrLess(y + "Z", x + "Z") else StrLess(x + "Z", y + "Z")
  }

  lemma OrderedHead(c: char, x: string, d: char, y: string)
    requires c < d || (c == d && Ordered(x, y))
    ensures Ordered([c] + x, [d] + y)
  {
    var s, t := [c] + x, [d] + y;
    assert s + "Z" == [c] + (x + "Z") && t + "Z" == [d] + (y + "Z");
    assert (s + "Z")[1..] == x + "Z" && (t + "Z")[1..] == y + "Z";
    assert s[0] == c && t[0] == d && s[1..] == x && t[1..] == y;
    assert s <= t <==> c == d && x <= y;
    assert t <= s <==> c == d && y <= x;
  }

  lemma OrderedEmpty(d: char, y: string)
    requires d < 'Z'
    ensures Ordered("", [d] + y)
  {
    assert ([d] + y + "Z")[0] == d && ("" + "Z")[0] == 'Z';
  }

  /** Of two fractions, the smaller has the smaller text exactly when its digits do not continue in the other's. */
  lemma {:induction false} FractionOrder(a: nat, b: nat, k: nat)
    requires a < b < Pow10(k)
    ensures Ordered(Fraction(a, k), Fraction(b, k))
    decreases k
  {
    if a == 0 {
      var db, rb := HeadOf(b, k);
      DigitLess(db, db);
      OrderedEmpty(Digit(db), Fraction(rb, k - 1));
    } else {
      var da, ra, db, rb := Heads(a, b, k);
      DigitLess(da, db);
      if da == db {
        FractionOrder(ra, rb, k - 1);
      }
      OrderedHead(Digit(da), Fraction(ra, k - 1), Digit(db), Fraction(rb, k - 1));
    }
  }

  /** The digits of the earlier row's fraction are the first digits of the later row's, as .5 in .57. */
  predicate Continues(early: Row, late: Row)
    requires ValidRow(early) && ValidRow(late)
  {
    NineDigits();
    early.second == late.second && early.nanos < late.nanos && Fraction(early.nanos, 9) <= Fraction(late.nanos, 9)
  }

  predicate Earlier(a: Row, b: Row) { a.second < b.second || (a.second == b.second && a.nanos < b.nanos) }

  /** The text follows the time exactly unless the earlier fraction's digits continue in the later one's. */
  lemma TextOrder(a: Row, b: Row)
    requires ValidRow(a) && ValidRow(b) && Earlier(a, b)
    ensures TextLess(a, b) <==> !Continues(a, b)
    ensures TextLess(b, a) <==> Continues(a, b)
    ensures a.second == b.second ==> Tail(a) != Tail(b)
  {
    if a.second == b.second {
      TailOrder(a, b);
      StrLessAsymmetric(Tail(a), Tail(b));
    }
  }

  lemma StrLessAsymmetric(a: string, b: string)
    ensures !(StrLess(a, b) && StrLess(b, a)) && !StrLess(a, a)
  {
    StrLessIsOrder();
  }

  lemma TailOrder(a: Row, b: Row)
    requires ValidRow(a) && ValidRow(b) && a.nanos < b.nanos && a.second == b.second
    ensures if Continues(a, b) then StrLess(Tail(b), Tail(a)) else StrLess(Tail(a), Tail(b))
  {
    NineDigits();
    var x, y := Fraction(a.nanos, 9), Fraction(b.nanos, 9);
    FractionOrder(a.nanos, b.nanos, 9);
    if a.nanos == 0 {
      OrderedEmpty('.', y);
    } else {
      OrderedHead('.', x, '.', y);
      assert "." + x <= "." + y <==> x <= y by {
        assert ("." + x)[1..] == x && ("." + y)[1..] == y;
      }
    }
  }

  // ---- the served log --------------------------------------------------------------------------------------

  /** A node's rows: every nanosecond count is one, and row ids and audit ids are unique. */
  ghost predicate ValidRows(rows: seq<Row>) {
    && (forall i :: 0 <= i < |rows| ==> ValidRow(rows[i]))
    && (forall i, j :: 0 <= i < j < |rows| ==> rows[i].rowId != rows[j].rowId && rows[i].auditId != rows[j].auditId)
  }

  /** Written earlier, or in the same nanosecond into an earlier row. */
  predicate OlderRow(a: Row, b: Row) {
    Earlier(a, b) || (a.second == b.second && a.nanos == b.nanos && a.rowId < b.rowId)
  }

  /** The store and the merge agree which of the two, the older one first named, comes first: in different
      milliseconds if the older fraction does not continue in the newer one's, in one millisecond if the one
      the store puts first has the smaller audit id. */
  predicate Agree(a: Row, b: Row)
    requires ValidRow(a) && ValidRow(b)
  {
    if EntryOf(a, "").ts != EntryOf(b, "").ts then !Continues(a, b)
    else if Continues(a, b) then StrLess(a.auditId, b.auditId)
    else StrLess(b.auditId, a.auditId)
  }

  /** Of two rows the store serves the newer first, except when the older one's fraction continues in it. */
  lemma ServedPair(a: Row, b: Row)
    requires ValidRow(a) && ValidRow(b) && OlderRow(a, b)
    ensures if Continues(a, b) then ServedBefore(a, b) && !ServedBefore(b, a) else ServedBefore(b, a) && !ServedBefore(a, b)
  {
    if Earlier(a, b) {
      TextOrder(a, b);
    } else {
      StrLessAsymmetric(Tail(a), Tail(b));
    }
  }

  lemma MillisecondsFollow(a: Row, b: Row)
    requires ValidRow(a) && ValidRow(b) && OlderRow(a, b)
    ensures EntryOf(a, "").ts <= EntryOf(b, "").ts
  {
    assert a.nanos / MILLI < 1000 && b.nanos / MILLI < 1000;
    if a.second == b.second {
      assert a.nanos / MILLI <= b.nanos / MILLI;
    }
  }

  lemma AgreeMeans(a: Row, b: Row, source: string)
    requires ValidRow(a) && ValidRow(b) && OlderRow(a, b)
    ensures Agree(a, b) <==>
            if Continues(a, b) then EntryLess(EntryOf(a, source), EntryOf(b, source))
            else EntryLess(EntryOf(b, source), EntryOf(a, source))
  {
    MillisecondsFollow(a, b);
  }

  lemma ServedBeforeIsOrder()
    ensures StrictOrder(ServedBefore)
  {
    StrLessIsOrder();
  }

  lemma RowsDistinguished(rows: seq<Row>)
    requires ValidRows(rows)
    ensures Distinguishes(ServedBefore, rows)
  {
    forall i, j | 0 <= i < |rows| && 0 <= j < |rows| && i != j
      ensures ServedBefore(rows[i], rows[j]) || ServedBefore(rows[j], rows[i])
    {
      assert rows[i].rowId != rows[j].rowId;
      if OlderRow(rows[i], rows[j]) {
        ServedPair(rows[i], rows[j]);
      } else {
        ServedPair(rows[j], rows[i]);
      }
    }
  }

  /** Sorting permutes the rows and puts them in the order they are served. */
  lemma ServedFacts(rows: seq<Row>, source: string)
    requires ValidRows(rows)
    ensures
      var s := SortBy(ServedBefore, rows);
      Ascending(ServedBefore, s) && ValidRows(s) && (forall r :: r in s <==> r in rows) && UniqueIds(Served(rows, source))
  {
    var s := SortBy(ServedBefore, rows);
    ServedBeforeIsOrder();
    RowsDistinguished(rows);
    SortAscending(ServedBefore, rows);
    SortMembers(ServedBefore, rows);
    AscendingRowsValid(s, rows);
  }

  lemma AscendingRowsValid(s: seq<Row>, rows: seq<Row>)
    requires ValidRows(rows) && Ascending(ServedBefore, s) && forall r :: r in s ==> r in rows
    ensures ValidRows(s)
  {
    ServedBeforeIsOrder();
    forall i, j | 0 <= i < j < |s| ensures s[i].rowId != s[j].rowId && s[i].auditId != s[j].auditId {
      assert s[i] in s && s[j] in s && ServedBefore(s[i], s[j]);
      var k :| 0 <= k < |rows| && rows[k] == s[i];
      var m :| 0 <= m < |rows| && rows[m] == s[j];
      assert k != m;
    }
    forall i | 0 <= i < |s| ensures ValidRow(s[i]) {
      assert s[i] in s;
    }
  }

  ghost predicate AllAgree(rows: seq<Row>) {
    forall a, b :: a in rows && b in rows && ValidRow(a) && ValidRow(b) && OlderRow(a, b) ==> Agree(a, b)
  }

  /** The served log is in the merge's order exactly when the two orders agree on every pair of rows. */
  lemma ServedInOrder(rows: seq<Row>, source: string)
    requires ValidRows(rows)
    ensures Ascending(EntryLess, Served(rows, source)) <==> AllAgree(rows)
  {
    ServedFacts(rows, source);
    var s, log := SortBy(ServedBefore, rows), Served(rows, source);
    if AllAgree(rows) {
      forall i, j | 0 <= i < j < |log| ensures EntryLess(log[i], log[j]) {
        assert s[i] in s && s[j] in s && ServedBefore(s[i], s[j]);
        ServedAgree(s[i], s[j], source);
      }
    }
    if Ascending(EntryLess, log) {
      forall a, b | a in rows && b in rows && ValidRow(a) && ValidRow(b) && OlderRow(a, b) ensures Agree(a, b) {
        ServedPair(a, b);
        AgreeMeans(a, b, source);
        var i :| 0 <= i < |s| && s[i] == a;
        var j :| 0 <= j < |s| && s[j] == b;
        assert log[i] == EntryOf(a, source) && log[j] == EntryOf(b, source);
        assert i < j ==> ServedBefore(a, b);
        assert j < i ==> ServedBefore(b, a);
        assert i != j;
      }
    }
  }

  predicate PairAgrees(a: Row, b: Row)
    requires ValidRow(a) && ValidRow(b)
  {
    if OlderRow(a, b) then Agree(a, b) else Agree(b, a)
  }

  /** Of two rows, the one served first comes first in the merge exactly if the two orders agree on them. */
  lemma ServedAgree(a: Row, b: Row, source: string)
    requires ValidRow(a) && ValidRow(b) && ServedBefore(a, b) && a.rowId != b.rowId
    ensures EntryLess(EntryOf(a, source), EntryOf(b, source)) <==> PairAgrees(a, b)
  {
    if OlderRow(a, b) {
      ServedPair(a, b);
      AgreeMeans(a, b, source);
    } else {
      ServedPair(b, a);
      AgreeMeans(b, a, source);
    }
  }

  /** Store and merge agree on every two rows that are served with the end of a page between them. */
  ghost predicate AgreeAcrossPages(rows: seq<Row>) {
    var s := SortBy(ServedBefore, rows);
    forall x, y, n: nat :: 0 <= x < n <= y < |s| && EndsAt(n) && ValidRow(s[x]) && ValidRow(s[y]) ==> PairAgrees(s[x], s[y])
  }

  /** Every page of one node's log that can be asked for is right exactly when store and merge agree on every two
      of its rows that have the end of a page between them. */
  lemma ServedPagesExact(rows: seq<Row>, source: string)
    requires ValidRows(rows)
    ensures EveryPageIsRight([Served(rows, source)]) <==> AgreeAcrossPages(rows)
  {
    ServedFacts(rows, source);
    var s, log := SortBy(ServedBefore, rows), Served(rows, source);
    SingleLogExact(log);
    forall x, y | 0 <= x < y < |s| ensures EntryLess(log[x], log[y]) <==> PairAgrees(s[x], s[y]) {
      ServedAgree(s[x], s[y], source);
    }
  }

  /** Up to one more row than fits on a page that means: when they agree on every two rows. */
  lemma ShortServedExact(rows: seq<Row>, source: string)
    requires ValidRows(rows) && |rows| <= MAX_LIMIT + 1
    ensures EveryPageIsRight([Served(rows, source)]) <==> AllAgree(rows)
  {
    ServedFacts(rows, source);
    SortPermutes(ServedBefore, rows);
    ServedInOrder(rows, source);
    ShortLogExact(Served(rows, source));
  }

  /** Timestamps of one written width: the store serves different milliseconds newest first. */
  lemma EqualWidthsAgree(a: Row, b: Row)
    requires ValidRow(a) && ValidRow(b) && OlderRow(a, b) && |Tail(a)| == |Tail(b)|
    ensures !Continues(a, b)
    ensures EntryOf(a, "").ts != EntryOf(b, "").ts ==> Agree(a, b)
  {
    NineDigits();
    if Continues(a, b) {
      FractionOrder(a.nanos, b.nanos, 9);
    }
  }

  /** Half a second apart and served in the wrong order, because the older timestamp has no fraction: pages of one
      entry show the older event twice and the newer one never. */
  lemma DroppedZerosRepeat()
    ensures
      var rows := [Row(5, 0, 1, "a", "start"), Row(5, 500_000_000, 2, "b", "stop")];
      var older, newer := Entry(5000, "n", "a", "start"), Entry(5500, "n", "b", "stop");
      var logs := [Served(rows, "n")];
      && ValidRows(rows) && !AllAgree(rows) && logs == [[older, newer]] && FullOrder(logs) == [newer, older]
      && MergedPage(logs, 1, 0, 1) == [older] && MergedPage(logs, 2, 1, 1) == [older]
  {
    var older, newer := Entry(5000, "n", "a", "start"), Entry(5500, "n", "b", "stop");
    DroppedZerosServed();
    TwoOutOfOrder(older, newer);
  }

  lemma DroppedZerosServed()
    ensures
      var rows := [Row(5, 0, 1, "a", "start"), Row(5, 500_000_000, 2, "b", "stop")];
      ValidRows(rows) && !AllAgree(rows) &&
      Served(rows, "n") == [Entry(5000, "n", "a", "start"), Entry(5500, "n", "b", "stop")]
  {
    var a, b := Row(5, 0, 1, "a", "start"), Row(5, 500_000_000, 2, "b", "stop");
    var rows := [a, b];
    assert a in rows && b in rows && Continues(a, b);
    ServedPair(a, b);
    assert SortBy(ServedBefore, [b]) == [b];
    assert SortBy(ServedBefore, rows) == [a, b];
    assert !Agree(a, b);
  }
}
