/** Sorting by a strict comparison, as the planners' calls into Go's sort package use it.

  A comparison used for sorting here is always a strict order that tells the elements at hand apart,
  so a sorted sequence is strictly ascending and there is only one such arrangement.
*/
module Sorting {

  /** Irreflexive and transitive. */
  ghost predicate StrictOrder<T(!new)>(less: (T, T) -> bool) {
    && (forall a :: !less(a, a))
    && (forall a, b, c :: less(a, b) && less(b, c) ==> less(a, c))
  }

  /** Any two positions of s hold elements that the comparison can put in order. */
  ghost predicate Distinguishes<T(!new)>(less: (T, T) -> bool, s: seq<T>) {
    forall i, j :: 0 <= i < j < |s| ==> less(s[i], s[j]) || less(s[j], s[i])
  }

  ghost predicate Ascending<T(!new)>(less: (T, T) -> bool, s: seq<T>) {
    forall i, j :: 0 <= i < j < |s| ==> less(s[i], s[j])
  }

  /** Inserts x before the first element it is less than. */
  function Insert<T>(less: (T, T) -> bool, x: T, s: seq<T>): seq<T> {
    if s == [] then [x]
    else if less(x, s[0]) then [x] + s
    else [s[0]] + Insert(less, x, s[1..])
  }

  function SortBy<T>(less: (T, T) -> bool, s: seq<T>): seq<T> {
    if s == [] then [] else Insert(less, s[0], SortBy(less, s[1..]))
  }

  lemma {:induction false} InsertPermutes<T>(less: (T, T) -> bool, x: T, s: seq<T>)
    ensures multiset(Insert(less, x, s)) == multiset{x} + multiset(s)
  {
    if s != [] && !less(x, s[0]) {
      assert s == [s[0]] + s[1..];
      InsertPermutes(less, x, s[1..]);
    }
  }

  /** Sorting permutes. */
  lemma {:induction false} SortPermutes<T>(less: (T, T) -> bool, s: seq<T>)
    ensures multiset(SortBy(less, s)) == multiset(s)
    ensures |SortBy(less, s)| == |s|
  {
    if s != [] {
      assert s == [s[0]] + s[1..];
      SortPermutes(less, s[1..]);
      InsertPermutes(less, s[0], SortBy(less, s[1..]));
    }
    assert |multiset(SortBy(less, s))| == |multiset(s)|;
  }

  lemma InsertMembers<T>(less: (T, T) -> bool, x: T, s: seq<T>)
    ensures forall y :: y in Insert(less, x, s) <==> y == x || y in s
  {
    InsertPermutes(less, x, s);
    forall y
      ensures y in Insert(less, x, s) <==> y == x || y in s
    {
      assert y in Insert(less, x, s) <==> y in multiset(Insert(less, x, s));
      assert y in s <==> y in multiset(s);
    }
  }

  lemma SortMembers<T>(less: (T, T) -> bool, s: seq<T>)
    ensures forall y :: y in SortBy(less, s) <==> y in s
  {
    SortPermutes(less, s);
    forall y
      ensures y in SortBy(less, s) <==> y in s
    {
      assert y in SortBy(less, s) <==> y in multiset(SortBy(less, s));
      assert y in s <==> y in multiset(s);
    }
  }

  lemma {:induction false} InsertAscending<T(!new)>(less: (T, T) -> bool, x: T, s: seq<T>)
    requires StrictOrder(less) && Ascending(less, s)
    requires forall y :: y in s ==> less(x, y) || less(y, x)
    ensures Ascending(less, Insert(less, x, s))
  {
    if s != [] && !less(x, s[0]) {
      var rest := s[1..];
      assert forall y :: y in rest ==> y in s;
      InsertAscending(less, x, rest);
      InsertMembers(less, x, rest);
      var r := Insert(less, x, rest);
      forall k | 0 <= k < |r|
        ensures less(s[0], r[k])
      {
        assert r[k] in r;
        assert s[0] in s;
      }
    }
  }

  /** Sorting a sequence whose elements the comparison tells apart puts them in strictly ascending order. */
  lemma {:induction false} SortAscending<T(!new)>(less: (T, T) -> bool, s: seq<T>)
    requires StrictOrder(less) && Distinguishes(less, s)
    ensures Ascending(less, SortBy(less, s))
  {
    if s != [] {
      var rest := s[1..];
      SortAscending(less, rest);
      SortMembers(less, rest);
      forall y | y in SortBy(less, rest)
        ensures less(s[0], y) || less(y, s[0])
      {
        var k :| 0 <= k < |rest| && rest[k] == y;
        assert y == s[k + 1];
      }
      InsertAscending(less, s[0], SortBy(less, rest));
    }
  }

  /** There is one strictly ascending arrangement of a given collection of elements. */
  lemma {:induction false} AscendingUnique<T(!new)>(less: (T, T) -> bool, a: seq<T>, b: seq<T>)
    requires StrictOrder(less) && Ascending(less, a) && Ascending(less, b)
    requires forall x :: x in a <==> x in b
    ensures a == b
  {
    assert a != [] ==> a[0] in a;
    assert b != [] ==> b[0] in b;
    if a != [] && b != [] {
      var i :| 0 <= i < |b| && b[i] == a[0];
      var j :| 0 <= j < |a| && a[j] == b[0];
      assert a[0] == b[0];
      forall x
        ensures x in a[1..] <==> x in b[1..]
      {
        if x in a[1..] {
          var k :| 0 <= k < |a[1..]| && a[1..][k] == x;
          assert a[k + 1] == x && x in a && less(a[0], x);
          var m :| 0 <= m < |b| && b[m] == x;
          assert b[1..][m - 1] == x;
        }
        if x in b[1..] {
          var k :| 0 <= k < |b[1..]| && b[1..][k] == x;
          assert b[k + 1] == x && x in b && less(b[0], x);
          var m :| 0 <= m < |a| && a[m] == x;
          assert a[1..][m - 1] == x;
        }
      }
      AscendingUnique(less, a[1..], b[1..]);
      assert a == [a[0]] + a[1..] && b == [b[0]] + b[1..];
    }
  }

  lemma AscendingConcat<T(!new)>(less: (T, T) -> bool, p: seq<T>, f: seq<T>)
    requires Ascending(less, p) && Ascending(less, f) && forall x, y :: x in p && y in f ==> less(x, y)
    ensures Ascending(less, p + f)
  {
  }

  /** The order in which elements arrive does not change the sorted sequence. */
  lemma SortIgnoresOrder<T(!new)>(less: (T, T) -> bool, a: seq<T>, b: seq<T>)
    requires StrictOrder(less) && Distinguishes(less, a) && Distinguishes(less, b)
    requires forall x :: x in a <==> x in b
    ensures SortBy(less, a) == SortBy(less, b)
  {
    SortAscending(less, a);
    SortAscending(less, b);
    SortMembers(less, a);
    SortMembers(less, b);
    AscendingUnique(less, SortBy(less, a), SortBy(less, b));
  }

  ghost predicate NoDuplicates<T>(s: seq<T>) {
    forall i, j :: 0 <= i < j < |s| ==> s[i] != s[j]
  }

  lemma {:induction false} NoDuplicatesMultiset<T>(s: seq<T>)
    ensures NoDuplicates(s) <==> forall x :: multiset(s)[x] <= 1
  {
    if s != [] {
      var init, last := s[..|s| - 1], s[|s| - 1];
      assert s == init + [last];
      NoDuplicatesMultiset(init);
      if NoDuplicates(s) {
        assert last !in init;
      } else if NoDuplicates(init) {
        var i, j :| 0 <= i < j < |s| && s[i] == s[j];
        assert init[i] == last;
        assert last in init;
        assert multiset(s)[last] > 1;
      } else {
        var x :| multiset(init)[x] > 1;
        assert multiset(s)[x] > 1;
      }
    }
  }

  /** The elements of a sequence without the one at position k. */
  lemma MultisetWithout<T>(s: seq<T>, k: nat)
    requires k < |s|
    ensures multiset(s) == multiset(s[..k] + s[k + 1..]) + multiset{s[k]}
  {
    assert s == s[..k] + ([s[k]] + s[k + 1..]);
    assert multiset(s) == multiset(s[..k]) + multiset([s[k]] + s[k + 1..]);
  }

  /** Where the first element of a sequence sits in a permutation of it. */
  lemma MatchFirst<T>(a: seq<T>, b: seq<T>) returns (k: nat)
    requires a != [] && multiset(a) == multiset(b)
    ensures k < |b| && b[k] == a[0]
    ensures multiset(a[1..]) == multiset(b[..k] + b[k + 1..])
  {
    assert a[0] in multiset(b);
    k :| 0 <= k < |b| && b[k] == a[0];
    MultisetWithout(a, 0);
    MultisetWithout(b, k);
    assert a[..0] + a[0 + 1..] == a[1..];
    assert multiset(a[1..]) == multiset(a) - multiset{a[0]};
    assert multiset(b[..k] + b[k + 1..]) == multiset(b) - multiset{b[k]};
  }

  /** A permutation of elements told apart is still told apart. */
  lemma DistinguishesPermutation<T(!new)>(less: (T, T) -> bool, a: seq<T>, b: seq<T>)
    requires StrictOrder(less) && Distinguishes(less, a) && multiset(a) == multiset(b)
    ensures Distinguishes(less, b)
  {
    NoDuplicatesMultiset(a);
    NoDuplicatesMultiset(b);
    forall i, j | 0 <= i < j < |b|
      ensures less(b[i], b[j]) || less(b[j], b[i])
    {
      assert b[i] in multiset(b) && b[j] in multiset(b);
      var p :| 0 <= p < |a| && a[p] == b[i];
      var q :| 0 <= q < |a| && a[q] == b[j];
    }
  }
}
