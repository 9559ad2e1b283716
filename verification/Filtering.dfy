/** Keeping the elements of a sequence that satisfy a test, in their order. */
module Filtering {
  import opened Sorting

  function Filter<T>(s: seq<T>, keep: T -> bool): seq<T> {
    if s == [] then [] else if keep(s[0]) then [s[0]] + Filter(s[1..], keep) else Filter(s[1..], keep)
  }

  lemma {:induction false} FilterMembers<T>(s: seq<T>, keep: T -> bool)
    ensures forall x :: x in Filter(s, keep) <==> x in s && keep(x)
    ensures |Filter(s, keep)| <= |s|
  {
    if s != [] { FilterMembers(s[1..], keep); }
  }

  lemma {:induction false} FilterConcat<T>(a: seq<T>, b: seq<T>, keep: T -> bool)
    ensures Filter(a + b, keep) == Filter(a, keep) + Filter(b, keep)
  {
    if a == [] {
      assert a + b == b;
    } else {
      assert (a + b)[1..] == a[1..] + b;
      FilterConcat(a[1..], b, keep);
    }
  }

  /** Filtering one element more. */
  lemma FilterNext<T>(s: seq<T>, i: nat, keep: T -> bool)
    requires i < |s|
    ensures Filter(s[..i + 1], keep) == Filter(s[..i], keep) + (if keep(s[i]) then [s[i]] else [])
  {
    assert s[..i + 1] == s[..i] + [s[i]];
    FilterConcat(s[..i], [s[i]], keep);
    assert [s[i]][1..] == [];
  }

  lemma {:induction false} FilterAscending<T(!new)>(less: (T, T) -> bool, s: seq<T>, keep: T -> bool)
    requires Ascending(less, s)
    ensures Ascending(less, Filter(s, keep))
  {
    if s != [] {
      FilterAscending(less, s[1..], keep);
      FilterMembers(s[1..], keep);
      var r := Filter(s[1..], keep);
      forall j | 0 <= j < |r|
        ensures less(s[0], r[j])
      {
        assert r[j] in r && r[j] in s[1..];
      }
    }
  }

  /** Filtering twice keeps no more than filtering once. */
  lemma {:induction false} FilterFewer<T>(s: seq<T>, first: T -> bool, keep: T -> bool)
    ensures |Filter(Filter(s, first), keep)| <= |Filter(s, keep)|
  {
    if s != [] {
      FilterFewer(s[1..], first, keep);
      if first(s[0]) {
        assert ([s[0]] + Filter(s[1..], first))[1..] == Filter(s[1..], first);
      }
    }
  }

  lemma {:induction false} FilterAll<T>(s: seq<T>, keep: T -> bool)
    requires forall x :: x in s ==> keep(x)
    ensures Filter(s, keep) == s
  {
    if s != [] { FilterAll(s[1..], keep); }
  }

  lemma {:induction false} FilterNone<T>(s: seq<T>, keep: T -> bool)
    requires forall x :: x in s ==> !keep(x)
    ensures Filter(s, keep) == []
  {
    if s != [] { FilterNone(s[1..], keep); }
  }

  lemma {:induction false} FilterTwice<T>(s: seq<T>, p: T -> bool, q: T -> bool, both: T -> bool)
    requires forall x :: x in s ==> (both(x) <==> p(x) && q(x))
    ensures Filter(Filter(s, p), q) == Filter(s, both)
  {
    if s != [] {
      FilterTwice(s[1..], p, q, both);
      if p(s[0]) {
        assert ([s[0]] + Filter(s[1..], p))[1..] == Filter(s[1..], p);
      }
    }
  }

  lemma {:induction false} FilterAgrees<T>(s: seq<T>, p: T -> bool, q: T -> bool)
    requires forall x :: x in s ==> (p(x) <==> q(x))
    ensures Filter(s, p) == Filter(s, q)
  {
    if s != [] { FilterAgrees(s[1..], p, q); }
  }

  /** In an ascending sequence, what is greater than the i-th element are those behind it. */
  lemma FilterBehind<T(!new)>(less: (T, T) -> bool, s: seq<T>, i: nat, behind: T -> bool)
    requires StrictOrder(less) && Ascending(less, s) && i < |s|
    requires forall y :: y in s ==> (behind(y) <==> less(s[i], y))
    ensures |Filter(s, behind)| == |s| - 1 - i
  {
    assert s == s[..i + 1] + s[i + 1..];
    FilterConcat(s[..i + 1], s[i + 1..], behind);
    FilterNone(s[..i + 1], behind);
    FilterAll(s[i + 1..], behind);
  }
}
