/** Windows cut from an ascending selection of an ascending list. */
module Merging {
  import opened Sorting

  function Min(a: int, b: int): int { if a <= b then a else b }

  function SlicePage<T>(entries: seq<T>, offset: nat, limit: nat): seq<T> {
    if offset >= |entries| then [] else entries[offset..Min(offset + limit, |entries|)]
  }

  function Take<T>(log: seq<T>, n: nat): seq<T> { log[..Min(n, |log|)] }

  ghost predicate Within<T>(s: seq<T>, f: seq<T>) { forall x :: x in s ==> x in f }

  lemma LessMeansEarlier<T(!new)>(less: (T, T) -> bool, f: seq<T>, q: nat, r: nat)
    requires StrictOrder(less) && Ascending(less, f)
    requires q < |f| && r < |f| && less(f[q], f[r])
    ensures q < r
  {
  }

  /** An ascending selection from an ascending list runs no faster than the list. */
  lemma {:induction false} RankAtLeast<T(!new)>(less: (T, T) -> bool, s: seq<T>, f: seq<T>, i: nat, r: nat)
    requires StrictOrder(less) && Ascending(less, s) && Ascending(less, f) && Within(s, f)
    requires i < |s| && r < |f| && s[i] == f[r]
    ensures i <= r
  {
    if i > 0 {
      assert s[i - 1] in f;
      var q :| 0 <= q < |f| && f[q] == s[i - 1];
      LessMeansEarlier(less, f, q, r);
      RankAtLeast(less, s, f, i - 1, q);
    }
  }

  /** Beyond an element it leaves out, the selection lags by at least one. */
  lemma {:induction false} RankBeyondGap<T(!new)>(less: (T, T) -> bool, s: seq<T>, f: seq<T>, t: nat, i: nat, r: nat)
    requires StrictOrder(less) && Ascending(less, s) && Ascending(less, f) && Within(s, f)
    requires i < |s| && t < r < |f| && s[i] == f[r] && f[t] !in s
    ensures i < r
  {
    if i > 0 {
      assert s[i - 1] in f;
      var q :| 0 <= q < |f| && f[q] == s[i - 1];
      LessMeansEarlier(less, f, q, r);
      assert s[i - 1] in s;
      if q > t {
        RankBeyondGap(less, s, f, t, i - 1, q);
      } else {
        RankAtLeast(less, s, f, i - 1, q);
      }
    }
  }

  lemma {:induction false} SameUpTo<T(!new)>(less: (T, T) -> bool, s: seq<T>, f: seq<T>, k: nat)
    requires StrictOrder(less) && Ascending(less, s) && Ascending(less, f) && Within(s, f)
    requires k <= |f| && forall i :: 0 <= i < k ==> f[i] in s
    ensures k <= |s| && forall i :: 0 <= i < k ==> s[i] == f[i]
  {
    if k > 0 {
      var last := k - 1;
      SameUpTo(less, s, f, last);
      var j :| 0 <= j < |s| && s[j] == f[last];
      RankAtLeast(less, s, f, j, last);
    }
  }

  lemma PrefixAgrees<T(!new)>(less: (T, T) -> bool, s: seq<T>, f: seq<T>, k: nat)
    requires StrictOrder(less) && Ascending(less, s) && Ascending(less, f) && Within(s, f)
    requires k <= |f| && forall x :: x in f[..k] ==> x in s
    ensures k <= |s| && s[..k] == f[..k]
  {
    forall i | 0 <= i < k ensures f[i] in s { assert f[i] in f[..k]; }
    SameUpTo(less, s, f, k);
  }

  lemma SelectionShorter<T(!new)>(less: (T, T) -> bool, s: seq<T>, f: seq<T>)
    requires StrictOrder(less) && Ascending(less, s) && Ascending(less, f) && Within(s, f)
    ensures |s| <= |f|
  {
    if s != [] {
      assert s[|s| - 1] in s;
      var r :| 0 <= r < |f| && f[r] == s[|s| - 1];
      RankAtLeast(less, s, f, |s| - 1, r);
    }
  }

  /** A window cut from a selection equals the window of the whole list exactly when the selection
      holds everything up to the window's end. */
  lemma WindowExact<T(!new)>(less: (T, T) -> bool, s: seq<T>, f: seq<T>, n: nat, offset: nat, limit: nat)
    requires StrictOrder(less) && Ascending(less, s) && Ascending(less, f) && Within(s, f)
    requires limit > 0 && n == offset + limit
    requires (exists t :: 0 <= t < n && t < |f| && f[t] !in s) ==> |s| >= n
    ensures SlicePage(s, offset, limit) == SlicePage(f, offset, limit)
            <==> forall t :: 0 <= t < n && t < |f| ==> f[t] in s
  {
    if t :| 0 <= t < n && t < |f| && f[t] !in s {
      GapShifts(less, s, f, n, offset, limit, t);
    } else {
      PrefixAgrees(less, s, f, Min(n, |f|));
      SelectionShorter(less, s, f);
      SamePrefixSamePage(s, f, n, offset, limit);
    }
  }

  lemma GapShifts<T(!new)>(less: (T, T) -> bool, s: seq<T>, f: seq<T>, n: nat, offset: nat, limit: nat, t: nat)
    requires StrictOrder(less) && Ascending(less, s) && Ascending(less, f) && Within(s, f)
    requires limit > 0 && n == offset + limit <= |s| && t < n && t < |f| && f[t] !in s
    ensures SlicePage(s, offset, limit) != SlicePage(f, offset, limit)
  {
    SelectionShorter(less, s, f);
    var last := n - 1;
    PageOfPrefix(s, n, offset, limit);
    PageOfPrefix(f, n, offset, limit);
    assert s[..n][offset..][limit - 1] == s[last] && f[..n][offset..][limit - 1] == f[last];
    assert s[last] in s;
    if s[last] == f[last] {
      RankBeyondGap(less, s, f, t, last, last);
    }
  }

  lemma PageOfPrefix<T>(s: seq<T>, n: nat, offset: nat, limit: nat)
    requires n == offset + limit <= |s|
    ensures SlicePage(s, offset, limit) == s[..n][offset..]
  {
  }

  lemma SamePrefixSamePage<T>(s: seq<T>, f: seq<T>, n: nat, offset: nat, limit: nat)
    requires n == offset + limit && Min(n, |f|) <= |s| <= |f| && s[..Min(n, |f|)] == f[..Min(n, |f|)]
    ensures SlicePage(s, offset, limit) == SlicePage(f, offset, limit)
  {
    if |f| >= n {
      PageOfPrefix(s, n, offset, limit);
      PageOfPrefix(f, n, offset, limit);
    } else {
      assert s == s[..|f|] && f == f[..|f|];
    }
  }

  /** Counting up to a window's end tells whether the whole list goes on beyond it. */
  lemma WindowEndExact<T(!new)>(less: (T, T) -> bool, s: seq<T>, f: seq<T>, n: nat, offset: nat, limit: nat)
    requires StrictOrder(less) && Ascending(less, s) && Ascending(less, f) && Within(s, f)
    requires limit > 0 && n == offset + limit
    requires (exists t :: 0 <= t < n && t < |f| && f[t] !in s) ==> |s| >= n && |f| > n
    ensures offset + |SlicePage(s, offset, limit)| < |f| <==> n < |f|
  {
    SelectionShorter(less, s, f);
    if !exists t :: 0 <= t < n && t < |f| && f[t] !in s {
      PrefixAgrees(less, s, f, Min(n, |f|));
    }
  }

  /** Under the same condition the two windows are equally long. */
  lemma WindowLength<T(!new)>(less: (T, T) -> bool, s: seq<T>, f: seq<T>, n: nat, offset: nat, limit: nat)
    requires StrictOrder(less) && Ascending(less, s) && Ascending(less, f) && Within(s, f)
    requires limit > 0 && n == offset + limit
    requires (exists t :: 0 <= t < n && t < |f| && f[t] !in s) ==> |s| >= n && |f| > n
    ensures |SlicePage(s, offset, limit)| == |SlicePage(f, offset, limit)|
  {
    SelectionShorter(less, s, f);
    if !exists t :: 0 <= t < n && t < |f| && f[t] !in s {
      PrefixAgrees(less, s, f, Min(n, |f|));
    }
  }

  lemma NextWindow<T>(f: seq<T>, n: nat, offset: nat, limit: nat)
    requires n == offset + limit
    ensures Take(f, offset) + SlicePage(f, offset, limit) == Take(f, n)
  {
  }
}
