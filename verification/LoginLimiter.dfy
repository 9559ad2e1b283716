/** The login rate limiter: per user, the times of recent allowed logins, compacted in place at every call. */
module LoginLimiter {
  import opened Filtering

  const LIMIT := 5
  /** One minute in nanoseconds. */
  const WINDOW := 60_000_000_000

  /** The recorded times that still count at `now`. */
  function Live(hits: seq<int>, now: int): seq<int> { Filter(hits, t => t > now - WINDOW) }

  function After(hits: seq<int>, cutoff: int): seq<int> { Filter(hits, t => t > cutoff) }

  lemma LiveCut(hits: seq<int>, now: int, cutoff: int)
    requires cutoff == now - WINDOW
    ensures After(hits, cutoff) == Live(hits, now)
  {
    FilterAgrees(hits, t => t > cutoff, t => t > now - WINDOW);
  }

  class Limiter {
    /** Each user's slice: its backing array and its length. */
    var data: map<string, array<int>>
    var len: map<string, nat>

    ghost var Repr: set<array<int>>

    ghost predicate Valid()
      reads this, Repr
    {
      && data.Keys == len.Keys
      && (forall u :: u in data ==> data[u] in Repr && len[u] <= data[u].Length)
      && (forall u, v :: u in data && v in data && u != v ==> data[u] != data[v])
    }

    ghost function Hits(user: string): seq<int>
      requires Valid()
      reads this, Repr
    {
      if user in data then data[user][..len[user]] else []
    }

    constructor ()
      ensures Valid() && fresh(Repr)
      ensures forall u :: Hits(u) == []
    {
      data, len, Repr := map[], map[], {};
    }

    /** Moves the live elements of a[..n] to its front, reading ahead of the writes. */
    static method Compact(a: array<int>, n: nat, cutoff: int) returns (kept: nat)
      requires n <= a.Length
      modifies a
      ensures kept <= n && a[..kept] == After(old(a[..n]), cutoff)
    {
      kept := 0;
      ghost var s := a[..n];
      for r := 0 to n
        invariant kept <= r && a[..kept] == After(s[..r], cutoff)
        invariant forall k :: r <= k < n ==> a[k] == s[k]
      {
        FilterNext(s, r, t => t > cutoff);
        if a[r] > cutoff {
          a[kept] := a[r];
          kept := kept + 1;
        }
      }
      assert s[..n] == s;
    }

    /** Appends one time behind the first n, in place while the array has room. */
    static method Append(a: array<int>, n: nat, now: int) returns (b: array<int>)
      requires n <= a.Length
      modifies a
      ensures b == a || fresh(b)
      ensures n < b.Length && b[..n + 1] == old(a[..n]) + [now]
    {
      b := a;
      if n == a.Length {
        b := new int[2 * n + 1];
        for k := 0 to n
          invariant b[..k] == a[..k] && a[..] == old(a[..])
        {
          b[k] := a[k];
        }
      }
      b[n] := now;
    }

    /** Drops the user's dead times in place. */
    method Prune(user: string, now: int) returns (kept: nat)
      requires Valid()
      modifies this, Repr
      ensures Valid() && Repr == old(Repr) && data == old(data)
      ensures Hits(user) == Live(old(Hits(user)), now) && kept == |Hits(user)|
      ensures forall other :: other != user ==> Hits(other) == old(Hits(other))
    {
      var cutoff := now - WINDOW;
      LiveCut(Hits(user), now, cutoff);
      kept := 0;
      if user in data {
        kept := Compact(data[user], len[user], cutoff);
        len := len[user := kept];
      }
    }

    /** Makes the slice the user's, where it is the user's own or a new one. */
    method Store(user: string, slice: array<int>, n: nat)
      requires Valid() && n <= slice.Length
      requires forall other :: other in data && other != user ==> data[other] != slice
      modifies this
      ensures Valid() && Repr == old(Repr) + {slice}
      ensures Hits(user) == slice[..n]
      ensures forall other :: other != user ==> Hits(other) == old(Hits(other))
    {
      data, len, Repr := data[user := slice], len[user := n], Repr + {slice};
    }

    /** Appends a time to the user's. */
    method Record(user: string, now: int)
      requires Valid()
      modifies this, Repr
      ensures Valid() && fresh(Repr - old(Repr))
      ensures Hits(user) == old(Hits(user)) + [now]
      ensures forall other :: other != user ==> Hits(other) == old(Hits(other))
    {
      var slice, kept;
      if user in data {
        slice, kept := data[user], len[user];
      } else {
        slice, kept := new int[0], 0;
      }
      var longer := Append(slice, kept, now);
      assert forall other :: other != user ==> Hits(other) == old(Hits(other));
      Store(user, longer, kept + 1);
    }

    /** Allows a login unless LIMIT earlier ones are still live, and records it if allowed. No live time is
        lost, every dead one is dropped, and no other user's times are touched. */
    method Allow(user: string, now: int) returns (ok: bool)
      requires Valid()
      modifies this, Repr
      ensures Valid() && fresh(Repr - old(Repr))
      ensures ok <==> |Live(old(Hits(user)), now)| < LIMIT
      ensures Hits(user) == Live(old(Hits(user)), now) + if ok then [now] else []
      ensures forall other :: other != user ==> Hits(other) == old(Hits(other))
    {
      var kept := Prune(user, now);
      if kept >= LIMIT {
        return false;
      }
      Record(user, now);
      return true;
    }
  }
}
