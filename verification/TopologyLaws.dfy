/** What every drafted set of replication routes satisfies. */
module TopologyLaws {
  import opened Sorting
  import opened StringOrder
  import opened Filtering
  import opened Merging
  import opened Topology

  /** What is chosen beats, in preference order, whatever is left. */
  lemma ChosenAreBest(source: Node, candidates: seq<Node>, count: nat, prior: seq<Route>, c: Node, u: Node)
    requires DistinctIds(candidates) && c in Chosen(source, candidates, count, prior)
    requires u in candidates && u !in Chosen(source, candidates, count, prior)
    ensures var n := Min(count, |candidates|);
            Better(source, BestRank(source, candidates), RankByWeight(source, candidates, n), prior, IndexOf(candidates), c, u)
    ensures c in candidates
  {
    var idx, n := IndexOf(candidates), Min(count, |candidates|);
    var best, byWeight := BestRank(source, candidates), RankByWeight(source, candidates, n);
    var better := BetterOrder(source, best, byWeight, prior, idx);
    ChosenFacts(source, candidates, count, prior);
    Orders(source, best, byWeight, prior, idx);
    CandidatesOrdered(source, best, byWeight, prior, candidates);
    SortMembers(better, candidates);
    SortAscending(better, candidates);
    var p := Preference(source, candidates, n, prior);
    var i :| 0 <= i < |Take(p, n)| && Take(p, n)[i] == c;
    var j :| 0 <= j < |p| && p[j] == u;
    forall m | 0 <= m < |Take(p, n)|
      ensures p[m] in Chosen(source, candidates, count, prior)
    {
      assert Take(p, n)[m] in Take(p, n);
    }
    assert p[i] == c && better(p[i], p[j]);
  }

  /** One route: min(count, N-1) distinct ring nodes other than the source, in ring order, where a node of
      lesser affinity is taken only when every node of the best affinity is, and where capacity decides
      within one affinity class, nobody left out scores higher than somebody taken. */
  lemma RouteLaw(ring: seq<Node>, i: nat, count: nat, prior: seq<Route>)
    requires DistinctIds(ring) && i < |ring|
    ensures var source, candidates := ring[i], Successors(ring, i);
            var chosen := Chosen(source, candidates, count, prior);
            && Targets(source, candidates, count, prior) == Ids(chosen)
            && |chosen| == Min(count, |ring| - 1) && DistinctIds(chosen)
            && (forall c :: c in chosen ==> c in ring && c != source)
            && (forall a, b :: 0 <= a < b < |chosen| ==> At(IndexOf(candidates), chosen[a].id) < At(IndexOf(candidates), chosen[b].id))
            && (forall c, u :: c in chosen && u in candidates && u !in chosen ==>
                  && (AffinityRank(source, c) < BestRank(source, candidates) ==> AffinityRank(source, u) < BestRank(source, candidates))
                  && ((AffinityRank(source, c) == BestRank(source, candidates)) == (AffinityRank(source, u) == BestRank(source, candidates))
                      && RankByWeight(source, candidates, |chosen|)
                      ==> Score(c, TargetCount(prior, c.id)) >= Score(u, TargetCount(prior, u.id))))
  {
    var source, candidates := ring[i], Successors(ring, i);
    SuccessorsDistinct(ring, i);
    ChosenFacts(source, candidates, count, prior);
    BestRankBounds(source, candidates);
    var chosen := Chosen(source, candidates, count, prior);
    var n := |chosen|;
    var best, byWeight := BestRank(source, candidates), RankByWeight(source, candidates, n);
    var idx := IndexOf(candidates);
    SortMembers(BetterOrder(source, best, byWeight, prior, idx), candidates);
    forall c | c in chosen
      ensures c in candidates
    {
      var p := Preference(source, candidates, n, prior);
      var k :| 0 <= k < |Take(p, n)| && Take(p, n)[k] == c;
      assert p[k] in p;
    }
    forall a, b | 0 <= a < b < |chosen|
      ensures At(idx, chosen[a].id) < At(idx, chosen[b].id)
    {
      assert RingOrder(idx)(chosen[a], chosen[b]);
    }
    forall c, u | c in chosen && u in candidates && u !in chosen
      ensures AffinityRank(source, c) < best ==> AffinityRank(source, u) < best
      ensures (AffinityRank(source, c) == best) == (AffinityRank(source, u) == best) && byWeight
              ==> Score(c, TargetCount(prior, c.id)) >= Score(u, TargetCount(prior, u.id))
    {
      ChosenAreBest(source, candidates, count, prior, c, u);
    }
  }

  /** Every route of a draft is planned for one source, with the routes before it as its inbound load. */
  lemma {:induction false} RoutesPlanned(ring: seq<Node>, n: nat, ids: set<string>, count: nat, k: nat) returns (i: nat)
    requires n <= |ring| && k < |Routes(ring, n, ids, count)|
    ensures i < n && ring[i].id in ids
    ensures var routes := Routes(ring, n, ids, count);
            routes[k] == Route(ring[i].id, Targets(ring[i], Successors(ring, i), count, routes[..k]))
  {
    var prior := Routes(ring, n - 1, ids, count);
    if ring[n - 1].id in ids && k == |prior| {
      i := n - 1;
      assert Routes(ring, n, ids, count)[..k] == prior;
    } else {
      i := RoutesPlanned(ring, n - 1, ids, count, k);
      assert Routes(ring, n, ids, count)[..k] == prior[..k];
    }
  }

  /** One route for each selected source, in ring order. */
  lemma {:induction false} RoutesCoverSources(ring: seq<Node>, n: nat, ids: set<string>, count: nat)
    requires n <= |ring|
    ensures |Routes(ring, n, ids, count)| == |Selected(ring[..n], ids)|
    ensures forall k :: 0 <= k < |Routes(ring, n, ids, count)| ==>
              Routes(ring, n, ids, count)[k].source == Selected(ring[..n], ids)[k].id
  {
    if n > 0 {
      RoutesCoverSources(ring, n - 1, ids, count);
      SelectedNext(ring, n - 1, ids);
    }
  }

  ghost predicate SameMembers<T(!new)>(a: seq<T>, b: seq<T>) { forall x :: x in a <==> x in b }

  /** The draft depends on which nodes and sources there are, not on the order in which they are listed. */
  lemma DraftIgnoresOrder(a: seq<Node>, b: seq<Node>, sourcesA: seq<string>, sourcesB: seq<string>, factor: int)
    requires DistinctIds(a) && DistinctIds(b) && SameMembers(a, b) && SameMembers(sourcesA, sourcesB)
    ensures DraftOf(Ring(a), IdSet(sourcesA), factor) == DraftOf(Ring(b), IdSet(sourcesB), factor)
    ensures (forall id :: id in sourcesA ==> Admitted(Ring(a), id)) <==> (forall id :: id in sourcesB ==> Admitted(Ring(b), id))
  {
    RingFacts(a);
    RingFacts(b);
    AscendingUnique(NodeLess, Ring(a), Ring(b));
    assert IdSet(sourcesA) == IdSet(sourcesB);
  }

  // ---- equal capacity, no affinity differences ---------------------------------------------------------

  ghost predicate EqualWeights(ring: seq<Node>) {
    forall i, j :: 0 <= i < |ring| && 0 <= j < |ring| ==> ring[i].weight == ring[j].weight
  }

  /** Seen from any one source, all the others have the same affinity. */
  ghost predicate EqualAffinity(ring: seq<Node>) {
    forall s, x, y :: s in ring && x in ring && y in ring && x != s && y != s ==>
      AffinityRank(s, x) == AffinityRank(s, y)
  }

  lemma UniformPreference(ring: seq<Node>, i: nat, count: nat, prior: seq<Route>)
    requires DistinctIds(ring) && EqualWeights(ring) && EqualAffinity(ring) && i < |ring|
    ensures Preference(ring[i], Successors(ring, i), count, prior) == Successors(ring, i)
  {
    var source, candidates := ring[i], Successors(ring, i);
    SuccessorsDistinct(ring, i);
    BestRankBounds(source, candidates);
    var best := BestRank(source, candidates);
    assert forall c :: c in candidates ==> AffinityRank(source, c) == best;
    FilterAll(candidates, c => AffinityRank(source, c) == best);
    FilterNone(candidates, c => AffinityRank(source, c) != best);
    FilterAgrees(candidates, c => AffinityRank(source, c) == best, c => AffinityRank(source, c) == BestRank(source, candidates));
    FilterAgrees(candidates, c => AffinityRank(source, c) != best, c => AffinityRank(source, c) != BestRank(source, candidates));
    assert Preferred(source, candidates) == candidates && Fallback(source, candidates) == [];
    forall c | c in candidates
      ensures c.weight == candidates[0].weight
    {
      assert candidates[0] in candidates && c in ring && candidates[0] in ring;
    }
    PartsInPreference(source, candidates, count, prior);
  }

  /** Then a source's targets are its next `count` neighbours on the ring. */
  lemma UniformTargets(ring: seq<Node>, i: nat, count: nat, prior: seq<Route>)
    requires DistinctIds(ring) && EqualWeights(ring) && EqualAffinity(ring) && i < |ring|
    ensures Targets(ring[i], Successors(ring, i), count, prior) == Ids(Take(Successors(ring, i), count))
  {
    var source, candidates := ring[i], Successors(ring, i);
    var n := Min(count, |candidates|);
    var idx := IndexOf(candidates);
    SuccessorsDistinct(ring, i);
    UniformPreference(ring, i, n, prior);
    CandidatesOrdered(source, 0, false, prior, candidates);
    Orders(source, 0, false, prior, idx);
    var taken := Take(candidates, n);
    TakeAscending(RingOrder(idx), candidates, n);
    SortAscending(RingOrder(idx), taken);
    SortMembers(RingOrder(idx), taken);
    AscendingUnique(RingOrder(idx), SortBy(RingOrder(idx), taken), taken);
    assert Take(candidates, count) == taken;
  }

  lemma TakeAscending<T(!new)>(less: (T, T) -> bool, s: seq<T>, n: nat)
    requires Ascending(less, s)
    ensures Ascending(less, Take(s, n)) && Distinguishes(less, Take(s, n))
  {
  }

  /** Whether j is among the next k of i on a ring of size, and how many of the first n are so placed. */
  predicate Hit(size: nat, k: nat, i: nat, j: nat) { i != j && (if i < j then j - i else j + size - i) <= k }

  function Hits(size: nat, k: nat, n: nat, j: nat): nat {
    if n == 0 then 0 else Hits(size, k, n - 1, j) + if Hit(size, k, n - 1, j) then 1 else 0
  }

  /** Among all N ring positions, exactly k have a given position among their next k. */
  lemma {:induction false} HitsClosedForm(size: nat, k: nat, n: nat, j: nat)
    requires j < size && n <= size && k < size
    ensures Hits(size, k, n, j) ==
            if n <= j then (if j <= k then n else if n <= j - k then 0 else n - (j - k))
            else Min(j, k) + (if n <= j + size - k then 0 else n - (j + size - k))
  {
    if n > 0 { HitsClosedForm(size, k, n - 1, j); }
  }

  lemma SuccessorHit(ring: seq<Node>, i: nat, j: nat, k: nat)
    requires DistinctIds(ring) && i < |ring| && j < |ring| && k < |ring|
    ensures ring[j].id in Ids(Take(Successors(ring, i), k)) <==> Hit(|ring|, k, i, j)
  {
    var s := Successors(ring, i);
    var ids := Ids(Take(s, k));
    if i != j {
      var p := if i < j then j - i - 1 else j + |ring| - i - 1;
      assert s[p] == ring[j];
      if p < k { assert ids[p] == ring[j].id; }
    }
    if ring[j].id in ids {
      var q :| 0 <= q < |ids| && ids[q] == ring[j].id;
      assert s[q].id == ring[j].id;
      assert s[q] == ring[if i + 1 + q < |ring| then i + 1 + q else i + 1 + q - |ring|];
    }
  }

  lemma {:induction false} UniformCount(ring: seq<Node>, n: nat, ids: set<string>, k: nat, j: nat)
    requires DistinctIds(ring) && EqualWeights(ring) && EqualAffinity(ring) && n <= |ring| && k < |ring| && j < |ring|
    requires forall m :: m in ring ==> m.id in ids
    ensures TargetCount(Routes(ring, n, ids, k), ring[j].id) == Hits(|ring|, k, n, j)
  {
    if n > 0 {
      UniformCount(ring, n - 1, ids, k, j);
      var prior := Routes(ring, n - 1, ids, k);
      assert ring[n - 1] in ring;
      UniformTargets(ring, n - 1, k, prior);
      SuccessorHit(ring, n - 1, j, k);
      assert Routes(ring, n, ids, k)[..|prior|] == prior;
    }
  }

  /** With every admitted node a source, equal weights and no affinity differences, each node targets its
      next k ring successors and is targeted exactly k times. */
  lemma UniformBalance(ring: seq<Node>, ids: set<string>, k: nat)
    requires DistinctIds(ring) && EqualWeights(ring) && EqualAffinity(ring) && k < |ring|
    requires forall m :: m in ring ==> m.id in ids
    ensures forall j :: 0 <= j < |ring| ==> TargetCount(Routes(ring, |ring|, ids, k), ring[j].id) == k
    ensures forall r :: r in Routes(ring, |ring|, ids, k) ==>
              exists i :: 0 <= i < |ring| && r == Route(ring[i].id, Ids(Take(Successors(ring, i), k)))
  {
    var routes := Routes(ring, |ring|, ids, k);
    forall j | 0 <= j < |ring|
      ensures TargetCount(routes, ring[j].id) == k
    {
      UniformCount(ring, |ring|, ids, k, j);
      HitsClosedForm(|ring|, k, |ring|, j);
    }
    forall r | r in routes
      ensures exists i :: 0 <= i < |ring| && r == Route(ring[i].id, Ids(Take(Successors(ring, i), k)))
    {
      var q :| 0 <= q < |routes| && routes[q] == r;
      var i := RoutesPlanned(ring, |ring|, ids, k, q);
      UniformTargets(ring, i, k, routes[..q]);
    }
  }
}
