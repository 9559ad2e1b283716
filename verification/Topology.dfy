/** The replication route planner: a ring over the admitted nodes, failure-domain affinity, capacity
  ranking, and inbound load carried from one source to the next.

  Capacity weights are real numbers, so the floating-point rounding of scores is not modelled.
*/
module Topology {
  import opened Sorting
  import opened StringOrder
  import opened Filtering
  import opened Merging

  datatype Node = Node(id: string, host: string, rack: string, zone: string, weight: real, admitted: bool, alive: bool)

  datatype Route = Route(source: string, targets: seq<string>)

  datatype Warning = Offline(id: string) | SingleNode | NoTopologyLabels | Degraded

  datatype Draft = Draft(routes: seq<Route>, warnings: seq<Warning>)

  datatype Result = Ok(draft: Draft) | DuplicateSource(id: string) | NotAdmitted(id: string)

  predicate NodeLess(a: Node, b: Node) { StrLess(a.id, b.id) }

  predicate DistinctIds(nodes: seq<Node>) { forall i, j :: 0 <= i < j < |nodes| ==> nodes[i].id != nodes[j].id }

  function Ids(nodes: seq<Node>): seq<string> { seq(|nodes|, i requires 0 <= i < |nodes| => nodes[i].id) }

  // ---- what the planner computes ---------------------------------------------------------------------

  /** The admitted nodes in ring order. */
  function Ring(nodes: seq<Node>): seq<Node> { SortBy(NodeLess, Filter(nodes, (n: Node) => n.admitted)) }

  /** The ring after position i, up to and around to the node before it. */
  function Successors(ring: seq<Node>, i: nat): seq<Node>
    requires i < |ring|
  {
    ring[i + 1..] + ring[..i]
  }

  function AffinityRank(source: Node, candidate: Node): nat {
    if source.zone != "" && candidate.zone != "" && source.zone != candidate.zone then 3
    else if source.rack != "" && candidate.rack != "" && source.rack != candidate.rack then 2
    else if source.host != "" && candidate.host != "" && source.host != candidate.host then 1
    else 0
  }

  function BestRank(source: Node, candidates: seq<Node>): nat {
    if candidates == [] then 0
    else
      var rest := BestRank(source, candidates[..|candidates| - 1]);
      var rank := AffinityRank(source, candidates[|candidates| - 1]);
      if rank > rest then rank else rest
  }

  function Preferred(source: Node, candidates: seq<Node>): seq<Node> {
    var best := BestRank(source, candidates);
    Filter(candidates, c => AffinityRank(source, c) == best)
  }

  function Fallback(source: Node, candidates: seq<Node>): seq<Node> {
    var best := BestRank(source, candidates);
    Filter(candidates, c => AffinityRank(source, c) != best)
  }

  predicate WeightsDiffer(nodes: seq<Node>) { exists n :: n in nodes && n.weight != nodes[0].weight }

  /** Whether capacity decides among the candidates: only those that may be chosen are compared. */
  predicate RankByWeight(source: Node, candidates: seq<Node>, count: nat) {
    var preferred := Preferred(source, candidates);
    WeightsDiffer(if |preferred| < count then preferred + Fallback(source, candidates) else preferred)
  }

  /** How many of the routes target a node. */
  function TargetCount(routes: seq<Route>, id: string): nat {
    if routes == [] then 0
    else TargetCount(routes[..|routes| - 1], id) + if id in routes[|routes| - 1].targets then 1 else 0
  }

  function Score(node: Node, inbound: int): real { node.weight * 10.0 - inbound as real * 5.0 }

  function At(idx: map<string, nat>, id: string): nat { if id in idx then idx[id] else 0 }

  predicate RingLess(idx: map<string, nat>, a: Node, b: Node) { At(idx, a.id) < At(idx, b.id) }

  /** Higher score first, then the nearer on the ring. */
  predicate CapacityLess(prior: seq<Route>, idx: map<string, nat>, a: Node, b: Node) {
    var sa, sb := Score(a, TargetCount(prior, a.id)), Score(b, TargetCount(prior, b.id));
    if sa != sb then sa > sb else RingLess(idx, a, b)
  }

  function RingOrder(idx: map<string, nat>): (Node, Node) -> bool { (a, b) => RingLess(idx, a, b) }

  function CapacityOrder(prior: seq<Route>, idx: map<string, nat>): (Node, Node) -> bool {
    (a, b) => CapacityLess(prior, idx, a, b)
  }

  /** The order in which candidates are taken: best affinity, then capacity where it decides, then the ring. */
  predicate Better(source: Node, best: nat, byWeight: bool, prior: seq<Route>, idx: map<string, nat>, a: Node, b: Node) {
    var pa, pb := AffinityRank(source, a) == best, AffinityRank(source, b) == best;
    if pa != pb then pa
    else if byWeight then CapacityLess(prior, idx, a, b)
    else RingLess(idx, a, b)
  }

  function BetterOrder(source: Node, best: nat, byWeight: bool, prior: seq<Route>, idx: map<string, nat>)
    : (Node, Node) -> bool
  {
    (a, b) => Better(source, best, byWeight, prior, idx, a, b)
  }

  function IndexOf(nodes: seq<Node>): map<string, nat> {
    if nodes == [] then map[]
    else IndexOf(nodes[..|nodes| - 1])[nodes[|nodes| - 1].id := |nodes| - 1]
  }

  /** The candidates in the order they are taken. */
  function Preference(source: Node, candidates: seq<Node>, count: nat, prior: seq<Route>): seq<Node> {
    var idx := IndexOf(candidates);
    var best, byWeight := BestRank(source, candidates), RankByWeight(source, candidates, count);
    SortBy(BetterOrder(source, best, byWeight, prior, idx), candidates)
  }

  /** A source's targets: the first `count` by preference, listed in ring order. */
  function Chosen(source: Node, candidates: seq<Node>, count: nat, prior: seq<Route>): seq<Node> {
    var n := Min(count, |candidates|);
    SortBy(RingOrder(IndexOf(candidates)), Take(Preference(source, candidates, n, prior), n))
  }

  function Targets(source: Node, candidates: seq<Node>, count: nat, prior: seq<Route>): seq<string> {
    Ids(Chosen(source, candidates, count, prior))
  }

  /** The routes of the sources among the first n ring nodes, each planned with the load of those before it. */
  function Routes(ring: seq<Node>, n: nat, ids: set<string>, count: nat): seq<Route>
    requires n <= |ring|
  {
    if n == 0 then []
    else
      var prior, source := Routes(ring, n - 1, ids, count), ring[n - 1];
      if source.id !in ids then prior
      else prior + [Route(source.id, Targets(source, Successors(ring, n - 1), count, prior))]
  }

  function IdSet(ids: seq<string>): set<string> { set id | id in ids }

  predicate Labelled(n: Node) { n.zone != "" || n.rack != "" || n.host != "" }

  function OfflineWarnings(ring: seq<Node>): seq<Warning> {
    if ring == [] then []
    else OfflineWarnings(ring[..|ring| - 1])
         + if ring[|ring| - 1].alive then [] else [Offline(ring[|ring| - 1].id)]
  }

  /** The draft for a ring and a set of sources on it. */
  function DraftOf(ring: seq<Node>, ids: set<string>, factor: int): Draft {
    var offline := OfflineWarnings(ring);
    if |ring| == 1 then Draft([], offline + [SingleNode])
    else
      var unlabelled := if exists n :: n in ring && Labelled(n) then [] else [NoTopologyLabels];
      var degraded := if factor > |ring| - 1 then [Degraded] else [];
      Draft(Routes(ring, |ring|, ids, Replicas(Min(factor, |ring| - 1))), offline + unlabelled + degraded)
  }

  function Replicas(replicas: int): nat { if replicas <= 0 then 0 else replicas }

  // ---- helper facts ----------------------------------------------------------------------------------

  lemma {:induction false} IndexFacts(nodes: seq<Node>)
    requires DistinctIds(nodes)
    ensures forall i :: 0 <= i < |nodes| ==> nodes[i].id in IndexOf(nodes) && IndexOf(nodes)[nodes[i].id] == i
  {
    if nodes != [] {
      var init := nodes[..|nodes| - 1];
      IndexFacts(init);
      forall i | 0 <= i < |nodes|
        ensures nodes[i].id in IndexOf(nodes) && IndexOf(nodes)[nodes[i].id] == i
      {
        if i < |nodes| - 1 { assert init[i] == nodes[i]; }
      }
    }
  }

  lemma {:induction false} BestRankBounds(source: Node, candidates: seq<Node>)
    ensures forall c :: c in candidates ==> AffinityRank(source, c) <= BestRank(source, candidates)
    ensures BestRank(source, candidates) > 0 ==>
              exists c :: c in candidates && AffinityRank(source, c) == BestRank(source, candidates)
  {
    if candidates != [] {
      var init, last := candidates[..|candidates| - 1], candidates[|candidates| - 1];
      BestRankBounds(source, init);
      assert candidates == init + [last];
    }
  }

  lemma Orders(source: Node, best: nat, byWeight: bool, prior: seq<Route>, idx: map<string, nat>)
    ensures StrictOrder(RingOrder(idx)) && StrictOrder(CapacityOrder(prior, idx))
    ensures StrictOrder(BetterOrder(source, best, byWeight, prior, idx))
  {
  }

  /** Candidates with distinct ids are told apart by each of the orders, and listed in ring order. */
  lemma CandidatesOrdered(source: Node, best: nat, byWeight: bool, prior: seq<Route>, candidates: seq<Node>)
    requires DistinctIds(candidates)
    ensures var idx := IndexOf(candidates);
            && Ascending(RingOrder(idx), candidates)
            && Distinguishes(CapacityOrder(prior, idx), candidates)
            && Distinguishes(BetterOrder(source, best, byWeight, prior, idx), candidates)
  {
    IndexFacts(candidates);
  }

  lemma {:induction false} SortAgrees<T>(p: (T, T) -> bool, q: (T, T) -> bool, s: seq<T>)
    requires forall a, b :: p(a, b) == q(a, b)
    ensures SortBy(p, s) == SortBy(q, s)
  {
    if s != [] {
      SortAgrees(p, q, s[1..]);
      InsertAgrees(p, q, s[0], SortBy(p, s[1..]));
    }
  }

  lemma {:induction false} InsertAgrees<T>(p: (T, T) -> bool, q: (T, T) -> bool, x: T, s: seq<T>)
    requires forall a, b :: p(a, b) == q(a, b)
    ensures Insert(p, x, s) == Insert(q, x, s)
  {
    if s != [] { InsertAgrees(p, q, x, s[1..]); }
  }

  function MaybeRanked(byWeight: bool, prior: seq<Route>, idx: map<string, nat>, pool: seq<Node>): seq<Node> {
    if byWeight then SortBy(CapacityOrder(prior, idx), pool) else pool
  }

  /** A class of candidates of one affinity, ranked if capacity decides, is in preference order. */
  lemma ClassOrdered(source: Node, best: nat, byWeight: bool, prior: seq<Route>, candidates: seq<Node>, inClass: bool)
    requires DistinctIds(candidates)
    ensures var idx := IndexOf(candidates);
            var pool := Filter(candidates, c => (AffinityRank(source, c) == best) == inClass);
            var ranked := MaybeRanked(byWeight, prior, idx, pool);
            && Ascending(BetterOrder(source, best, byWeight, prior, idx), ranked)
            && forall x :: x in ranked <==> x in candidates && ((AffinityRank(source, x) == best) == inClass)
  {
    var idx := IndexOf(candidates);
    var keep := c => (AffinityRank(source, c) == best) == inClass;
    var pool := Filter(candidates, keep);
    FilterMembers(candidates, keep);
    CandidatesOrdered(source, best, byWeight, prior, candidates);
    FilterAscending(RingOrder(idx), candidates, keep);
    Orders(source, best, byWeight, prior, idx);
    var ranked := MaybeRanked(byWeight, prior, idx, pool);
    SortMembers(CapacityOrder(prior, idx), pool);
    if byWeight {
      PoolDistinguished(prior, idx, pool);
      SortAscending(CapacityOrder(prior, idx), pool);
    }
    forall i, j | 0 <= i < j < |ranked|
      ensures Better(source, best, byWeight, prior, idx, ranked[i], ranked[j])
    {
      assert ranked[i] in ranked && ranked[j] in ranked;
      if byWeight {
        assert CapacityOrder(prior, idx)(ranked[i], ranked[j]);
      } else {
        assert RingOrder(idx)(ranked[i], ranked[j]);
      }
    }
  }

  lemma PoolDistinguished(prior: seq<Route>, idx: map<string, nat>, pool: seq<Node>)
    requires Ascending(RingOrder(idx), pool)
    ensures Distinguishes(CapacityOrder(prior, idx), pool)
  {
    forall i, j | 0 <= i < j < |pool|
      ensures CapacityLess(prior, idx, pool[i], pool[j]) || CapacityLess(prior, idx, pool[j], pool[i])
    {
      assert RingOrder(idx)(pool[i], pool[j]);
    }
  }

  /** Partitioning, ranking each part and joining them puts the candidates in preference order. */
  lemma PartsInPreference(source: Node, candidates: seq<Node>, count: nat, prior: seq<Route>)
    requires DistinctIds(candidates)
    ensures var idx, byWeight := IndexOf(candidates), RankByWeight(source, candidates, count);
            Preference(source, candidates, count, prior)
            == MaybeRanked(byWeight, prior, idx, Preferred(source, candidates))
               + MaybeRanked(byWeight, prior, idx, Fallback(source, candidates))
  {
    var idx, byWeight := IndexOf(candidates), RankByWeight(source, candidates, count);
    var best := BestRank(source, candidates);
    var better := BetterOrder(source, best, byWeight, prior, idx);
    Orders(source, best, byWeight, prior, idx);
    CandidatesOrdered(source, best, byWeight, prior, candidates);
    SortAscending(better, candidates);
    SortMembers(better, candidates);
    ClassOrdered(source, best, byWeight, prior, candidates, true);
    ClassOrdered(source, best, byWeight, prior, candidates, false);
    FilterAgrees(candidates, c => AffinityRank(source, c) == best, c => (AffinityRank(source, c) == best) == true);
    FilterAgrees(candidates, c => AffinityRank(source, c) != best, c => (AffinityRank(source, c) == best) == false);
    var p := MaybeRanked(byWeight, prior, idx, Preferred(source, candidates));
    var f := MaybeRanked(byWeight, prior, idx, Fallback(source, candidates));
    AscendingConcat(better, p, f);
    AscendingUnique(better, SortBy(better, candidates), p + f);
  }

  // ---- the planner -----------------------------------------------------------------------------------

  lemma WrapAround(start: nat, step: nat, n: nat)
    requires start < n && step < n
    ensures (start + step) % n == if start + step < n then start + step else start + step - n
  {
    if start + step >= n {
      var r := start + step - n;
      assert start + step == 1 * n + r;
    }
  }

  lemma SuccessorAt(ring: seq<Node>, start: nat, step: nat)
    requires start < |ring| && 1 <= step < |ring|
    ensures Successors(ring, start)[step - 1] == ring[(start + step) % |ring|]
  {
    WrapAround(start, step, |ring|);
  }

  method RingSuccessors(source: Node, ring: seq<Node>) returns (out: seq<Node>)
    requires DistinctIds(ring)
    ensures forall i :: 0 <= i < |ring| && ring[i].id == source.id ==> out == Successors(ring, i)
    ensures (forall i :: 0 <= i < |ring| ==> ring[i].id != source.id) ==> out == []
  {
    var start := -1;
    for i := 0 to |ring|
      invariant start == -1 && forall k :: 0 <= k < i ==> ring[k].id != source.id
    {
      if ring[i].id == source.id {
        start := i;
        break;
      }
    }
    if start < 0 {
      return [];
    }
    out := [];
    ghost var successors := Successors(ring, start);
    for step := 1 to |ring|
      invariant out == successors[..step - 1]
    {
      SuccessorAt(ring, start, step);
      WrapAround(start, step, |ring|);
      var node := ring[(start + step) % |ring|];
      if node.id == source.id {
        continue;
      }
      out := out + [node];
    }
  }

  method PartitionByAffinity(source: Node, candidates: seq<Node>) returns (preferred: seq<Node>, fallback: seq<Node>)
    ensures preferred == Preferred(source, candidates) && fallback == Fallback(source, candidates)
  {
    var best := 0;
    for i := 0 to |candidates|
      invariant best == BestRank(source, candidates[..i])
    {
      assert candidates[..i + 1][..i] == candidates[..i];
      var rank := AffinityRank(source, candidates[i]);
      if rank > best {
        best := rank;
      }
    }
    assert candidates[..|candidates|] == candidates;
    if best == 0 {
      BestRankBounds(source, candidates);
      FilterAll(candidates, c => AffinityRank(source, c) == best);
      FilterAgrees(candidates, c => AffinityRank(source, c) == best, c => AffinityRank(source, c) == BestRank(source, candidates));
      FilterNone(candidates, c => AffinityRank(source, c) != BestRank(source, candidates));
      return candidates, [];
    }
    preferred, fallback := [], [];
    for i := 0 to |candidates|
      invariant preferred == Filter(candidates[..i], c => AffinityRank(source, c) == best)
      invariant fallback == Filter(candidates[..i], c => AffinityRank(source, c) != best)
    {
      FilterNext(candidates, i, c => AffinityRank(source, c) == best);
      FilterNext(candidates, i, c => AffinityRank(source, c) != best);
      if AffinityRank(source, candidates[i]) == best {
        preferred := preferred + [candidates[i]];
      } else {
        fallback := fallback + [candidates[i]];
      }
    }
  }

  method CapacityWeightsDiffer(nodes: seq<Node>) returns (differ: bool)
    ensures differ == WeightsDiffer(nodes)
  {
    if |nodes| < 2 {
      assert nodes != [] ==> nodes == [nodes[0]];
      return false;
    }
    for i := 1 to |nodes|
      invariant forall k :: 0 <= k < i ==> nodes[k].weight == nodes[0].weight
    {
      if nodes[i].weight != nodes[0].weight {
        assert nodes[i] in nodes;
        return true;
      }
    }
    return false;
  }

  method SuccessorIndex(successors: seq<Node>) returns (idx: map<string, nat>)
    ensures idx == IndexOf(successors)
  {
    idx := map[];
    for i := 0 to |successors|
      invariant idx == IndexOf(successors[..i])
    {
      assert successors[..i + 1][..i] == successors[..i];
      idx := idx[successors[i].id := i];
    }
    assert successors[..|successors|] == successors;
  }

  function LoadOf(load: map<string, int>, id: string): int { if id in load then load[id] else 0 }

  /** The load map counts, for every node, the routes already targeting it. */
  ghost predicate LoadMatches(load: map<string, int>, prior: seq<Route>) {
    forall id :: LoadOf(load, id) == TargetCount(prior, id)
  }

  predicate ScoreLess(load: map<string, int>, idx: map<string, nat>, a: Node, b: Node) {
    var sa, sb := Score(a, LoadOf(load, a.id)), Score(b, LoadOf(load, b.id));
    if sa != sb then sa > sb else At(idx, a.id) < At(idx, b.id)
  }

  method RankByCapacity(pool: seq<Node>, load: map<string, int>, idx: map<string, nat>, ghost prior: seq<Route>)
    returns (ranked: seq<Node>)
    requires LoadMatches(load, prior)
    ensures ranked == SortBy(CapacityOrder(prior, idx), pool)
  {
    var higher := (a, b) => ScoreLess(load, idx, a, b);
    ranked := SortBy(higher, pool);
    SortAgrees(higher, CapacityOrder(prior, idx), pool);
  }

  lemma SuccessorsDistinct(ring: seq<Node>, i: nat)
    requires DistinctIds(ring) && i < |ring|
    ensures DistinctIds(Successors(ring, i)) && |Successors(ring, i)| == |ring| - 1
    ensures forall n :: n in Successors(ring, i) <==> n in ring && n != ring[i]
  {
    var s := Successors(ring, i);
    forall n | n in ring && n != ring[i]
      ensures n in s
    {
      var k :| 0 <= k < |ring| && ring[k] == n;
      assert k < i ==> s[|ring| - i - 1 + k] == n;
      assert k > i ==> s[k - i - 1] == n;
    }
  }

  /** What is chosen: as many distinct candidates as asked for and there are, in ring order. */
  lemma ChosenFacts(source: Node, candidates: seq<Node>, count: nat, prior: seq<Route>)
    requires DistinctIds(candidates)
    ensures var chosen := Chosen(source, candidates, count, prior);
            && |chosen| == Min(count, |candidates|)
            && Ascending(RingOrder(IndexOf(candidates)), chosen) && DistinctIds(chosen)
            && forall x :: x in chosen <==> x in Take(Preference(source, candidates, |chosen|, prior), |chosen|)
  {
    var idx, n := IndexOf(candidates), Min(count, |candidates|);
    var p := Preference(source, candidates, n, prior);
    PreferenceFacts(source, candidates, n, prior);
    var taken := Take(p, n);
    TakenDistinguished(candidates, p, n);
    RingOrderIsOrder(idx);
    SortPermutes(RingOrder(idx), taken);
    SortMembers(RingOrder(idx), taken);
    SortAscending(RingOrder(idx), taken);
    AscendingOnRing(idx, Chosen(source, candidates, count, prior));
  }

  lemma RingOrderIsOrder(idx: map<string, nat>)
    ensures StrictOrder(RingOrder(idx))
  {
  }

  /** In ring order nodes have different ids. */
  lemma AscendingOnRing(idx: map<string, nat>, chosen: seq<Node>)
    requires Ascending(RingOrder(idx), chosen)
    ensures DistinctIds(chosen)
  {
    assert forall i, j :: 0 <= i < j < |chosen| ==> RingOrder(idx)(chosen[i], chosen[j]);
  }

  /** The preference lists the candidates, each once. */
  lemma PreferenceFacts(source: Node, candidates: seq<Node>, count: nat, prior: seq<Route>)
    requires DistinctIds(candidates)
    ensures
      var p := Preference(source, candidates, count, prior);
      |p| == |candidates| && (forall x :: x in p <==> x in candidates) && NoDuplicates(p)
  {
    var idx := IndexOf(candidates);
    var best, byWeight := BestRank(source, candidates), RankByWeight(source, candidates, count);
    var better := BetterOrder(source, best, byWeight, prior, idx);
    Orders(source, best, byWeight, prior, idx);
    CandidatesOrdered(source, best, byWeight, prior, candidates);
    SortPermutes(better, candidates);
    SortMembers(better, candidates);
    SortAscending(better, candidates);
    AscendingDistinct(better, SortBy(better, candidates));
  }

  lemma AscendingDistinct(less: (Node, Node) -> bool, p: seq<Node>)
    requires StrictOrder(less) && Ascending(less, p)
    ensures NoDuplicates(p)
  {
  }

  lemma TakenDistinguished(candidates: seq<Node>, p: seq<Node>, n: nat)
    requires DistinctIds(candidates) && n <= |p| && NoDuplicates(p) && forall x :: x in p <==> x in candidates
    ensures Distinguishes(RingOrder(IndexOf(candidates)), Take(p, n))
  {
    var taken := Take(p, n);
    forall i, j | 0 <= i < |taken| && 0 <= j < |taken| && i != j
      ensures RingOrder(IndexOf(candidates))(taken[i], taken[j]) || RingOrder(IndexOf(candidates))(taken[j], taken[i])
    {
      assert p[i] in p && p[j] in p && p[i] != p[j];
      RingTells(candidates, p[i], p[j]);
    }
  }

  lemma RingTells(candidates: seq<Node>, a: Node, b: Node)
    requires DistinctIds(candidates) && a in candidates && b in candidates && a != b
    ensures RingLess(IndexOf(candidates), a, b) || RingLess(IndexOf(candidates), b, a)
  {
    IndexFacts(candidates);
  }

  /** Affinity first, then capacity where it decides; the pick is put back into ring order. */
  method ChooseNodes(source: Node, successors: seq<Node>, count: nat, load: map<string, int>, ghost prior: seq<Route>)
    returns (chosen: seq<Node>)
    requires DistinctIds(successors) && count <= |successors| && LoadMatches(load, prior)
    ensures chosen == Chosen(source, successors, count, prior)
  {
    var idx := SuccessorIndex(successors);
    var preferred, fallback := PartitionByAffinity(source, successors);
    var pool := preferred;
    if |preferred| < count {
      pool := preferred + fallback;
    }
    var differ := CapacityWeightsDiffer(pool);
    PartsInPreference(source, successors, count, prior);
    if differ {
      preferred := RankByCapacity(preferred, load, idx, prior);
      fallback := RankByCapacity(fallback, load, idx, prior);
    }
    chosen := preferred + fallback;
    assert chosen == Preference(source, successors, count, prior);
    if |chosen| > count {
      chosen := chosen[..count];
    }
    assert chosen == Take(Preference(source, successors, count, prior), count);
    assert Min(count, |successors|) == count;
    chosen := SortBy(RingOrder(idx), chosen);
  }

  /** Lists the chosen ids and counts one more inbound route for each. */
  method CountInbound(chosen: seq<Node>, load: map<string, int>) returns (selected: seq<string>, newLoad: map<string, int>)
    requires DistinctIds(chosen)
    ensures selected == Ids(chosen)
    ensures forall id :: LoadOf(newLoad, id) == LoadOf(load, id) + if id in selected then 1 else 0
  {
    selected, newLoad := [], load;
    for k := 0 to |chosen|
      invariant selected == Ids(chosen)[..k]
      invariant forall id :: LoadOf(newLoad, id) == LoadOf(load, id) + if id in selected then 1 else 0
    {
      selected := selected + [chosen[k].id];
      newLoad := newLoad[chosen[k].id := LoadOf(newLoad, chosen[k].id) + 1];
    }
  }

  method SelectTargets(source: Node, ring: seq<Node>, replicas: int, load: map<string, int>, ghost i: nat, ghost prior: seq<Route>)
    returns (selected: seq<string>, newLoad: map<string, int>)
    requires DistinctIds(ring) && i < |ring| && ring[i] == source && LoadMatches(load, prior)
    ensures selected == Targets(source, Successors(ring, i), Replicas(replicas), prior)
    ensures LoadMatches(newLoad, prior + [Route(source.id, selected)])
  {
    ghost var candidates := Successors(ring, i);
    SuccessorsDistinct(ring, i);
    ChosenFacts(source, candidates, Replicas(replicas), prior);
    if replicas <= 0 {
      LoadAfter(load, load, prior, Route(source.id, []));
      return [], load;
    }
    var successors := RingSuccessors(source, ring);
    if |successors| == 0 {
      LoadAfter(load, load, prior, Route(source.id, []));
      return [], load;
    }
    var count := if replicas > |successors| then |successors| else replicas;
    var chosen := ChooseNodes(source, successors, count, load, prior);
    selected, newLoad := CountInbound(chosen, load);
    LoadAfter(load, newLoad, prior, Route(source.id, selected));
  }

  lemma LoadAfter(load: map<string, int>, newLoad: map<string, int>, prior: seq<Route>, route: Route)
    requires LoadMatches(load, prior)
    requires forall id :: LoadOf(newLoad, id) == LoadOf(load, id) + if id in route.targets then 1 else 0
    ensures LoadMatches(newLoad, prior + [route])
  {
    assert (prior + [route])[..|prior|] == prior;
  }

  ghost predicate Admitted(ring: seq<Node>, id: string) { exists n :: n in ring && n.id == id }

  /** The first duplicate or unknown source in the list, or Ok. */
  ghost function SourceError(ring: seq<Node>, ids: seq<string>): Result {
    if ids == [] then Ok(Draft([], []))
    else
      var init, last := ids[..|ids| - 1], ids[|ids| - 1];
      var before := SourceError(ring, init);
      if !before.Ok? then before
      else if last in init then DuplicateSource(last)
      else if !Admitted(ring, last) then NotAdmitted(last)
      else Ok(Draft([], []))
  }

  lemma {:induction false} ErrorStays(ring: seq<Node>, ids: seq<string>, n: nat)
    requires n <= |ids| && !SourceError(ring, ids[..n]).Ok?
    ensures SourceError(ring, ids) == SourceError(ring, ids[..n])
    decreases |ids|
  {
    if n < |ids| {
      assert ids[..|ids| - 1][..n] == ids[..n];
      ErrorStays(ring, ids[..|ids| - 1], n);
    } else {
      assert ids[..n] == ids;
    }
  }

  lemma NextSourceError(ring: seq<Node>, ids: seq<string>, i: nat)
    requires i < |ids| && SourceError(ring, ids[..i]) == Ok(Draft([], []))
    ensures ids[..i + 1] == ids[..i] + [ids[i]]
    ensures ids[i] in ids[..i] ==> SourceError(ring, ids) == DuplicateSource(ids[i])
    ensures ids[i] !in ids[..i] && !Admitted(ring, ids[i]) ==> SourceError(ring, ids) == NotAdmitted(ids[i])
    ensures ids[i] !in ids[..i] && Admitted(ring, ids[i]) ==> SourceError(ring, ids[..i + 1]) == Ok(Draft([], []))
  {
    assert ids[..i + 1][..i] == ids[..i];
    if !SourceError(ring, ids[..i + 1]).Ok? {
      ErrorStays(ring, ids, i + 1);
    }
  }

  /** What the error says of the list. */
  lemma {:induction false} SourceErrorFacts(ring: seq<Node>, ids: seq<string>)
    ensures SourceError(ring, ids).Ok? <==> NoDuplicates(ids) && forall id :: id in ids ==> Admitted(ring, id)
    ensures SourceError(ring, ids).Ok? ==> SourceError(ring, ids) == Ok(Draft([], []))
    ensures SourceError(ring, ids).NotAdmitted? ==> SourceError(ring, ids).id in ids && !Admitted(ring, SourceError(ring, ids).id)
    ensures SourceError(ring, ids).DuplicateSource? ==> multiset(ids)[SourceError(ring, ids).id] > 1
  {
    if ids != [] {
      var init, last := ids[..|ids| - 1], ids[|ids| - 1];
      SourceErrorFacts(ring, init);
      assert ids == init + [last];
      if last in init {
        DuplicateFound(ids, |init|);
      }
    }
  }

  /** Looks every source up; the first duplicate or unknown source is the error. */
  method CollectSources(ring: seq<Node>, sourceIds: seq<string>) returns (sources: seq<Node>, error: Result)
    requires DistinctIds(ring)
    ensures error == SourceError(ring, sourceIds)
    ensures error.Ok? ==> Ids(sources) == sourceIds && forall n :: n in sources ==> n in ring
  {
    var byId := IndexById(ring);
    sources := [];
    var seen: set<string> := {};
    for i := 0 to |sourceIds|
      invariant Ids(sources) == sourceIds[..i] && forall n :: n in sources ==> n in ring
      invariant forall id :: id in seen <==> id in sourceIds[..i]
      invariant SourceError(ring, sourceIds[..i]) == Ok(Draft([], []))
    {
      var id := sourceIds[i];
      NextSourceError(ring, sourceIds, i);
      if id in seen {
        return [], DuplicateSource(id);
      }
      if id !in byId {
        return [], NotAdmitted(id);
      }
      seen := seen + {id};
      sources := sources + [byId[id]];
    }
    assert sourceIds[..|sourceIds|] == sourceIds;
    return sources, Ok(Draft([], []));
  }

  lemma DuplicateFound(ids: seq<string>, i: nat)
    requires i < |ids| && ids[i] in ids[..i]
    ensures !NoDuplicates(ids) && multiset(ids)[ids[i]] > 1
  {
    var k :| 0 <= k < i && ids[..i][k] == ids[i];
    assert ids[k] == ids[i];
    assert ids == ids[..i] + ([ids[i]] + ids[i + 1..]);
    assert multiset(ids[..i])[ids[i]] > 0;
    assert multiset([ids[i]] + ids[i + 1..]) == multiset{ids[i]} + multiset(ids[i + 1..]);
  }

  method IndexById(ring: seq<Node>) returns (byId: map<string, Node>)
    ensures forall id :: id in byId <==> Admitted(ring, id)
    ensures forall id :: id in byId ==> byId[id].id == id && byId[id] in ring
  {
    byId := map[];
    for i := 0 to |ring|
      invariant forall id :: id in byId ==> byId[id].id == id && byId[id] in ring
      invariant forall k :: 0 <= k < i ==> ring[k].id in byId
    {
      byId := byId[ring[i].id := ring[i]];
    }
  }

  function Selected(ring: seq<Node>, ids: set<string>): seq<Node> { Filter(ring, (n: Node) => n.id in ids) }

  /** The looked-up sources, sorted, are the ring's nodes with the given ids. */
  lemma SourcesOnRing(ring: seq<Node>, sources: seq<Node>, sourceIds: seq<string>, ids: set<string>)
    requires StrictOrder(NodeLess) && Ascending(NodeLess, ring) && DistinctIds(ring)
    requires NoDuplicates(sourceIds) && Ids(sources) == sourceIds && ids == IdSet(sourceIds)
    requires forall n :: n in sources ==> n in ring
    ensures SortBy(NodeLess, sources) == Selected(ring, ids)
  {
    var inIds := (n: Node) => n.id in ids;
    FilterMembers(ring, inIds);
    FilterMembers(ring, (n: Node) => n.id in ids);
    FilterAgrees(ring, inIds, (n: Node) => n.id in ids);
    FilterAscending(NodeLess, ring, inIds);
    forall i, j | 0 <= i < j < |sources|
      ensures NodeLess(sources[i], sources[j]) || NodeLess(sources[j], sources[i])
    {
      assert sources[i].id == sourceIds[i] && sources[j].id == sourceIds[j];
      StrLessTotal(sources[i].id, sources[j].id);
    }
    SortAscending(NodeLess, sources);
    SortMembers(NodeLess, sources);
    forall n
      ensures n in sources <==> n in Filter(ring, inIds)
    {
      if n in sources {
        var k :| 0 <= k < |sources| && sources[k] == n;
        assert sourceIds[k] == n.id;
      }
      if n in ring && n.id in ids {
        var k :| 0 <= k < |sourceIds| && sourceIds[k] == n.id;
        assert sources[k] in ring && sources[k].id == n.id;
        assert sources[k] == n;
      }
    }
    AscendingUnique(NodeLess, SortBy(NodeLess, sources), Filter(ring, inIds));
  }

  /** The next source's place on the ring; the nodes skipped are no sources. */
  lemma {:induction false} NextSource(ring: seq<Node>, ids: set<string>, n: nat, k: nat, count: nat) returns (i: nat)
    requires n <= |ring| && k < |Selected(ring, ids)| && Selected(ring[..n], ids) == Selected(ring, ids)[..k]
    ensures n <= i < |ring| && ring[i] == Selected(ring, ids)[k] && ring[i].id in ids
    ensures Selected(ring[..i + 1], ids) == Selected(ring, ids)[..k + 1]
    ensures Routes(ring, i, ids, count) == Routes(ring, n, ids, count)
    decreases |ring| - n
  {
    assert ring[..|ring|] == ring;
    SelectedNext(ring, n, ids);
    if ring[n].id in ids {
      i := n;
      assert Selected(ring, ids)[..k + 1] == Selected(ring, ids)[..k] + [Selected(ring, ids)[k]];
    } else {
      i := NextSource(ring, ids, n + 1, k, count);
    }
  }

  lemma SelectedNext(ring: seq<Node>, n: nat, ids: set<string>)
    requires n < |ring|
    ensures Selected(ring[..n + 1], ids) == Selected(ring[..n], ids) + (if ring[n].id in ids then [ring[n]] else [])
    ensures Selected(ring[..n + 1], ids) <= Selected(ring, ids)
  {
    FilterNext(ring, n, (m: Node) => m.id in ids);
    assert ring == ring[..n + 1] + ring[n + 1..];
    FilterConcat(ring[..n + 1], ring[n + 1..], (m: Node) => m.id in ids);
  }

  lemma {:induction false} NoMoreSources(ring: seq<Node>, ids: set<string>, n: nat, count: nat)
    requires n <= |ring| && Selected(ring[..n], ids) == Selected(ring, ids)
    ensures Routes(ring, |ring|, ids, count) == Routes(ring, n, ids, count)
    decreases |ring| - n
  {
    if n < |ring| {
      SelectedNext(ring, n, ids);
      NoMoreSources(ring, ids, n + 1, count);
    }
  }

  lemma RingFacts(nodes: seq<Node>)
    requires DistinctIds(nodes)
    ensures StrictOrder(NodeLess) && Ascending(NodeLess, Ring(nodes)) && DistinctIds(Ring(nodes))
    ensures forall n :: n in Ring(nodes) <==> n in nodes && n.admitted
  {
    var admitted := (n: Node) => n.admitted;
    StrLessIsOrder();
    FilterMembers(nodes, admitted);
    FilterAgrees(nodes, admitted, (n: Node) => n.admitted);
    FilteredDistinct(nodes, admitted);
    var f := Filter(nodes, admitted);
    assert Distinguishes(NodeLess, f);
    SortAscending(NodeLess, f);
    SortMembers(NodeLess, f);
    var ring := Ring(nodes);
    assert forall i, j :: 0 <= i < j < |ring| ==> NodeLess(ring[i], ring[j]);
  }

  lemma {:induction false} FilteredDistinct(nodes: seq<Node>, keep: Node -> bool)
    requires DistinctIds(nodes)
    ensures DistinctIds(Filter(nodes, keep))
  {
    if nodes != [] {
      assert forall i :: 0 <= i < |nodes| - 1 ==> nodes[1..][i] == nodes[i + 1];
      FilteredDistinct(nodes[1..], keep);
      FilterMembers(nodes[1..], keep);
      var r := Filter(nodes[1..], keep);
      forall j | 0 <= j < |r|
        ensures r[j].id != nodes[0].id
      {
        assert r[j] in r;
      }
    }
  }

  method ListWarnings(ring: seq<Node>, factor: int) returns (warnings: seq<Warning>, replicas: int)
    ensures |ring| == 1 ==> warnings == OfflineWarnings(ring) + [SingleNode]
    ensures |ring| != 1 ==> forall ids :: warnings == DraftOf(ring, ids, factor).warnings
    ensures |ring| != 1 ==> replicas == Min(factor, |ring| - 1)
  {
    warnings, replicas := [], factor;
    for i := 0 to |ring|
      invariant warnings == OfflineWarnings(ring[..i])
    {
      assert ring[..i + 1][..i] == ring[..i];
      if !ring[i].alive {
        warnings := warnings + [Offline(ring[i].id)];
      }
    }
    assert ring[..|ring|] == ring;
    if |ring| == 1 {
      warnings := warnings + [SingleNode];
      return;
    }
    var hasTopology := false;
    for i := 0 to |ring|
      invariant !hasTopology && forall k :: 0 <= k < i ==> !Labelled(ring[k])
    {
      if ring[i].zone != "" || ring[i].rack != "" || ring[i].host != "" {
        hasTopology := true;
        assert ring[i] in ring;
        break;
      }
    }
    if !hasTopology {
      warnings := warnings + [NoTopologyLabels];
    }
    var maxTargets := |ring| - 1;
    if factor > maxTargets {
      replicas := maxTargets;
      warnings := warnings + [Degraded];
    }
  }

  /** Routes for the given sources over every admitted node. */
  method GenerateRoutesForSources(nodes: seq<Node>, sourceIds: seq<string>, factor: int) returns (result: Result)
    requires DistinctIds(nodes)
    ensures result.Ok? <==> NoDuplicates(sourceIds) && forall id :: id in sourceIds ==> Admitted(Ring(nodes), id)
    ensures result.Ok? ==> result.draft == DraftOf(Ring(nodes), IdSet(sourceIds), factor)
    ensures !result.Ok? ==> result == SourceError(Ring(nodes), sourceIds)
  {
    var ring: seq<Node> := [];
    for i := 0 to |nodes|
      invariant ring == Filter(nodes[..i], (n: Node) => n.admitted)
    {
      FilterNext(nodes, i, (n: Node) => n.admitted);
      if nodes[i].admitted {
        ring := ring + [nodes[i]];
      }
    }
    assert nodes[..|nodes|] == nodes;
    ring := SortBy(NodeLess, ring);
    RingFacts(nodes);
    var sources, error := CollectSources(ring, sourceIds);
    SourceErrorFacts(ring, sourceIds);
    if !error.Ok? {
      return error;
    }
    ghost var ids := IdSet(sourceIds);
    SourcesOnRing(ring, sources, sourceIds, ids);
    sources := SortBy(NodeLess, sources);
    var warnings, replicas := ListWarnings(ring, factor);
    if |ring| == 1 {
      return Ok(Draft([], warnings));
    }
    var routes := PlanRoutes(ring, sources, replicas, ids);
    return Ok(Draft(routes, warnings));
  }

  /** One route per source in turn; the load map always counts the routes planned so far. */
  method PlanRoutes(ring: seq<Node>, sources: seq<Node>, replicas: int, ghost ids: set<string>) returns (routes: seq<Route>)
    requires DistinctIds(ring) && sources == Selected(ring, ids)
    ensures routes == Routes(ring, |ring|, ids, Replicas(replicas))
  {
    var inboundLoad: map<string, int> := map[];
    routes := [];
    ghost var n := 0;
    ghost var count := Replicas(replicas);
    for k := 0 to |sources|
      invariant n <= |ring| && Selected(ring[..n], ids) == sources[..k]
      invariant routes == Routes(ring, n, ids, count)
      invariant LoadMatches(inboundLoad, routes)
    {
      ghost var i := NextSource(ring, ids, n, k, count);
      var targets, load := SelectTargets(sources[k], ring, replicas, inboundLoad, i, routes);
      routes := routes + [Route(sources[k].id, targets)];
      inboundLoad := load;
      n := i + 1;
    }
    NoMoreSources(ring, ids, n, count);
  }
}
