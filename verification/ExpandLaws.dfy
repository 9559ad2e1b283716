/** What an expansion guarantees about the targets it returns. */
module ExpandLaws {
  import opened Expand
  import opened BatchTypes
  import opened StringOrder

  // ---- one target per key ---------------------------------------------------------------------------------

  /** The entries whose key did not occur earlier in the list. */
  function FirstOnes(ts: seq<Candidate>): seq<Candidate> {
    if ts == [] then []
    else
      var init, last := ts[..|ts| - 1], ts[|ts| - 1];
      FirstOnes(init) + if exists i :: 0 <= i < |init| && Key(init[i]) == Key(last) then [] else [last]
  }

  ghost predicate DistinctKeys(out: seq<Candidate>) {
    forall i, j :: 0 <= i < j < |out| ==> Key(out[i]) != Key(out[j])
  }

  lemma {:induction false} FirstOnesFacts(ts: seq<Candidate>)
    ensures Keys(FirstOnes(ts)) == Keys(ts)
    ensures DistinctKeys(FirstOnes(ts))
    ensures forall t :: t in FirstOnes(ts) ==> t in ts
  {
    if ts != [] {
      var init, last := ts[..|ts| - 1], ts[|ts| - 1];
      FirstOnesFacts(init);
      assert ts == init + [last];
      KeysAppend(init, last);
      KeysAppend(FirstOnes(init), last);
      assert Key(last) in Keys(init) <==> exists i :: 0 <= i < |init| && Key(init[i]) == Key(last);
      assert FirstOnes(ts) == FirstOnes(init) + if Key(last) in Keys(init) then [] else [last];
      assert FirstOnes(init) + [] == FirstOnes(init);
      assert forall i :: 0 <= i < |FirstOnes(init)| ==> Key(FirstOnes(init)[i]) in Keys(FirstOnes(init));
    }
  }

  /** The accumulator keeps, of all targets proposed, the first with each key, in the order proposed. */
  lemma {:induction false} AccumulatorKeepsFirst(ts: seq<Candidate>)
    ensures AddAll([], ts) == FirstOnes(ts)
  {
    if ts != [] {
      var init, last := ts[..|ts| - 1], ts[|ts| - 1];
      AccumulatorKeepsFirst(init);
      assert ts == init + [last];
      AddAllConcat([], init, [last]);
      FirstOnesFacts(init);
      assert AddAll(AddAll([], init), [last]) == Added(FirstOnes(init), last);
    }
  }

  predicate NulFree(s: string) { '\0' !in s }

  predicate PlainIds(t: Candidate) { NulFree(t.nodeId) && NulFree(t.processId) && NulFree(t.processName) }

  /** Names without NUL: one key means one node and one process, by id if it has one, else by name. */
  lemma KeyIdentifies(t: Candidate, u: Candidate)
    requires PlainIds(t) && PlainIds(u)
    ensures Key(t) == Key(u) <==>
            t.nodeId == u.nodeId && t.processId == u.processId && (t.processId == "" ==> t.processName == u.processName)
  {
    if Key(t) == Key(u) {
      assert Key(t) == t.nodeId + "\0" + Rest(t) && Key(u) == u.nodeId + "\0" + Rest(u);
      SplitAtNul(t.nodeId, Rest(t), u.nodeId, Rest(u));
      RestFacts(t);
      RestFacts(u);
    }
  }

  /** The key after the node id and its separator. */
  function Rest(t: Candidate): string { t.processId + if t.processId == "" then "\0" + t.processName else "" }

  lemma RestFacts(t: Candidate)
    requires PlainIds(t)
    ensures t.processId == "" <==> '\0' in Rest(t)
    ensures t.processId == "" ==> Rest(t)[0] == '\0' && Rest(t)[1..] == t.processName
    ensures t.processId != "" ==> Rest(t) == t.processId
  {
    if t.processId == "" {
      assert Rest(t) == "\0" + t.processName;
    }
  }

  /** No expansion, whatever the union of selectors, returns two targets for one process. */
  lemma NoTargetTwice(env: Env, sel: Selector, typ: Type)
    ensures Expanded(env, sel, typ).Ok? ==> DistinctKeys(Expanded(env, sel, typ).value)
  {
    var o := Proposed(env, sel, typ);
    if o.Adds? {
      AccumulatorKeepsFirst(o.targets);
      FirstOnesFacts(o.targets);
    }
  }

  // ---- who may run ----------------------------------------------------------------------------------------

  predicate Allowed(env: Env, typ: Type, spec: OwnerSpec) {
    env.auth.None? || env.auth.value(spec.nodeId, spec.group, PermForType(typ)) == None
  }

  /** A config update has its payload. */
  predicate Prepared(env: Env, typ: Type, spec: OwnerSpec) {
    typ == ConfigUpdate ==> env.overlay.Some? && env.overlay.value(spec).Ok?
  }

  predicate Describes(t: Candidate, spec: OwnerSpec) {
    t.nodeId == spec.nodeId && t.processId == spec.processId && t.processName == spec.name
  }

  /** A target is left runnable exactly when nothing disqualified it before, the owner's node and group are
      permitted, and a config update has its payload; a denial outranks a failed overlay. */
  lemma FinishExact(env: Env, spec: OwnerSpec, typ: Type, status: Option<TargetStatus>, error: string, t: Candidate)
    requires Finish(env, spec, typ, status, error) == Ok(t)
    requires status == None || status == Some(Invalid)
    ensures Describes(t, spec)
    ensures t.status == None <==> status == None && Allowed(env, typ, spec) && Prepared(env, typ, spec)
    ensures t.status == Some(Denied) <==> status == None && !Allowed(env, typ, spec)
    ensures t.status == None && typ == ConfigUpdate ==>
            t.payload == env.overlay.value(spec).value.payload && t.expectedRevision == env.overlay.value(spec).value.expected
  {
  }

  /** The owner answered, the target is its process, and it may run there; in `group` unless that is empty. */
  ghost predicate Vouched(env: Env, typ: Type, group: string, t: Candidate) {
    exists node, idOrName, processId ::
      GetSpec(env, node, idOrName).Ok? &&
      Cleared(env, typ, group, t, Filled(GetSpec(env, node, idOrName).value, node, processId))
  }

  predicate Cleared(env: Env, typ: Type, group: string, t: Candidate, spec: OwnerSpec) {
    Describes(t, spec) && Allowed(env, typ, spec) && Prepared(env, typ, spec) && (group == "" || spec.group == group)
  }

  /** Every runnable target of the outcome is vouched for. */
  ghost predicate Safe(env: Env, typ: Type, group: string, o: Outcome) {
    o.Adds? ==> forall t :: t in o.targets && t.status == None ==> Vouched(env, typ, group, t)
  }

  lemma FromGetSafe(env: Env, node: string, idOrName: string, typ: Type, h: Hint)
    ensures Safe(env, typ, h.requireGroup, FromGet(env, node, idOrName, typ, h))
  {
    var r := GetSpec(env, node, idOrName);
    if r.Ok? {
      var spec := Filled(r.value, node, h.processId);
      var mismatch := h.requireGroup != "" && r.value.group != h.requireGroup;
      var f := Finish(env, spec, typ, if mismatch then Some(Invalid) else None, if mismatch then "group mismatch" else "");
      if f.Ok? {
        FinishExact(env, spec, typ, if mismatch then Some(Invalid) else None, if mismatch then "group mismatch" else "", f.value);
      }
    }
  }

  lemma {:induction false} SearchSafe(env: Env, typ: Type, id: string, nodes: seq<NodeView>, retained: Option<Error>)
    ensures Safe(env, typ, "", Search(env, typ, id, nodes, retained))
    decreases |nodes|
  {
    if nodes != [] {
      var r := GetSpec(env, nodes[0].nodeId, id);
      if r.Ok? {
        var f := Finish(env, Filled(r.value, nodes[0].nodeId, id), typ, None, "");
        if f.Ok? {
          FinishExact(env, Filled(r.value, nodes[0].nodeId, id), typ, None, "", f.value);
        }
      } else {
        SearchSafe(env, typ, id, nodes[1..], retained);
        SearchSafe(env, typ, id, nodes[1..], Some(r.error));
      }
    }
  }

  lemma {:induction false} EachSafe<T(!new)>(env: Env, typ: Type, group: string, xs: seq<T>, f: T -> Outcome)
    requires forall x :: x in xs ==> Safe(env, typ, group, f(x))
    ensures Safe(env, typ, group, Each(xs, f))
  {
    if xs != [] {
      assert xs[0] in xs;
      EachSafe(env, typ, group, xs[1..], f);
    }
  }

  lemma IdsSafe(env: Env, typ: Type, ids: seq<string>)
    ensures Safe(env, typ, "", Each(ids, ById(env, typ)))
  {
    forall raw | raw in ids ensures Safe(env, typ, "", ById(env, typ)(raw)) {
      var id := Trim(raw);
      var owner := OwnerOf(env.nodes, id);
      if owner.Some? {
        FromGetSafe(env, owner.value, id, typ, Hint(owner.value, id, "", "", false));
      }
      SearchSafe(env, typ, id, env.nodes, None);
    }
    EachSafe(env, typ, "", ids, ById(env, typ));
  }

  lemma NamesSafe(env: Env, typ: Type, refs: seq<NameRef>)
    ensures Safe(env, typ, "", Each(refs, ByName(env, typ)))
  {
    forall ref | ref in refs ensures Safe(env, typ, "", ByName(env, typ)(ref)) {
      var node, name := Trim(ref.nodeId), Trim(ref.processName);
      FromGetSafe(env, node, name, typ, Hint(node, "", name, "", false));
    }
    EachSafe(env, typ, "", refs, ByName(env, typ));
  }

  lemma MembersSafe(env: Env, typ: Type, members: seq<string>)
    ensures Safe(env, typ, "", Each(env.nodes, ByMember(env, typ, members)))
  {
    forall n: NodeView | n in env.nodes ensures Safe(env, typ, "", ByMember(env, typ, members)(n)) {
      forall p | p in n.processes ensures Safe(env, typ, "", OfMember(env, typ, n.nodeId)(p)) {
        FromGetSafe(env, n.nodeId, p.processId, typ, Hint(n.nodeId, p.processId, "", "", true));
      }
      EachSafe(env, typ, "", n.processes, OfMember(env, typ, n.nodeId));
    }
    EachSafe(env, typ, "", env.nodes, ByMember(env, typ, members));
  }

  lemma GroupSafe(env: Env, typ: Type, group: string)
    ensures Safe(env, typ, group, Each(env.nodes, ByGroup(env, typ, group)))
  {
    forall n: NodeView | n in env.nodes ensures Safe(env, typ, group, ByGroup(env, typ, group)(n)) {
      forall p | p in n.processes ensures Safe(env, typ, group, InGroup(env, typ, group, n.nodeId)(p)) {
        FromGetSafe(env, n.nodeId, p.processId, typ, Hint(n.nodeId, p.processId, p.name, group, false));
      }
      EachSafe(env, typ, group, n.processes, InGroup(env, typ, group, n.nodeId));
    }
    EachSafe(env, typ, group, env.nodes, ByGroup(env, typ, group));
  }

  lemma SafeWeakens(env: Env, typ: Type, group: string, o: Outcome)
    requires Safe(env, typ, group, o)
    ensures Safe(env, typ, "", o)
  {
    if o.Adds? {
      forall t | t in o.targets && t.status == None ensures Vouched(env, typ, "", t) {
        var node, idOrName, processId :|
          GetSpec(env, node, idOrName).Ok? &&
          Cleared(env, typ, group, t, Filled(GetSpec(env, node, idOrName).value, node, processId));
        assert Cleared(env, typ, "", t, Filled(GetSpec(env, node, idOrName).value, node, processId));
      }
    }
  }

  lemma ThenSafe(env: Env, typ: Type, group: string, a: Outcome, b: Outcome)
    requires Safe(env, typ, group, a) && Safe(env, typ, group, b)
    ensures Safe(env, typ, group, Then(a, b))
  {
  }

  lemma ProposedSafe(env: Env, sel: Selector, typ: Type)
    ensures Safe(env, typ, "", Proposed(env, sel, typ))
  {
    var group, members := Trim(sel.processGroup), Members(env, sel.agentGroupId);
    if members.Ok? {
      var c := if sel.agentGroupId != "" then Each(env.nodes, ByMember(env, typ, members.value)) else Adds([]);
      var d := if group != "" then Each(env.nodes, ByGroup(env, typ, group)) else Adds([]);
      IdsSafe(env, typ, sel.processIds);
      NamesSafe(env, typ, sel.processNames);
      MembersSafe(env, typ, members.value);
      GroupSafe(env, typ, group);
      SafeWeakens(env, typ, group, Each(env.nodes, ByGroup(env, typ, group)));
      ThenSafe(env, typ, "", c, d);
      ThenSafe(env, typ, "", Each(sel.processNames, ByName(env, typ)), Then(c, d));
      ThenSafe(env, typ, "", Each(sel.processIds, ById(env, typ)), Then(Each(sel.processNames, ByName(env, typ)), Then(c, d)));
    }
  }

  /** All targets that may run are vouched for, in the group given. */
  ghost predicate OnlyVouched(env: Env, typ: Type, group: string, r: Result<seq<Candidate>>) {
    r.Ok? ==> forall t :: t in r.value && t.status == None ==> Vouched(env, typ, group, t)
  }

  lemma SafeResult(env: Env, sel: Selector, typ: Type, group: string)
    requires Safe(env, typ, group, Proposed(env, sel, typ))
    ensures OnlyVouched(env, typ, group, Expanded(env, sel, typ))
  {
    var o := Proposed(env, sel, typ);
    if o.Adds? {
      AccumulatorKeepsFirst(o.targets);
      FirstOnesFacts(o.targets);
    }
  }

  /** Every target that may run is the process an owner reported, and was allowed on the node and group that
      the owner reported, whatever gossip or the selector said. */
  lemma RunnableIsAllowed(env: Env, sel: Selector, typ: Type)
    ensures OnlyVouched(env, typ, "", Expanded(env, sel, typ))
  {
    ProposedSafe(env, sel, typ);
    SafeResult(env, sel, typ, "");
  }

  /** When the process group is the only selector, every target that may run is in that group by its owner's
      record, however stale gossip is. */
  lemma LoneGroupHolds(env: Env, group: string, typ: Type)
    ensures OnlyVouched(env, typ, Trim(group), Expanded(env, Selector([], [], "", group), typ))
  {
    var sel, name := Selector([], [], "", group), Trim(group);
    assert Each(sel.processIds, ById(env, typ)) == Adds([]);
    assert Each(sel.processNames, ByName(env, typ)) == Adds([]);
    var d := if name != "" then Each(env.nodes, ByGroup(env, typ, name)) else Adds([]);
    GroupSafe(env, typ, name);
    ThenNothing(d);
    SafeResult(env, sel, typ, name);
  }

  lemma ThenNothing(d: Outcome)
    ensures Then(Adds([]), Then(Adds([]), Then(Adds([]), d))) == d
  {
    if d.Adds? {
      assert [] + ([] + ([] + d.targets)) == d.targets;
    }
  }

  // ---- nothing asked for is lost --------------------------------------------------------------------------

  lemma {:induction false} EachContains<T(!new)>(xs: seq<T>, f: T -> Outcome, x: T)
    requires Each(xs, f).Adds? && x in xs
    ensures f(x).Adds? && Keys(f(x).targets) <= Keys(Each(xs, f).targets)
  {
    var first, rest := f(xs[0]), Each(xs[1..], f);
    KeysConcat(first.targets, rest.targets);
    if x != xs[0] {
      assert x in xs[1..];
      EachContains(xs[1..], f, x);
    }
  }

  lemma KeysConcat(a: seq<Candidate>, b: seq<Candidate>)
    ensures Keys(a + b) == Keys(a) + Keys(b)
  {
    forall k | k in Keys(a) + Keys(b) ensures k in Keys(a + b) {
      if k in Keys(a) {
        var i :| 0 <= i < |a| && Key(a[i]) == k;
        assert (a + b)[i] == a[i];
      } else {
        var i :| 0 <= i < |b| && Key(b[i]) == k;
        assert (a + b)[|a| + i] == b[i];
      }
    }
  }

  lemma {:induction false} SearchAnswers(env: Env, typ: Type, id: string, nodes: seq<NodeView>, retained: Option<Error>)
    ensures Search(env, typ, id, nodes, retained).Adds? ==> |Search(env, typ, id, nodes, retained).targets| == 1
    decreases |nodes|
  {
    if nodes != [] {
      var r := GetSpec(env, nodes[0].nodeId, id);
      if r.Err? {
        SearchAnswers(env, typ, id, nodes[1..], retained);
        SearchAnswers(env, typ, id, nodes[1..], Some(r.error));
      }
    }
  }

  /** Every process id asked for gets exactly one answer, a target or the reason there is none, and the result
      holds a target with its key. */
  lemma EveryIdIsAnswered(env: Env, sel: Selector, typ: Type, raw: string)
    requires raw in sel.processIds && Trim(raw) != ""
    ensures Expanded(env, sel, typ).Ok? ==>
      var answer := ById(env, typ)(raw);
      answer.Adds? && |answer.targets| == 1 && Key(answer.targets[0]) in Keys(Expanded(env, sel, typ).value)
  {
    if Expanded(env, sel, typ).Ok? {
      IdsComeFirst(env, sel, typ);
      EachContains(sel.processIds, ById(env, typ), raw);
      IdAnswers(env, typ, raw);
      assert Key(ById(env, typ)(raw).targets[0]) in Keys(ById(env, typ)(raw).targets);
    }
  }

  lemma IdAnswers(env: Env, typ: Type, raw: string)
    requires Trim(raw) != "" && ById(env, typ)(raw).Adds?
    ensures |ById(env, typ)(raw).targets| == 1
  {
    SearchAnswers(env, typ, Trim(raw), env.nodes, None);
  }

  lemma IdsComeFirst(env: Env, sel: Selector, typ: Type)
    requires Expanded(env, sel, typ).Ok?
    ensures Each(sel.processIds, ById(env, typ)).Adds?
    ensures Keys(Each(sel.processIds, ById(env, typ)).targets) <= Keys(Expanded(env, sel, typ).value)
  {
    var all := Proposed(env, sel, typ).targets;
    var ids := Each(sel.processIds, ById(env, typ));
    var rest := all[|ids.targets|..];
    assert all == ids.targets + rest;
    KeysConcat(ids.targets, rest);
    AccumulatorKeepsFirst(all);
    FirstOnesFacts(all);
  }
}
