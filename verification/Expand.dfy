/** Resolving a batch selector into targets: gossip proposes candidates, the owner's record decides, and one
    accumulator drops repeated targets.

  The answers of the collaborators (membership snapshot, group members, owner records, permissions, config
  overlay) are functions, so one expansion sees one answer for one question. */
module Expand {
  import opened BatchTypes

  datatype Option<T> = None | Some(value: T)

  datatype Type = Start | Stop | Restart | ConfigUpdate

  datatype Code = NotFound | DeniedCode | InvalidCode | TimeoutCode | UnavailableCode | OtherCode

  /** An error with its code, whether it wraps an exceeded deadline, and its text. */
  datatype Error = Error(code: Code, deadline: bool, text: string)

  datatype ProcView = ProcView(processId: string, name: string, group: string)

  datatype NodeView = NodeView(nodeId: string, processes: seq<ProcView>)

  datatype OwnerSpec = OwnerSpec(processId: string, name: string, nodeId: string, group: string,
                                 latestRevision: int, specJson: string)

  datatype Result<T> = Ok(value: T) | Err(error: Error)

  datatype Overlay = Overlay(payload: string, expected: int)

  datatype NameRef = NameRef(nodeId: string, processName: string)

  datatype Selector = Selector(processIds: seq<string>, processNames: seq<NameRef>, agentGroupId: string,
                               processGroup: string)

  /** A target before it is stored: no status means it may run. */
  datatype Candidate = Candidate(nodeId: string, processId: string, processName: string,
                                 status: Option<TargetStatus>, error: string, expectedRevision: int, payload: string)

  datatype Hint = Hint(nodeId: string, processId: string, processName: string, requireGroup: string, dropMissing: bool)

  /** The expander with its collaborators; None is a nil one. */
  datatype Env = Env(
    nodes: seq<NodeView>,
    groups: Option<string -> Result<seq<string>>>,
    specs: Option<(string, string) -> Result<OwnerSpec>>,
    auth: Option<(string, string, string) -> Option<Error>>,
    overlay: Option<OwnerSpec -> Result<Overlay>>)

  /** What a step hands to the accumulator, in order, or the error that ends the expansion. */
  datatype Outcome = Adds(targets: seq<Candidate>) | Fails(error: Error)

  function Then(a: Outcome, b: Outcome): Outcome {
    if a.Fails? then a else if b.Fails? then b else Adds(a.targets + b.targets)
  }

  /** One outcome after the other; the first failure ends it. */
  function Each<T>(xs: seq<T>, f: T -> Outcome): Outcome {
    if xs == [] then Adds([]) else Then(f(xs[0]), Each(xs[1..], f))
  }

  // ---- text -----------------------------------------------------------------------------------------------

  /** Unicode white space. */
  predicate IsSpace(c: char) {
    c in "\t\n\U{B}\U{C}\r \U{85}\U{A0}\U{1680}\U{2028}\U{2029}\U{202F}\U{205F}\U{3000}" || '\U{2000}' <= c <= '\U{200A}'
  }

  function TrimLeft(s: string): string { if s != "" && IsSpace(s[0]) then TrimLeft(s[1..]) else s }

  function TrimRight(s: string): string
  { if s != "" && IsSpace(s[|s| - 1]) then TrimRight(s[..|s| - 1]) else s }

  function Trim(s: string): string { TrimRight(TrimLeft(s)) }

  predicate GroupChar(c: char) {
    'A' <= c <= 'Z' || 'a' <= c <= 'z' || '0' <= c <= '9' || c == '.' || c == '_' || c == '-'
  }

  predicate ValidGroup(s: string) { 1 <= |s| <= 64 && forall i :: 0 <= i < |s| ==> GroupChar(s[i]) }

  // ---- one target -----------------------------------------------------------------------------------------

  function PermForType(typ: Type): string {
    match typ
    case Start => "process.start"
    case Stop => "process.stop"
    case Restart => "process.restart"
    case ConfigUpdate => "process.config.update"
  }

  /** The status kept for an error that does not end the expansion. */
  function Retained(e: Error): Option<TargetStatus> {
    if e.code == TimeoutCode || e.deadline then Some(Timeout)
    else if e.code == UnavailableCode then Some(Unavailable)
    else None
  }

  function GetSpec(env: Env, node: string, id: string): Result<OwnerSpec> {
    if env.specs.None? then Err(Error(NotFound, false, "NOT_FOUND: process")) else env.specs.value(node, id)
  }

  function Plain(nodeId: string, processId: string, processName: string, status: Option<TargetStatus>, error: string): Candidate {
    Candidate(nodeId, processId, processName, status, error, 0, "")
  }

  function Finish(env: Env, spec: OwnerSpec, typ: Type, status: Option<TargetStatus>, error: string): Result<Candidate> {
    var t := Plain(spec.nodeId, spec.processId, spec.name, status, error);
    if t.status == Some(Invalid) then Ok(t)
    else
      var denial := if env.auth.None? then None else env.auth.value(spec.nodeId, spec.group, PermForType(typ));
      if denial.Some? && denial.value.code != DeniedCode then Err(denial.value)
      else
        var checked := if denial.Some? then t.(status := Some(Denied), error := denial.value.text) else t;
        if typ != ConfigUpdate then Ok(checked)
        else if env.overlay.None? then
          Ok(if checked.status == Some(Denied) then checked else checked.(status := Some(Invalid), error := "config overlay"))
        else match env.overlay.value(spec)
          case Err(e) =>
            Ok(if checked.status == Some(Denied) then checked else checked.(status := Some(Invalid), error := e.text))
          case Ok(o) => Ok(checked.(payload := o.payload, expectedRevision := o.expected))
  }

  /** The owner's record with the ids the caller already knows filled in. */
  function Filled(spec: OwnerSpec, node: string, processId: string): OwnerSpec {
    spec.(nodeId := if spec.nodeId == "" then node else spec.nodeId,
          processId := if spec.processId == "" then processId else spec.processId)
  }

  function One(r: Result<Candidate>): Outcome {
    match r
    case Ok(t) => Adds([t])
    case Err(e) => Fails(e)
  }

  function Unresolved(h: Hint, status: TargetStatus, error: string): Candidate {
    Plain(h.nodeId, h.processId, h.processName, Some(status), error)
  }

  function FromGet(env: Env, node: string, idOrName: string, typ: Type, h: Hint): Outcome {
    match GetSpec(env, node, idOrName)
    case Err(e) =>
      if e.code == NotFound then
        (if h.dropMissing then Adds([]) else Adds([Unresolved(h, Invalid, "process not found")]))
      else if Retained(e).Some? then Adds([Unresolved(h, Retained(e).value, e.text)])
      else Fails(e)
    case Ok(spec) =>
      var mismatch := h.requireGroup != "" && spec.group != h.requireGroup;
      One(Finish(env, Filled(spec, node, h.processId), typ,
                 if mismatch then Some(Invalid) else None, if mismatch then "group mismatch" else ""))
  }

  // ---- the four selectors ---------------------------------------------------------------------------------

  predicate Advertises(n: NodeView, id: string) {
    exists i :: 0 <= i < |n.processes| && n.processes[i].processId == id
  }

  /** The first node that advertises the id. */
  function OwnerOf(nodes: seq<NodeView>, id: string): Option<string> {
    if nodes == [] then None
    else if Advertises(nodes[0], id) then Some(nodes[0].nodeId)
    else OwnerOf(nodes[1..], id)
  }

  /** Asking every node in turn for an id that nobody advertises. `retained` is the last error kept. */
  function Search(env: Env, typ: Type, id: string, nodes: seq<NodeView>, retained: Option<Error>): Outcome {
    if nodes == [] then
      Adds([if retained.Some? && Retained(retained.value).Some? then
              Plain("", id, "", Retained(retained.value), retained.value.text)
            else Plain("", id, "", Some(Invalid), "process not found")])
    else match GetSpec(env, nodes[0].nodeId, id)
      case Ok(spec) => One(Finish(env, Filled(spec, nodes[0].nodeId, id), typ, None, ""))
      case Err(e) =>
        if e.code == NotFound then Search(env, typ, id, nodes[1..], retained)
        else if Retained(e).Some? then Search(env, typ, id, nodes[1..], Some(e))
        else Fails(e)
  }

  function ById(env: Env, typ: Type): string -> Outcome {
    (raw: string) =>
      var id := Trim(raw);
      if id == "" then Adds([])
      else match OwnerOf(env.nodes, id)
        case Some(node) => FromGet(env, node, id, typ, Hint(node, id, "", "", false))
        case None => Search(env, typ, id, env.nodes, None)
  }

  function ByName(env: Env, typ: Type): NameRef -> Outcome {
    (ref: NameRef) =>
      var node, name := Trim(ref.nodeId), Trim(ref.processName);
      if node == "" && name == "" then Adds([]) else FromGet(env, node, name, typ, Hint(node, "", name, "", false))
  }

  function OfMember(env: Env, typ: Type, node: string): ProcView -> Outcome {
    (p: ProcView) => if p.processId == "" then Adds([])
      else FromGet(env, node, p.processId, typ, Hint(node, p.processId, "", "", true))
  }

  function ByMember(env: Env, typ: Type, members: seq<string>): NodeView -> Outcome {
    (n: NodeView) => if n.nodeId !in members then Adds([]) else Each(n.processes, OfMember(env, typ, n.nodeId))
  }

  function InGroup(env: Env, typ: Type, group: string, node: string): ProcView -> Outcome {
    (p: ProcView) => if p.group != group || p.processId == "" then Adds([])
      else FromGet(env, node, p.processId, typ, Hint(node, p.processId, p.name, group, false))
  }

  function ByGroup(env: Env, typ: Type, group: string): NodeView -> Outcome {
    (n: NodeView) => Each(n.processes, InGroup(env, typ, group, n.nodeId))
  }

  function Refused(text: string): Error { Error(InvalidCode, false, "INVALID: " + text) }

  function Members(env: Env, agentGroupId: string): Result<seq<string>> {
    if agentGroupId == "" then Ok([])
    else if Trim(agentGroupId) == "" || env.groups.None? then Err(Refused("agent group"))
    else env.groups.value(Trim(agentGroupId))
  }

  /** Everything the selectors hand to the accumulator: ids, names, agent group, process group, in that order. */
  function Proposed(env: Env, sel: Selector, typ: Type): Outcome {
    var group := Trim(sel.processGroup);
    if sel.processGroup != "" && !ValidGroup(group) then Fails(Refused("process group"))
    else match Members(env, sel.agentGroupId)
      case Err(e) => Fails(e)
      case Ok(members) =>
        Then(Each(sel.processIds, ById(env, typ)),
        Then(Each(sel.processNames, ByName(env, typ)),
        Then(if sel.agentGroupId != "" then Each(env.nodes, ByMember(env, typ, members)) else Adds([]),
             if group != "" then Each(env.nodes, ByGroup(env, typ, group)) else Adds([]))))
  }

  // ---- the accumulator ------------------------------------------------------------------------------------

  function Key(t: Candidate): string {
    t.nodeId + "\0" + t.processId + if t.processId == "" then "\0" + t.processName else ""
  }

  function Keys(out: seq<Candidate>): set<string> { set i | 0 <= i < |out| :: Key(out[i]) }

  function Added(out: seq<Candidate>, t: Candidate): seq<Candidate> {
    if Key(t) in Keys(out) then out else out + [t]
  }

  function AddAll(out: seq<Candidate>, ts: seq<Candidate>): seq<Candidate>
    decreases |ts|
  {
    if ts == [] then out else AddAll(Added(out, ts[0]), ts[1..])
  }

  lemma {:induction false} AddAllConcat(out: seq<Candidate>, a: seq<Candidate>, b: seq<Candidate>)
    ensures AddAll(out, a + b) == AddAll(AddAll(out, a), b)
    decreases |a|
  {
    if a == [] {
      assert a + b == b;
    } else {
      assert (a + b)[1..] == a[1..] + b;
      AddAllConcat(Added(out, a[0]), a[1..], b);
    }
  }

  lemma KeysAppend(out: seq<Candidate>, t: Candidate)
    ensures Keys(out + [t]) == Keys(out) + {Key(t)}
  {
    var all := out + [t];
    assert all[|out|] == t;
    assert forall i :: 0 <= i < |out| ==> all[i] == out[i];
  }

  class TargetAcc {
    var out: seq<Candidate>
    var seen: set<string>

    ghost predicate Valid()
      reads this
    {
      seen == Keys(out)
    }

    constructor ()
      ensures Valid() && out == []
    {
      out, seen := [], {};
    }

    method Add(t: Candidate)
      requires Valid()
      modifies this
      ensures Valid() && out == Added(old(out), t)
    {
      var key := Key(t);
      if key in seen {
        return;
      }
      seen := seen + {key};
      out := out + [t];
      KeysAppend(old(out), t);
    }
  }

  /** A step did what its outcome says to the accumulated targets. */
  ghost predicate Did(before: seq<Candidate>, after: seq<Candidate>, err: Option<Error>, o: Outcome) {
    match o
    case Fails(e) => err == Some(e)
    case Adds(ts) => err == None && after == AddAll(before, ts)
  }

  /** The first part of the steps is done, and added `done`. */
  ghost predicate DidPart<T>(before: seq<Candidate>, after: seq<Candidate>, done: seq<Candidate>, xs: seq<T>, f: T -> Outcome, i: nat)
    requires i <= |xs|
  {
    after == AddAll(before, done) && Each(xs, f) == Then(Adds(done), Each(xs[i..], f))
  }

  lemma EachNext<T>(xs: seq<T>, f: T -> Outcome, i: nat)
    requires i < |xs|
    ensures Each(xs[i..], f) == Then(f(xs[i]), Each(xs[i + 1..], f))
  {
    assert xs[i..][1..] == xs[i + 1..];
  }

  lemma ThenAssociates(a: Outcome, b: Outcome, c: Outcome)
    ensures Then(a, Then(b, c)) == Then(Then(a, b), c)
  {
    if a.Adds? && b.Adds? && c.Adds? {
      assert a.targets + (b.targets + c.targets) == a.targets + b.targets + c.targets;
    }
  }

  lemma DidStep<T>(before: seq<Candidate>, mid: seq<Candidate>, after: seq<Candidate>, done: seq<Candidate>,
                   xs: seq<T>, f: T -> Outcome, i: nat, err: Option<Error>)
    requires i < |xs| && DidPart(before, mid, done, xs, f, i) && Did(mid, after, err, f(xs[i]))
    ensures err == None ==> f(xs[i]).Adds? && DidPart(before, after, done + f(xs[i]).targets, xs, f, i + 1)
    ensures err != None ==> Did(before, after, err, Each(xs, f))
  {
    var step := f(xs[i]);
    EachNext(xs, f, i);
    ThenAssociates(Adds(done), step, Each(xs[i + 1..], f));
    if step.Adds? {
      AddAllConcat(before, done, step.targets);
    }
  }

  lemma DidAll<T>(before: seq<Candidate>, after: seq<Candidate>, done: seq<Candidate>, xs: seq<T>, f: T -> Outcome)
    requires DidPart(before, after, done, xs, f, |xs|)
    ensures Did(before, after, None, Each(xs, f))
  {
    assert done + [] == done;
  }

  lemma DidNone<T>(before: seq<Candidate>, xs: seq<T>, f: T -> Outcome)
    ensures DidPart(before, before, [], xs, f, 0)
  {
    assert xs[0..] == xs;
    if Each(xs, f).Adds? {
      assert [] + Each(xs, f).targets == Each(xs, f).targets;
    }
  }

  lemma DidThen(before: seq<Candidate>, mid: seq<Candidate>, after: seq<Candidate>, err: Option<Error>, a: Outcome, b: Outcome)
    requires Did(before, mid, None, a) && Did(mid, after, err, b)
    ensures Did(before, after, err, Then(a, b))
  {
    if b.Adds? {
      AddAllConcat(before, a.targets, b.targets);
    }
  }

  // ---- the loops ------------------------------------------------------------------------------------------

  method AddOne(r: Result<Candidate>, acc: TargetAcc) returns (err: Option<Error>)
    requires acc.Valid()
    modifies acc
    ensures acc.Valid() && Did(old(acc.out), acc.out, err, One(r))
  {
    if r.Err? {
      return Some(r.error);
    }
    acc.Add(r.value);
    return None;
  }

  method AddFromGet(env: Env, node: string, idOrName: string, typ: Type, acc: TargetAcc, h: Hint) returns (err: Option<Error>)
    requires acc.Valid()
    modifies acc
    ensures acc.Valid() && Did(old(acc.out), acc.out, err, FromGet(env, node, idOrName, typ, h))
  {
    var r := GetSpec(env, node, idOrName);
    if r.Err? {
      if r.error.code == NotFound {
        if !h.dropMissing {
          acc.Add(Unresolved(h, Invalid, "process not found"));
        }
        return None;
      }
      var st := Retained(r.error);
      if st.Some? {
        acc.Add(Unresolved(h, st.value, r.error.text));
        return None;
      }
      return Some(r.error);
    }
    var spec := r.value;
    if spec.nodeId == "" {
      spec := spec.(nodeId := node);
    }
    if spec.processId == "" {
      spec := spec.(processId := h.processId);
    }
    var status: Option<TargetStatus>, text := None, "";
    if h.requireGroup != "" && spec.group != h.requireGroup {
      status, text := Some(Invalid), "group mismatch";
    }
    err := AddOne(Finish(env, spec, typ, status, text), acc);
  }

  /** The first advertised owner of every process id in the membership snapshot. */
  method OwnersOf(nodes: seq<NodeView>) returns (ownerOf: map<string, string>)
    ensures forall id :: id != "" ==> OwnerOf(nodes, id) == if id in ownerOf then Some(ownerOf[id]) else None
  {
    ownerOf := map[];
    for i := 0 to |nodes|
      invariant forall id :: id != "" ==>
        OwnerOf(nodes, id) == if id in ownerOf then Some(ownerOf[id]) else OwnerOf(nodes[i..], id)
    {
      ghost var before := ownerOf;
      var n := nodes[i];
      for j := 0 to |n.processes|
        invariant forall id :: id in ownerOf <==>
          id in before || (id != "" && exists k :: 0 <= k < j && n.processes[k].processId == id)
        invariant forall id :: id in ownerOf ==> ownerOf[id] == if id in before then before[id] else n.nodeId
      {
        var p := n.processes[j];
        if p.processId != "" {
          if p.processId !in ownerOf {
            ownerOf := ownerOf[p.processId := n.nodeId];
          }
        }
      }
      assert nodes[i..][1..] == nodes[i + 1..];
      assert forall id :: id != "" && id !in before ==> (id in ownerOf <==> Advertises(n, id));
    }
  }

  /** Asks the nodes one by one. */
  method SearchNodes(env: Env, typ: Type, id: string, acc: TargetAcc) returns (err: Option<Error>)
    requires acc.Valid()
    modifies acc
    ensures acc.Valid() && Did(old(acc.out), acc.out, err, Search(env, typ, id, env.nodes, None))
  {
    var retained: Option<Error> := None;
    assert env.nodes[0..] == env.nodes;
    for i := 0 to |env.nodes|
      invariant acc.Valid() && acc.out == old(acc.out)
      invariant retained.Some? ==> Retained(retained.value).Some?
      invariant Search(env, typ, id, env.nodes, None) == Search(env, typ, id, env.nodes[i..], retained)
    {
      var n := env.nodes[i];
      assert env.nodes[i..][1..] == env.nodes[i + 1..];
      var r := GetSpec(env, n.nodeId, id);
      if r.Ok? {
        var spec := r.value;
        if spec.nodeId == "" {
          spec := spec.(nodeId := n.nodeId);
        }
        if spec.processId == "" {
          spec := spec.(processId := id);
        }
        err := AddOne(Finish(env, spec, typ, None, ""), acc);
        return;
      }
      if r.error.code != NotFound {
        if Retained(r.error).None? {
          return Some(r.error);
        }
        retained := Some(r.error);
      }
    }
    if retained.Some? {
      acc.Add(Plain("", id, "", Retained(retained.value), retained.value.text));
    } else {
      acc.Add(Plain("", id, "", Some(Invalid), "process not found"));
    }
    return None;
  }

  method ExpandProcessIDs(env: Env, ids: seq<string>, typ: Type, acc: TargetAcc) returns (err: Option<Error>)
    requires acc.Valid()
    modifies acc
    ensures acc.Valid() && Did(old(acc.out), acc.out, err, Each(ids, ById(env, typ)))
  {
    var ownerOf := OwnersOf(env.nodes);
    err := None;
    ghost var f, done := ById(env, typ), [];
    DidNone(acc.out, ids, f);
    for i := 0 to |ids|
      invariant acc.Valid() && err == None && DidPart(old(acc.out), acc.out, done, ids, f, i)
    {
      ghost var mid := acc.out;
      var id := Trim(ids[i]);
      if id != "" {
        if id in ownerOf {
          err := AddFromGet(env, ownerOf[id], id, typ, acc, Hint(ownerOf[id], id, "", "", false));
        } else {
          err := SearchNodes(env, typ, id, acc);
        }
      }
      DidStep(old(acc.out), mid, acc.out, done, ids, f, i, err);
      if err.Some? {
        return;
      }
      done := done + f(ids[i]).targets;
    }
    DidAll(old(acc.out), acc.out, done, ids, f);
  }

  method ExpandProcessNames(env: Env, refs: seq<NameRef>, typ: Type, acc: TargetAcc) returns (err: Option<Error>)
    requires acc.Valid()
    modifies acc
    ensures acc.Valid() && Did(old(acc.out), acc.out, err, Each(refs, ByName(env, typ)))
  {
    err := None;
    ghost var f, done := ByName(env, typ), [];
    DidNone(acc.out, refs, f);
    for i := 0 to |refs|
      invariant acc.Valid() && err == None && DidPart(old(acc.out), acc.out, done, refs, f, i)
    {
      ghost var mid := acc.out;
      var node, name := Trim(refs[i].nodeId), Trim(refs[i].processName);
      if !(node == "" && name == "") {
        err := AddFromGet(env, node, name, typ, acc, Hint(node, "", name, "", false));
      }
      DidStep(old(acc.out), mid, acc.out, done, refs, f, i, err);
      if err.Some? {
        return;
      }
      done := done + f(refs[i]).targets;
    }
    DidAll(old(acc.out), acc.out, done, refs, f);
  }

  method AddMemberProcess(env: Env, node: string, p: ProcView, typ: Type, acc: TargetAcc) returns (err: Option<Error>)
    requires acc.Valid()
    modifies acc
    ensures acc.Valid() && Did(old(acc.out), acc.out, err, OfMember(env, typ, node)(p))
  {
    err := None;
    if p.processId != "" {
      err := AddFromGet(env, node, p.processId, typ, acc, Hint(node, p.processId, "", "", true));
    }
  }

  method ExpandMember(env: Env, n: NodeView, typ: Type, acc: TargetAcc) returns (err: Option<Error>)
    requires acc.Valid()
    modifies acc
    ensures acc.Valid() && Did(old(acc.out), acc.out, err, Each(n.processes, OfMember(env, typ, n.nodeId)))
  {
    err := None;
    ghost var f, done := OfMember(env, typ, n.nodeId), [];
    DidNone(acc.out, n.processes, f);
    for i := 0 to |n.processes|
      invariant acc.Valid() && err == None && DidPart(old(acc.out), acc.out, done, n.processes, f, i)
    {
      ghost var mid := acc.out;
      err := AddMemberProcess(env, n.nodeId, n.processes[i], typ, acc);
      DidStep(old(acc.out), mid, acc.out, done, n.processes, f, i, err);
      if err.Some? {
        return;
      }
      done := done + f(n.processes[i]).targets;
    }
    DidAll(old(acc.out), acc.out, done, n.processes, f);
  }

  method ExpandAgentGroup(env: Env, members: seq<string>, typ: Type, acc: TargetAcc) returns (err: Option<Error>)
    requires acc.Valid()
    modifies acc
    ensures acc.Valid() && Did(old(acc.out), acc.out, err, Each(env.nodes, ByMember(env, typ, members)))
  {
    err := None;
    ghost var f, done := ByMember(env, typ, members), [];
    DidNone(acc.out, env.nodes, f);
    for i := 0 to |env.nodes|
      invariant acc.Valid() && err == None && DidPart(old(acc.out), acc.out, done, env.nodes, f, i)
    {
      ghost var mid := acc.out;
      if env.nodes[i].nodeId in members {
        err := ExpandMember(env, env.nodes[i], typ, acc);
      }
      DidStep(old(acc.out), mid, acc.out, done, env.nodes, f, i, err);
      if err.Some? {
        return;
      }
      done := done + f(env.nodes[i]).targets;
    }
    DidAll(old(acc.out), acc.out, done, env.nodes, f);
  }

  method AddGroupProcess(env: Env, group: string, node: string, p: ProcView, typ: Type, acc: TargetAcc)
    returns (err: Option<Error>)
    requires acc.Valid()
    modifies acc
    ensures acc.Valid() && Did(old(acc.out), acc.out, err, InGroup(env, typ, group, node)(p))
  {
    err := None;
    if !(p.group != group || p.processId == "") {
      err := AddFromGet(env, node, p.processId, typ, acc, Hint(node, p.processId, p.name, group, false));
    }
  }

  method ExpandGroupNode(env: Env, group: string, n: NodeView, typ: Type, acc: TargetAcc) returns (err: Option<Error>)
    requires acc.Valid()
    modifies acc
    ensures acc.Valid() && Did(old(acc.out), acc.out, err, Each(n.processes, InGroup(env, typ, group, n.nodeId)))
  {
    err := None;
    ghost var f, done := InGroup(env, typ, group, n.nodeId), [];
    DidNone(acc.out, n.processes, f);
    for i := 0 to |n.processes|
      invariant acc.Valid() && err == None && DidPart(old(acc.out), acc.out, done, n.processes, f, i)
    {
      ghost var mid := acc.out;
      err := AddGroupProcess(env, group, n.nodeId, n.processes[i], typ, acc);
      DidStep(old(acc.out), mid, acc.out, done, n.processes, f, i, err);
      if err.Some? {
        return;
      }
      done := done + f(n.processes[i]).targets;
    }
    DidAll(old(acc.out), acc.out, done, n.processes, f);
  }

  method ExpandProcessGroup(env: Env, group: string, typ: Type, acc: TargetAcc) returns (err: Option<Error>)
    requires acc.Valid()
    modifies acc
    ensures acc.Valid() && Did(old(acc.out), acc.out, err, Each(env.nodes, ByGroup(env, typ, group)))
  {
    err := None;
    ghost var f, done := ByGroup(env, typ, group), [];
    DidNone(acc.out, env.nodes, f);
    for i := 0 to |env.nodes|
      invariant acc.Valid() && err == None && DidPart(old(acc.out), acc.out, done, env.nodes, f, i)
    {
      ghost var mid := acc.out;
      err := ExpandGroupNode(env, group, env.nodes[i], typ, acc);
      DidStep(old(acc.out), mid, acc.out, done, env.nodes, f, i, err);
      if err.Some? {
        return;
      }
      done := done + f(env.nodes[i]).targets;
    }
    DidAll(old(acc.out), acc.out, done, env.nodes, f);
  }

  /** What an expansion returns. */
  function Expanded(env: Env, sel: Selector, typ: Type): Result<seq<Candidate>> {
    match Proposed(env, sel, typ)
    case Fails(e) => Err(e)
    case Adds(ts) => Ok(AddAll([], ts))
  }

  method ExpandSelector(env: Env, sel: Selector, typ: Type) returns (r: Result<seq<Candidate>>)
    ensures r == Expanded(env, sel, typ)
  {
    var group := Trim(sel.processGroup);
    if sel.processGroup != "" && !ValidGroup(group) {
      return Err(Refused("process group"));
    }
    var members := Members(env, sel.agentGroupId);
    if members.Err? {
      return Err(members.error);
    }
    ghost var byId, byName := Each(sel.processIds, ById(env, typ)), Each(sel.processNames, ByName(env, typ));
    ghost var byMember := if sel.agentGroupId != "" then Each(env.nodes, ByMember(env, typ, members.value)) else Adds([]);
    ghost var byGroup := if group != "" then Each(env.nodes, ByGroup(env, typ, group)) else Adds([]);
    assert Proposed(env, sel, typ) == Then(byId, Then(byName, Then(byMember, byGroup)));
    var acc := new TargetAcc();
    var err := ExpandProcessIDs(env, sel.processIds, typ, acc);
    ghost var s1 := acc.out;
    if err.Some? {
      return Err(err.value);
    }
    err := ExpandProcessNames(env, sel.processNames, typ, acc);
    ghost var s2 := acc.out;
    if err.Some? {
      return Err(err.value);
    }
    if sel.agentGroupId != "" {
      err := ExpandAgentGroup(env, members.value, typ, acc);
      if err.Some? {
        return Err(err.value);
      }
    }
    ghost var s3 := acc.out;
    if group != "" {
      err := ExpandProcessGroup(env, group, typ, acc);
    }
    DidThen(s2, s3, acc.out, err, byMember, byGroup);
    DidThen(s1, s2, acc.out, err, byName, Then(byMember, byGroup));
    DidThen([], s1, acc.out, err, byId, Then(byName, Then(byMember, byGroup)));
    if err.Some? {
      return Err(err.value);
    }
    return Ok(acc.out);
  }
}
