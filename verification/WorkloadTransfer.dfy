/** Shipping a workload snapshot in chunks of 256 processes and putting it together again. */
module WorkloadTransfer {
  import opened Workload

  const CHUNK: nat := 256

  /** The wire form of a process, or a nil message. */
  datatype WireProcess =
    | Nil
    | Wire(name: string, processId: string, group: string, desired: string, observed: string, health: string,
           latestRevision: int, activeRevision: int, freshnessUnixMs: int)

  datatype Header = Header(nodeId: string, epoch: string, version: nat, observationSeq: nat)

  datatype Chunk = Chunk(header: Header, processes: seq<WireProcess>)

  datatype Error = PeerDenied | SourceMissing | IdentityMismatch | ChangedDuringTransfer | StreamFailed | InvalidSnapshot

  datatype Result<T> = Ok(value: T) | Err(error: Error)

  datatype Snapshot = Snapshot(header: Header, processes: seq<Process>)

  function ToWire(p: Process): WireProcess {
    Wire(p.name, p.id, p.group, p.desired, p.observed, p.health, p.latestRevision, p.activeRevision, p.freshness)
  }

  function FromWire(w: WireProcess): Process {
    match w
    case Nil => Process("", "", "", "", "", "", 0, 0, 0)
    case Wire(name, id, group, desired, observed, health, latest, active, freshness) =>
      Process(id, name, group, desired, observed, health, latest, active, freshness)
  }

  function AllFromWire(ws: seq<WireProcess>): seq<Process> {
    seq(|ws|, i requires 0 <= i < |ws| => FromWire(ws[i]))
  }

  function AllToWire(ps: seq<Process>): seq<WireProcess> {
    seq(|ps|, i requires 0 <= i < |ps| => ToWire(ps[i]))
  }

  /** The processes of all chunks, in order. */
  function Joined(chunks: seq<Chunk>): seq<Process> {
    if chunks == [] then [] else Joined(chunks[..|chunks| - 1]) + AllFromWire(chunks[|chunks| - 1].processes)
  }

  /** Where the chunk that starts at start ends. */
  function End(ps: seq<Process>, start: nat): (end: nat)
    ensures start <= |ps| ==> start <= end <= |ps|
  {
    if start + CHUNK < |ps| then start + CHUNK else |ps|
  }

  /** The rest of ps from start on, cut into full chunks and a shorter last one. */
  function ChunksFrom(header: Header, ps: seq<Process>, start: nat): seq<Chunk>
    decreases |ps| - start
  {
    if start >= |ps| then []
    else
      [Chunk(header, AllToWire(ps[start..End(ps, start)]))] + ChunksFrom(header, ps, start + CHUNK)
  }

  function SentChunks(header: Header, ps: seq<Process>): seq<Chunk> {
    if ps == [] then [Chunk(header, [])] else ChunksFrom(header, ps, 0)
  }

  method WorkloadChunk(header: Header, processes: seq<Process>) returns (c: Chunk)
    ensures c == Chunk(header, AllToWire(processes))
  {
    var wire: seq<WireProcess> := [];
    for i := 0 to |processes|
      invariant wire == AllToWire(processes[..i])
    {
      wire := wire + [ToWire(processes[i])];
    }
    assert processes[..|processes|] == processes;
    return Chunk(header, wire);
  }

  /** What the owner serves: a refusal, or the chunks that got through and whether a send failed after them. */
  datatype Served = Refused(error: Error) | Sent(chunks: seq<Chunk>, broken: bool)

  /** The chunks of a stream whose first `room` sends succeed. */
  function SentUpTo(all: seq<Chunk>, room: nat): Served {
    if room < |all| then Sent(all[..room], true) else Sent(all, false)
  }

  /** The owner's side: answers peers of its own cluster, fills in its node id, refuses to speak for another node,
      and sends the list until a send fails. */
  method FetchWorkloadSnapshot(peerCluster: Option<string>, clusterId: string, nodeId: string,
                               source: Option<Snapshot>, room: nat)
    returns (r: Served)
    ensures r ==
      if peerCluster == None || peerCluster.value == "" || peerCluster.value != clusterId then Refused(PeerDenied)
      else if source == None then Refused(SourceMissing)
      else
        var id := if source.value.header.nodeId == "" then nodeId else source.value.header.nodeId;
        if id == "" || (nodeId != "" && id != nodeId) then Refused(IdentityMismatch)
        else SentUpTo(SentChunks(source.value.header.(nodeId := id), source.value.processes), room)
  {
    if peerCluster == None || peerCluster.value == "" || peerCluster.value != clusterId {
      return Refused(PeerDenied);
    }
    if source == None {
      return Refused(SourceMissing);
    }
    var summary := source.value;
    var header := summary.header;
    if header.nodeId == "" {
      header := header.(nodeId := nodeId);
    }
    if header.nodeId == "" || (nodeId != "" && header.nodeId != nodeId) {
      return Refused(IdentityMismatch);
    }
    r := SendAll(header, summary.processes, room);
  }

  method SendAll(header: Header, processes: seq<Process>, room: nat) returns (r: Served)
    ensures r == SentUpTo(SentChunks(header, processes), room)
  {
    if |processes| == 0 {
      var c := WorkloadChunk(header, []);
      assert AllToWire([]) == [];
      return if room == 0 then Sent([], true) else Sent([c], false);
    }
    var sent: seq<Chunk> := [];
    var start := 0;
    ghost var all := ChunksFrom(header, processes, 0);
    while start < |processes|
      invariant all == sent + ChunksFrom(header, processes, start) && |sent| <= room
    {
      if |sent| == room {
        assert all[..room] == sent;
        return Sent(sent, true);
      }
      var c := WorkloadChunk(header, processes[start..End(processes, start)]);
      assert sent + ([c] + ChunksFrom(header, processes, start + CHUNK)) ==
             (sent + [c]) + ChunksFrom(header, processes, start + CHUNK);
      sent := sent + [c];
      start := start + CHUNK;
    }
    assert sent + [] == sent;
    return Sent(sent, false);
  }

  predicate OneHeader(chunks: seq<Chunk>) {
    forall i :: 0 <= i < |chunks| ==> chunks[i].header == chunks[0].header
  }

  /** What Fetch returns for the chunks a stream delivered before it ended, cleanly or with an error. */
  function Fetched(peer: string, chunks: seq<Chunk>, failed: bool): Result<Snapshot> {
    if !OneHeader(chunks) then Err(ChangedDuringTransfer)
    else if failed then Err(StreamFailed)
    else if chunks == [] || chunks[0].header.nodeId != peer || chunks[0].header.epoch == "" || chunks[0].header.version == 0
    then Err(InvalidSnapshot)
    else Ok(Snapshot(chunks[0].header, Joined(chunks)))
  }

  /** The peer's side, past the checks that it has an owner to ask. */
  method Fetch(peer: string, chunks: seq<Chunk>, failed: bool) returns (r: Result<Snapshot>)
    requires peer != ""
    ensures r == Fetched(peer, chunks, failed)
  {
    var header := Header("", "", 0, 0);
    var processes: seq<Process> := [];
    var sawChunk := false;
    for i := 0 to |chunks|
      invariant sawChunk == (i > 0)
      invariant sawChunk ==> header == chunks[0].header
      invariant OneHeader(chunks[..i]) && processes == Joined(chunks[..i])
    {
      var chunk := chunks[i];
      if !sawChunk {
        header := chunk.header;
        sawChunk := true;
      } else if chunk.header != header {
        return Err(ChangedDuringTransfer);
      }
      ghost var before := processes;
      for j := 0 to |chunk.processes|
        invariant processes == before + AllFromWire(chunk.processes[..j])
      {
        processes := processes + [FromWire(chunk.processes[j])];
      }
      assert chunk.processes[..|chunk.processes|] == chunk.processes;
      assert chunks[..i + 1][..i] == chunks[..i];
    }
    assert chunks[..|chunks|] == chunks;
    if failed {
      return Err(StreamFailed);
    }
    if !sawChunk || header.nodeId != peer || header.epoch == "" || header.version == 0 {
      return Err(InvalidSnapshot);
    }
    return Ok(Snapshot(header, processes));
  }

  // ---- laws -----------------------------------------------------------------------------------------------

  lemma WireRoundTrip(ps: seq<Process>)
    ensures AllFromWire(AllToWire(ps)) == ps
  {
  }

  lemma {:induction false} JoinedAppend(a: seq<Chunk>, b: seq<Chunk>)
    ensures Joined(a + b) == Joined(a) + Joined(b)
    decreases |b|
  {
    if b == [] {
      assert a + b == a;
    } else {
      var init := b[..|b| - 1];
      JoinedAppend(a, init);
      assert (a + b)[..|a + b| - 1] == a + init;
    }
  }

  lemma OneChunkJoins(header: Header, ps: seq<Process>)
    ensures Joined([Chunk(header, AllToWire(ps))]) == ps
  {
    var only := [Chunk(header, AllToWire(ps))];
    assert only[..0] == [];
    assert Joined(only) == [] + AllFromWire(AllToWire(ps));
    WireRoundTrip(ps);
  }

  lemma {:induction false} ChunksJoin(header: Header, ps: seq<Process>, start: nat)
    requires start <= |ps|
    ensures Joined(ChunksFrom(header, ps, start)) == ps[start..]
    ensures forall c :: c in ChunksFrom(header, ps, start) ==> c.header == header && 0 < |c.processes| <= CHUNK
    decreases |ps| - start
  {
    if start < |ps| {
      var end := End(ps, start);
      var first, rest := [Chunk(header, AllToWire(ps[start..end]))], ChunksFrom(header, ps, start + CHUNK);
      assert ChunksFrom(header, ps, start) == first + rest;
      JoinedAppend(first, rest);
      OneChunkJoins(header, ps[start..end]);
      assert ps[start..] == ps[start..end] + ps[end..];
      if end == start + CHUNK {
        ChunksJoin(header, ps, end);
      }
    }
  }

  lemma SentFacts(header: Header, ps: seq<Process>)
    ensures Joined(SentChunks(header, ps)) == ps
    ensures SentChunks(header, ps) != []
    ensures forall c :: c in SentChunks(header, ps) ==> c.header == header && |c.processes| <= CHUNK
  {
    if ps == [] {
      assert AllToWire([]) == [];
      OneChunkJoins(header, []);
    } else {
      ChunksJoin(header, ps, 0);
      assert ps[0..] == ps;
    }
  }

  /** For every list, of length zero too: what was sent is what the peer gets, field by field and in order,
      exactly when the snapshot is the peer's own and carries an epoch and a version. */
  lemma TransferRoundTrip(peer: string, header: Header, ps: seq<Process>)
    ensures Fetched(peer, SentChunks(header, ps), false) ==
            if header.nodeId == peer && header.epoch != "" && header.version != 0 then Ok(Snapshot(header, ps))
            else Err(InvalidSnapshot)
  {
    SentFacts(header, ps);
    var sent := SentChunks(header, ps);
    assert forall i :: 0 <= i < |sent| ==> sent[i] in sent;
  }

  /** A send that fails is the stream's error on the other side, so a list that did not get through whole is never
      accepted, wherever it broke. */
  lemma BrokenNeverAccepted(peer: string, header: Header, ps: seq<Process>, room: nat)
    ensures
      var served := SentUpTo(SentChunks(header, ps), room);
      Fetched(peer, served.chunks, served.broken).Ok? <==>
      room >= |SentChunks(header, ps)| && header.nodeId == peer && header.epoch != "" && header.version != 0
    ensures
      var served := SentUpTo(SentChunks(header, ps), room);
      Fetched(peer, served.chunks, served.broken).Ok? ==>
      Fetched(peer, served.chunks, served.broken) == Ok(Snapshot(header, ps))
  {
    TransferRoundTrip(peer, header, ps);
  }

  /** Chunks of two different headers never join: whatever part of one stream is followed by part of another,
      the fetch fails. */
  lemma StreamsNeverMix(peer: string, h1: Header, h2: Header, a: seq<Chunk>, b: seq<Chunk>, failed: bool)
    requires h1 != h2 && a != [] && b != []
    requires a[0].header == h1 && b[0].header == h2
    ensures Fetched(peer, a + b, failed) == Err(ChangedDuringTransfer)
  {
    assert (a + b)[0].header == h1 && (a + b)[|a|].header == h2;
  }

  /** Where the first n chunks from start on end. */
  function Stop(ps: seq<Process>, start: nat, n: nat): nat {
    if start + CHUNK * n < |ps| then start + CHUNK * n else |ps|
  }

  lemma StopNext(ps: seq<Process>, start: nat, n: nat)
    requires n > 0 && start < |ps|
    ensures start <= End(ps, start) <= Stop(ps, start, n) <= |ps|
    ensures End(ps, start) < |ps| ==> Stop(ps, start, n) == Stop(ps, End(ps, start), n - 1)
    ensures End(ps, start) == |ps| ==> Stop(ps, start, n) == |ps|
  {
  }

  lemma {:induction false} ChunkAt(header: Header, ps: seq<Process>, start: nat, n: nat)
    requires n <= |ChunksFrom(header, ps, start)| && start <= |ps|
    ensures start <= Stop(ps, start, n) <= |ps|
    ensures Joined(ChunksFrom(header, ps, start)[..n]) == ps[start..Stop(ps, start, n)]
    decreases n
  {
    if n > 0 {
      var end, stop := End(ps, start), Stop(ps, start, n);
      var first, rest := [Chunk(header, AllToWire(ps[start..end]))], ChunksFrom(header, ps, start + CHUNK);
      assert ChunksFrom(header, ps, start)[..n] == first + rest[..n - 1];
      JoinedAppend(first, rest[..n - 1]);
      OneChunkJoins(header, ps[start..end]);
      StopNext(ps, start, n);
      if end < |ps| {
        ChunkAt(header, ps, end, n - 1);
        assert ps[start..end] + ps[end..stop] == ps[start..stop];
      }
    }
  }

  /** No chunk says how many follow. If a stream could end cleanly after n chunks, the peer would take the
      first 256 n processes for the whole list, so only the error of a broken stream protects the result. */
  lemma CutStreamLooksWhole(peer: string, header: Header, ps: seq<Process>, n: nat)
    requires header.nodeId == peer && header.epoch != "" && header.version != 0
    requires 0 < n < |SentChunks(header, ps)|
    ensures CHUNK * n < |ps|
    ensures Fetched(peer, SentChunks(header, ps)[..n], false) == Ok(Snapshot(header, ps[..CHUNK * n]))
    ensures Fetched(peer, SentChunks(header, ps)[..n], true) == Err(StreamFailed)
  {
    SentFacts(header, ps);
    var sent := SentChunks(header, ps);
    assert forall i :: 0 <= i < |sent| ==> sent[i] in sent;
    ChunkAt(header, ps, 0, n);
    ChunksLeft(header, ps, 0, n);
    assert ps[0..CHUNK * n] == ps[..CHUNK * n];
  }

  lemma {:induction false} ChunksLeft(header: Header, ps: seq<Process>, start: nat, n: nat)
    requires n < |ChunksFrom(header, ps, start)|
    ensures start + CHUNK * n < |ps|
    decreases n
  {
    if n > 0 {
      ChunksLeft(header, ps, start + CHUNK, n - 1);
    }
  }
}
