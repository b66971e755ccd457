/** From the indexer to the gateway: what captures enqueue is framed, stored, read back, sent as base64,
    decoded, validated and applied. Behind its own target snapshot a delta is refused, and the
    gateway's tree is the last captured snapshot. */
module EndToEnd {
  import opened BuildReplay
  import opened Builder
  import opened DeltaEngine
  import opened DeltaLaws
  import opened DeltaValidator
  import opened Domain
  import opened Frames
  import opened Materializer
  import opened MessageValidator
  import opened Pipeline
  import opened ReplayRuns
  import opened ReplayTheorem
  import opened Status
  import opened TreeTheorem
  import opened Validators
  import Base64
  import Outbox
  import Paths
  import Serialization

  // ---- The ingest path ----

  /** What the ingest coordinator asks of a frame before it stores it. */
  ghost function IngestVerdict(host: string, raw: seq<u8>): StatusOr<ValidatedRecord> {
    match ParseFrame(raw)
    case Err(code) => Err(code)
    case Ok(f) => Judge(f, host)
  }

  /** On this path as well a snapshot arrives unchanged exactly when it is accepted and of the
      host that sends it. */
  lemma IngestTakesIff(s: Snapshot, createdAt: u64, host: string)
    requires Serialization.SnapshotFits(s) && FrameFits(SnapshotFrame(s, createdAt)) && host != ""
    ensures IngestVerdict(host, FrameBytes(SnapshotFrame(s, createdAt))) == Ok(ValidatedSnapshot(s))
      <==> Accepted(s) && host == s.hostIdentifier
  {
    hide ParseFrame, FrameBytes, Judge, Accepted, Serialization.SnapshotBytes, Serialization.SnapshotFits;
    ParseIffSerialized(FrameBytes(SnapshotFrame(s, createdAt)), SnapshotFrame(s, createdAt));
    SnapshotTakenIff(s, createdAt, host);
  }

  // ---- The pull path ----

  /** A record of a command result; the payload is base64 text. */
  datatype ResultRecord = ResultRecord(sequence: u64, kind: u8, createdAt: u64, routingKey: string, payload: string)

  function RecordOf(sequence: u64, f: MuninnFrame): ResultRecord {
    ResultRecord(sequence, f.kind, f.createdAt, f.routingKey, Base64.Encode(f.payload))
  }

  /** What the indexer sends of the bytes it has stored. */
  function Sent(sequence: u64, stored: seq<u8>): Option<ResultRecord> {
    match ParseStored(stored)
    case None => None
    case Some(f) => Some(RecordOf(sequence, f))
  }

  /** The stored bytes of a frame are sent as its record. */
  lemma StoredIsSent(sequence: u64, f: MuninnFrame)
    requires FrameFits(f)
    ensures Sent(sequence, FrameBytes(f)) == Some(RecordOf(sequence, f))
  {
    hide ParseStored, FrameBytes, RecordOf;
    StoredIffSerialized(FrameBytes(f), f);
  }

  /** What the gateway makes of a record. */
  ghost function Received(r: ResultRecord): StatusOr<ValidatedRecord> {
    if !IsRecordKind(r.kind) || Base64.Decode(r.payload).None? then Err(ParseError)
    else Judge(MuninnFrame(r.kind, r.createdAt, r.routingKey, Base64.Decode(r.payload).value), "")
  }

  /** The states of all hosts before and after a record; what is not understood is skipped, and a
      delta goes to some host that shows its base. */
  ghost predicate Handled(states: map<string, HostState>, r: ResultRecord, states': map<string, HostState>) {
    match Received(r)
    case Err(_) => states' == states
    case Ok(ValidatedSnapshot(s)) => states' == states[s.hostIdentifier := Load(s, r.sequence)]
    case Ok(ValidatedDelta(d)) =>
      || (states' == states && forall h :: !Resolves(states, "", d.baseSnapshotId, h))
      || exists h :: Resolves(states, "", d.baseSnapshotId, h) && states' == states[h := Replay(states[h], r.sequence, d).state]
  }

  ghost predicate HandledAll(states: map<string, HostState>, rs: seq<ResultRecord>, states': map<string, HostState>) {
    if rs == [] then states' == states
    else
      var front, last := rs[..|rs| - 1], rs[|rs| - 1];
      exists mid :: HandledAll(states, front, mid) && Handled(mid, last, states')
  }

  /** The callback of the client for the records of a result. */
  method OnCrudResult(sink: MaterializerSink, rs: seq<ResultRecord>, now: i64)
    modifies sink
    ensures HandledAll(old(sink.states), rs, sink.states)
  {
    hide Judge, Replay, Load, Handled;
    for i := 0 to |rs|
      invariant HandledAll(old(sink.states), rs[..i], sink.states)
    {
      assert rs[..i + 1][..i] == rs[..i];
      OnRecord(sink, rs[i], now);
    }
    assert rs[..|rs|] == rs;
  }

  method OnRecord(sink: MaterializerSink, r: ResultRecord, now: i64)
    modifies sink
    ensures Handled(old(sink.states), r, sink.states)
  {
    hide Replay, Load, Judge, Accepted;
    if !IsRecordKind(r.kind) {
      return;
    }
    var payload := Base64.Base64Decode(r.payload);
    if payload.None? {
      return;
    }
    var frame := MuninnFrame(r.kind, r.createdAt, r.routingKey, payload.value);
    var validated := ValidateAndDecode(frame, "", now);
    match validated {
      case Err(_) =>
      case Ok(ValidatedSnapshot(s)) =>
        JudgedHasHost(frame, s);
        var status := sink.ApplySnapshot(s.hostIdentifier, r.sequence, s);
      case Ok(ValidatedDelta(d)) =>
        var status := sink.ApplyDelta("", r.sequence, d);
    }
  }

  lemma JudgedHasHost(f: MuninnFrame, s: Snapshot)
    requires Judge(f, "") == Ok(ValidatedSnapshot(s))
    ensures s.hostIdentifier != ""
  {
    hide RootedTree, PathsOk, Serialization.ReadSnapshot, Serialization.ReadDelta;
  }

  lemma SnapshotArrives(s: Snapshot, createdAt: u64, sequence: u64)
    requires Serialization.SnapshotFits(s) && Accepted(s)
    ensures Received(RecordOf(sequence, SnapshotFrame(s, createdAt))) == Ok(ValidatedSnapshot(s))
  {
    hide Judge, Accepted, Base64.Encode, Base64.Decode, Serialization.SnapshotFits, Serialization.SnapshotBytes;
    Base64.DecodeEncode(SnapshotFrame(s, createdAt).payload);
    SnapshotTakenIff(s, createdAt, "");
  }

  lemma DeltaArrives(d: DeltaSnapshot, createdAt: u64, sequence: u64)
    requires Serialization.DeltaFits(d) && DeltaOk(d, None, None)
    ensures Received(RecordOf(sequence, DeltaFrame(d, createdAt))) == Ok(ValidatedDelta(d))
  {
    hide Judge, DeltaOk, Base64.Encode, Base64.Decode, Serialization.DeltaFits, Serialization.DeltaBytes, DeltaRoute;
    Base64.DecodeEncode(DeltaFrame(d, createdAt).payload);
    DeltaTakenIff(d, createdAt, "");
  }

  lemma SnapshotHandled(states: map<string, HostState>, r: ResultRecord, states': map<string, HostState>, s: Snapshot)
    requires Handled(states, r, states') && Received(r) == Ok(ValidatedSnapshot(s))
    ensures states' == states[s.hostIdentifier := Load(s, r.sequence)]
  {
    hide Received, Load, Replay;
  }

  /** Some host's last snapshot has the id. */
  ghost predicate Shown(states: map<string, HostState>, id: u64) {
    exists h :: h in states && states[h].lastSnapshotId == id
  }

  /** A delta is refused when no host shows its base, and otherwise replayed on one that does. */
  lemma DeltaHandled(states: map<string, HostState>, r: ResultRecord, states': map<string, HostState>, d: DeltaSnapshot)
    requires Handled(states, r, states') && Received(r) == Ok(ValidatedDelta(d))
    ensures !Shown(states, d.baseSnapshotId) ==> states' == states
    ensures Shown(states, d.baseSnapshotId) ==>
      exists h :: h in states && states[h].lastSnapshotId == d.baseSnapshotId
        && states' == states[h := Replay(states[h], r.sequence, d).state]
  {
    hide Received, Replay;
    if h :| h in states && states[h].lastSnapshotId == d.baseSnapshotId {
      assert Resolves(states, "", d.baseSnapshotId, h);
    }
  }

  lemma DeltaHandledBy(states: map<string, HostState>, r: ResultRecord, states': map<string, HostState>, d: DeltaSnapshot, host: string)
    requires Handled(states, r, states') && Received(r) == Ok(ValidatedDelta(d))
    requires host in states && forall h :: h in states ==> (states[h].lastSnapshotId == d.baseSnapshotId <==> h == host)
    ensures states' == states[host := Replay(states[host], r.sequence, d).state]
  {
    hide Handled, Received, Replay;
    DeltaHandled(states, r, states', d);
  }

  lemma LoadedId(s: Snapshot, sequence: u64)
    requires Accepted(s)
    ensures Load(s, sequence).lastSnapshotId == s.snapshotId
  {
    AcceptedMeans(s);
    LoadClosed(s, sequence);
  }

  lemma OneHandled(states: map<string, HostState>, a: ResultRecord, states': map<string, HostState>)
    requires HandledAll(states, [a], states')
    ensures Handled(states, a, states')
  {
    hide Handled;
    assert [a][..0] == [];
    var start :| HandledAll(states, [a][..0], start) && Handled(start, [a][0], states');
  }

  lemma TwoHandled(states: map<string, HostState>, a: ResultRecord, b: ResultRecord, states': map<string, HostState>)
    returns (mid: map<string, HostState>)
    requires HandledAll(states, [a, b], states')
    ensures Handled(states, a, mid) && Handled(mid, b, states')
  {
    hide Handled;
    mid :| HandledAll(states, [a, b][..1], mid) && Handled(mid, b, states');
    assert [a, b][..1] == [a];
    OneHandled(states, a, mid);
  }

  lemma DeltaNames(base: Snapshot, target: Snapshot, heuristic: bool, hash: Hash, delta: DeltaSnapshot)
    requires IsDelta(base, target, heuristic, hash, delta)
    ensures delta.baseSnapshotId == base.snapshotId && delta.targetSnapshotId == target.snapshotId
  {}

  lemma ComputedIsSound(base: Snapshot, target: Snapshot, heuristic: bool, hash: Hash, delta: DeltaSnapshot)
    requires Accepted(base) && Accepted(target) && IsDelta(base, target, heuristic, hash, delta)
    ensures DeltaOk(delta, None, None) && delta.baseSnapshotId == base.snapshotId
  {
    hide Accepted, IsDelta, DeltaOk, UniqueKeys, HeaderOk, IdentityOk, PathsOk;
    AcceptedMeans(base);
    AcceptedMeans(target);
    AcceptedDeltaPasses(base, target, heuristic, hash, delta);
    OkWithoutEnds(delta, base, target);
    DeltaNames(base, target, heuristic, hash, delta);
  }

  // ---- One capture ----

  /** The records of a capture, the first under sequence `n`. */
  function RecordsOf(c: Capture, n: u64): seq<ResultRecord> {
    match c
    case Full(snapshot, at) => [RecordOf(n, SnapshotFrame(snapshot, at))]
    case Update(target, at, _, delta, deltaAt) =>
      [RecordOf(n, SnapshotFrame(target, at)), RecordOf(Increment(n), DeltaFrame(delta, deltaAt))]
  }

  /** What the pipeline guarantees of a capture that it has stored, and that the formats can hold it. */
  ghost predicate Genuine(c: Capture, hash: Hash) {
    && Accepted(c.snapshot) && Serialization.SnapshotFits(c.snapshot)
    && (c.Update? ==>
          Accepted(c.base) && IsDelta(c.base, c.snapshot, true, hash, c.delta) && Serialization.DeltaFits(c.delta))
  }

  /** The gateway after the snapshot of a capture. */
  function After(states: map<string, HostState>, c: Capture, n: u64): map<string, HostState> {
    states[c.snapshot.hostIdentifier := Load(c.snapshot, n)]
  }

  /** Behind the target's snapshot, the delta's base is still shown in two cases only. */
  lemma BaseShownIff(states: map<string, HostState>, c: Capture, n: u64, id: u64)
    requires Accepted(c.snapshot)
    ensures Shown(After(states, c, n), id) <==>
      || id == c.snapshot.snapshotId
      || exists h :: h in states && h != c.snapshot.hostIdentifier && states[h].lastSnapshotId == id
  {
    hide Accepted, Load;
    LoadedId(c.snapshot, n);
    var host, after := c.snapshot.hostIdentifier, After(states, c, n);
    assert host in after && after[host].lastSnapshotId == c.snapshot.snapshotId;
    if h :| h in states && h != host && states[h].lastSnapshotId == id {
      assert h in after && after[h].lastSnapshotId == id;
    }
  }

  /** Main result: behind its target snapshot a delta finds a state to be applied to exactly when its
      base has the target's id or another host shows the base. */
  lemma DeltaAppliedIff(states: map<string, HostState>, c: Capture, n: u64, hash: Hash)
    requires c.Update? && Genuine(c, hash)
    ensures (exists h :: Resolves(After(states, c, n), "", c.delta.baseSnapshotId, h)) <==> BaseElsewhere(states, c)
  {
    hide Accepted, IsDelta, After, Serialization.SnapshotFits, Serialization.DeltaFits;
    BaseShownIff(states, c, n, c.base.snapshotId);
    DeltaNames(c.base, c.snapshot, true, hash, c.delta);
    ShownResolves(After(states, c, n), c.base.snapshotId);
  }

  lemma ShownResolves(states: map<string, HostState>, id: u64)
    ensures (exists h :: Resolves(states, "", id, h)) <==> Shown(states, id)
  {
    if h :| h in states && states[h].lastSnapshotId == id {
      assert Resolves(states, "", id, h);
    }
  }

  /** Main result: what the gateway makes of an update. The delta stands behind its own target
      snapshot, so it is refused unless the base has the target's id or another host shows the
      base; then it is replayed on a host that shows it. In any case, when the two ids differ, the
      captured host's state is the load of the target, whatever the delta says. */
  lemma UpdateHandled(states: map<string, HostState>, c: Capture, n: u64, hash: Hash, states': map<string, HostState>)
    requires c.Update? && Genuine(c, hash) && HandledAll(states, RecordsOf(c, n), states')
    ensures !BaseElsewhere(states, c) ==> states' == After(states, c, n)
    ensures BaseElsewhere(states, c) ==>
      exists h :: h in After(states, c, n) && After(states, c, n)[h].lastSnapshotId == c.base.snapshotId
        && states' == After(states, c, n)[h := Replay(After(states, c, n)[h], Increment(n), c.delta).state]
    ensures c.base.snapshotId != c.snapshot.snapshotId ==>
      c.snapshot.hostIdentifier in states' && states'[c.snapshot.hostIdentifier] == Load(c.snapshot, n)
  {
    hide Handled, HandledAll, Received, RecordOf, Accepted, DeltaOk, IsDelta, Load, Replay, Serialization.SnapshotFits, Serialization.DeltaFits;
    var first, second := RecordOf(n, SnapshotFrame(c.snapshot, c.at)), RecordOf(Increment(n), DeltaFrame(c.delta, c.deltaAt));
    SequenceKept(n, SnapshotFrame(c.snapshot, c.at));
    SequenceKept(Increment(n), DeltaFrame(c.delta, c.deltaAt));
    ComputedIsSound(c.base, c.snapshot, true, hash, c.delta);
    SnapshotArrives(c.snapshot, c.at, n);
    DeltaArrives(c.delta, c.deltaAt, Increment(n));
    var mid := TwoHandled(states, first, second, states');
    SnapshotHandled(states, first, mid, c.snapshot);
    DeltaHandled(mid, second, states', c.delta);
    BaseShownIff(states, c, n, c.base.snapshotId);
    LoadedId(c.snapshot, n);
  }

  lemma SequenceKept(n: u64, f: MuninnFrame)
    ensures RecordOf(n, f).sequence == n
  {}

  /** The base of an update has the target's id, or some other host shows it. */
  ghost predicate BaseElsewhere(states: map<string, HostState>, c: Capture)
    requires c.Update?
  {
    || c.base.snapshotId == c.snapshot.snapshotId
    || exists h :: h in states && h != c.snapshot.hostIdentifier && states[h].lastSnapshotId == c.base.snapshotId
  }

  /** When the host has changed its name between the captures, the delta does reach the state under
      the old name, and moves its tree to the target exactly when the pair is replayable. */
  lemma RenamedHostReplaysIff(states: map<string, HostState>, c: Capture, loaded: u64, n: u64, hash: Hash,
                              states': map<string, HostState>)
    requires c.Update? && Genuine(c, hash) && HandledAll(states, RecordsOf(c, n), states')
    requires c.base.hostIdentifier != c.snapshot.hostIdentifier && c.base.snapshotId != c.snapshot.snapshotId
    requires c.base.hostIdentifier in states && states[c.base.hostIdentifier] == Load(c.base, loaded)
    requires forall h :: h in states && h != c.base.hostIdentifier ==> states[h].lastSnapshotId != c.base.snapshotId
    ensures c.base.hostIdentifier in states'
    ensures var shown, wanted := states'[c.base.hostIdentifier], Load(c.snapshot, Increment(n));
      shown.entriesById == wanted.entriesById && shown.idByPath == wanted.idByPath <==> Replayable(c.base, c.snapshot, c.delta)
  {
    hide HandledAll, RecordsOf, Accepted, IsDelta, Load, Replay, Replayable, UniqueKeys, Serialization.SnapshotFits, Serialization.DeltaFits;
    LoadedId(c.base, loaded);
    LoadedId(c.snapshot, n);
    UpdateHandled(states, c, n, hash, states');
    AcceptedMeans(c.base);
    AcceptedMeans(c.snapshot);
    ReplayOfCompute(c.base, c.snapshot, true, hash, loaded, Increment(n), c.delta);
  }

  lemma FullHandled(states: map<string, HostState>, c: Capture, n: u64, hash: Hash, states': map<string, HostState>)
    requires c.Full? && Genuine(c, hash) && HandledAll(states, RecordsOf(c, n), states')
    ensures states' == After(states, c, n)
  {
    hide Handled, HandledAll, Received, RecordOf, Accepted, Load, Serialization.SnapshotFits;
    SequenceKept(n, SnapshotFrame(c.snapshot, c.at));
    SnapshotArrives(c.snapshot, c.at, n);
    OneHandled(states, RecordOf(n, SnapshotFrame(c.snapshot, c.at)), states');
    SnapshotHandled(states, RecordOf(n, SnapshotFrame(c.snapshot, c.at)), states', c.snapshot);
  }

  // ---- A stream of captures ----

  /** The sequence after a capture's records. */
  function Behind(c: Capture, n: u64): u64 {
    if c.Full? then Increment(n) else Increment(Increment(n))
  }

  function NextOf(captures: seq<Capture>, n: u64): u64 {
    if captures == [] then n else Behind(captures[|captures| - 1], NextOf(captures[..|captures| - 1], n))
  }

  function Stream(captures: seq<Capture>, n: u64): seq<ResultRecord> {
    if captures == [] then []
    else
      var front := captures[..|captures| - 1];
      Stream(front, n) + RecordsOf(captures[|captures| - 1], NextOf(front, n))
  }

  /** The gateway when every delta of the stream is refused. */
  function AfterAll(states: map<string, HostState>, captures: seq<Capture>, n: u64): map<string, HostState> {
    if captures == [] then states
    else
      var front := captures[..|captures| - 1];
      After(AfterAll(states, front, n), captures[|captures| - 1], NextOf(front, n))
  }

  /** The load of the last capture, under its sequence. */
  function LastLoad(captures: seq<Capture>, n: u64): HostState
    requires captures != []
  {
    Load(captures[|captures| - 1].snapshot, NextOf(captures[..|captures| - 1], n))
  }

  /** No delta of the stream meets its base. */
  ghost predicate Quiet(states: map<string, HostState>, captures: seq<Capture>, n: u64) {
    captures == []
    || (var front, last := captures[..|captures| - 1], captures[|captures| - 1];
        Quiet(states, front, n) && (last.Update? ==> !BaseElsewhere(AfterAll(states, front, n), last)))
  }

  lemma {:induction false} HandledConcat(states: map<string, HostState>, a: seq<ResultRecord>, b: seq<ResultRecord>,
                                         states': map<string, HostState>) returns (mid: map<string, HostState>)
    requires HandledAll(states, a + b, states')
    ensures HandledAll(states, a, mid) && HandledAll(mid, b, states')
    decreases |b|
  {
    hide Handled;
    if b == [] {
      assert a + b == a;
      mid := states';
    } else {
      var front, last := (a + b)[..|a + b| - 1], (a + b)[|a + b| - 1];
      assert front == a + b[..|b| - 1] && last == b[|b| - 1];
      var before :| HandledAll(states, front, before) && Handled(before, last, states');
      mid := HandledConcat(states, a, b[..|b| - 1], before);
    }
  }

  /** Main result: whatever was captured on whatever hosts, as long as no delta meets its base the
      gateway holds the load of each host's last snapshot. */
  lemma {:induction false} StreamHandled(states: map<string, HostState>, captures: seq<Capture>, n: u64, hash: Hash,
                                         states': map<string, HostState>)
    requires (forall c :: c in captures ==> Genuine(c, hash)) && Quiet(states, captures, n)
    requires HandledAll(states, Stream(captures, n), states')
    ensures states' == AfterAll(states, captures, n)
  {
    hide HandledAll, Genuine, BaseElsewhere, After, RecordsOf;
    if captures != [] {
      var front, last := captures[..|captures| - 1], captures[|captures| - 1];
      var mid := HandledConcat(states, Stream(front, n), RecordsOf(last, NextOf(front, n)), states');
      StreamHandled(states, front, n, hash, mid);
      if last.Update? {
        UpdateHandled(mid, last, NextOf(front, n), hash, states');
      } else {
        FullHandled(mid, last, NextOf(front, n), hash, states');
      }
    } else {
      NothingHandled(states, states');
    }
  }

  lemma NothingHandled(states: map<string, HostState>, states': map<string, HostState>)
    requires HandledAll(states, [], states')
    ensures states' == states
  {}

  /** All captures are of one host, no update has its own base as target, and no other host shows the
      base of an update. */
  ghost predicate OneHost(states: map<string, HostState>, captures: seq<Capture>, host: string) {
    forall c :: c in captures ==>
      && c.snapshot.hostIdentifier == host
      && (c.Update? ==> c.base.snapshotId != c.snapshot.snapshotId)
      && (c.Update? ==> forall h :: h in states && h != host ==> states[h].lastSnapshotId != c.base.snapshotId)
  }

  lemma {:induction false} OneHostIsQuiet(states: map<string, HostState>, captures: seq<Capture>, n: u64, host: string)
    requires OneHost(states, captures, host)
    ensures Quiet(states, captures, n)
    ensures captures != [] ==> AfterAll(states, captures, n) == states[host := LastLoad(captures, n)]
  {
    hide Load;
    if captures != [] {
      var front, last := captures[..|captures| - 1], captures[|captures| - 1];
      assert last in captures && forall c :: c in front ==> c in captures;
      OneHostIsQuiet(states, front, n, host);
      assert forall h :: h in states && h != host ==> h in AfterAll(states, front, n) && AfterAll(states, front, n)[h] == states[h];
    }
  }

  /** Main result: over any run of captures of one host, in which no base is its own target, every
      delta is refused and the gateway shows the last captured snapshot. */
  lemma StreamShowsLast(states: map<string, HostState>, captures: seq<Capture>, n: u64, hash: Hash, host: string,
                        states': map<string, HostState>)
    requires (forall c :: c in captures ==> Genuine(c, hash)) && OneHost(states, captures, host) && captures != []
    requires HandledAll(states, Stream(captures, n), states')
    ensures states' == states[host := LastLoad(captures, n)]
  {
    hide HandledAll, Genuine, OneHost, Quiet, AfterAll, Stream;
    OneHostIsQuiet(states, captures, n, host);
    StreamHandled(states, captures, n, hash, states');
  }

  // ---- From the outbox ----

  /** What the indexer sends of a record it has fetched. */
  function SentRecord(r: Outbox.TransportRecord): ResultRecord {
    ResultRecord(r.sequence, r.kind, r.createdAt, r.routingKey, Base64.Encode(r.payload))
  }

  /** Everything that was enqueued from a sequence on is there. */
  ghost predicate HasFrom(o: Outbox.State, n: u64) {
    n <= o.nextSequence && forall k: u64 :: n <= k < o.nextSequence ==> k in o.records
  }

  /** What the outbox sends from a sequence on. */
  ghost function SentFrom(o: Outbox.State, n: u64): seq<ResultRecord>
    requires HasFrom(o, n)
  {
    seq(o.nextSequence - n, i requires 0 <= i < o.nextSequence - n => SentRecord(Outbox.Sealed(o.records, n + i)))
  }

  lemma EnqueuedBehind(o: Outbox.State, n: u64, f: MuninnFrame)
    requires HasFrom(o, n) && o.nextSequence < U64_MAX
    ensures var o' := Outbox.Enqueue(o, Queued(f));
      HasFrom(o', n) && SentFrom(o', n) == SentFrom(o, n) + [RecordOf(o.nextSequence, f)]
  {
    hide Base64.Encode;
    var o', count := Outbox.Enqueue(o, Queued(f)), o.nextSequence - n;
    assert o'.nextSequence == o.nextSequence + 1 && HasFrom(o', n);
    var sent, wanted := SentFrom(o', n), SentFrom(o, n) + [RecordOf(o.nextSequence, f)];
    forall i | 0 <= i <= count ensures sent[i] == wanted[i] {
      var k: u64 := n + i;
      assert sent[i] == SentRecord(Outbox.Sealed(o'.records, k));
      if i < count {
        assert wanted[i] == SentFrom(o, n)[i] == SentRecord(Outbox.Sealed(o.records, k));
      }
    }
    assert |sent| == |wanted|;
  }

  /** One capture enqueues its records, the delta right behind the target's snapshot. */
  lemma CaptureEnqueues(s: StoreState, c: Capture, hash: Hash, s': StoreState, n: u64)
    requires Stores(s, c, hash, s') && HasFrom(s.outbox, n) && s.outbox.nextSequence + 2 <= U64_MAX
    ensures s'.outbox.nextSequence == Behind(c, s.outbox.nextSequence) <= s.outbox.nextSequence + 2
    ensures HasFrom(s'.outbox, n) && SentFrom(s'.outbox, n) == SentFrom(s.outbox, n) + RecordsOf(c, s.outbox.nextSequence)
  {
    hide HasFrom, SentFrom, SnapshotFrame, DeltaFrame, RecordOf, Accepted, IsDelta, HasChanges;
    EnqueuedBehind(s.outbox, n, SnapshotFrame(c.snapshot, c.at));
    if c.Update? {
      var between := Outbox.Enqueue(s.outbox, Queued(SnapshotFrame(c.snapshot, c.at)));
      EnqueuedBehind(between, n, DeltaFrame(c.delta, c.deltaAt));
    }
  }

  /** Main result: what a run of captures has put in the outbox is exactly its stream: each update's
      target snapshot, and the delta right behind it. */
  lemma {:induction false} RunEnqueues(stores: seq<StoreState>, captures: seq<Capture>, hash: Hash)
    requires CaptureRun(stores, captures, hash) && stores[0].outbox.nextSequence + 2 * |captures| <= U64_MAX
    ensures var n, last := stores[0].outbox.nextSequence, stores[|captures|].outbox;
      && last.nextSequence == NextOf(captures, n) <= n + 2 * |captures|
      && HasFrom(last, n) && SentFrom(last, n) == Stream(captures, n)
  {
    hide HasFrom, SentFrom, RecordsOf, Behind, Stores;
    var n, k := stores[0].outbox.nextSequence, |captures| - 1;
    if captures == [] {
      NothingSent(stores[0].outbox);
    } else {
      assert forall i :: 0 <= i < k ==> captures[..k][i] == captures[i];
      RunEnqueues(stores[..k + 1], captures[..k], hash);
      assert Stores(stores[k], captures[k], hash, stores[k + 1]);
      CaptureEnqueues(stores[k], captures[k], hash, stores[k + 1], n);
    }
  }

  lemma NothingSent(o: Outbox.State)
    ensures HasFrom(o, o.nextSequence) && SentFrom(o, o.nextSequence) == []
  {}

  /** Main result, from any scans to the gateway's tree: a run of captures of one host, in which no
      base is its own target, is stored; the gateway handles what the outbox sends from the run's
      first sequence on, and then shows the last captured snapshot. */
  lemma GatewayShowsLastCapture(stores: seq<StoreState>, captures: seq<Capture>, hash: Hash, host: string,
                                states: map<string, HostState>, states': map<string, HostState>)
    requires CaptureRun(stores, captures, hash) && stores[0].outbox.nextSequence + 2 * |captures| <= U64_MAX
    requires captures != [] && (forall c :: c in captures ==> Holds(c)) && OneHost(states, captures, host)
    requires HasFrom(stores[|captures|].outbox, stores[0].outbox.nextSequence)
    requires HandledAll(states, SentFrom(stores[|captures|].outbox, stores[0].outbox.nextSequence), states')
    ensures states' == states[host := LastLoad(captures, stores[0].outbox.nextSequence)]
  {
    hide HandledAll, SentFrom, OneHost, Load, Accepted, IsDelta, Holds, HasFrom, Stream, NextOf;
    RunEnqueues(stores, captures, hash);
    forall c | c in captures ensures Genuine(c, hash) {
      var i :| 0 <= i < |captures| && captures[i] == c;
      assert Stores(stores[i], captures[i], hash, stores[i + 1]);
      StoredIsGenuine(stores[i], c, hash, stores[i + 1]);
    }
    StreamShowsLast(states, captures, stores[0].outbox.nextSequence, hash, host, states');
  }

  /** The formats can hold what was captured. */
  predicate Holds(c: Capture) {
    Serialization.SnapshotFits(c.snapshot) && (c.Update? ==> Serialization.DeltaFits(c.delta))
  }

  lemma StoredIsGenuine(s: StoreState, c: Capture, hash: Hash, s': StoreState)
    requires Stores(s, c, hash, s') && Holds(c)
    ensures Genuine(c, hash)
  {
    hide Accepted, IsDelta, Serialization.SnapshotFits, Serialization.DeltaFits;
  }

  // ---- A base snapshot and a delta ----

  /** The records of a base and of a delta from it, as a caller of the two enqueue operations can put
      them in the outbox. No capture of the pipeline does. */
  function PairOf(base: Snapshot, delta: DeltaSnapshot, at1: u64, at2: u64, sequence1: u64, sequence2: u64): seq<ResultRecord> {
    [RecordOf(sequence1, SnapshotFrame(base, at1)), RecordOf(sequence2, DeltaFrame(delta, at2))]
  }

  lemma OnlyHostShows(states: map<string, HostState>, s: Snapshot, n: u64)
    requires Accepted(s) && forall h :: h in states && h != s.hostIdentifier ==> states[h].lastSnapshotId != s.snapshotId
    ensures var loaded := states[s.hostIdentifier := Load(s, n)];
      forall h :: h in loaded ==> (loaded[h].lastSnapshotId == s.snapshotId <==> h == s.hostIdentifier)
  {
    hide Accepted, Load;
    LoadedId(s, n);
  }

  /** Where such a pair leads: the base's host holds the replay of the delta on its load. */
  lemma PairReplays(states: map<string, HostState>, states': map<string, HostState>, base: Snapshot, delta: DeltaSnapshot,
                    at1: u64, at2: u64, sequence1: u64, sequence2: u64)
    requires Accepted(base) && DeltaOk(delta, None, None) && delta.baseSnapshotId == base.snapshotId
    requires Serialization.SnapshotFits(base) && Serialization.DeltaFits(delta)
    requires forall h :: h in states && h != base.hostIdentifier ==> states[h].lastSnapshotId != base.snapshotId
    requires HandledAll(states, PairOf(base, delta, at1, at2, sequence1, sequence2), states')
    ensures states' == states[base.hostIdentifier := Replay(Load(base, sequence1), sequence2, delta).state]
  {
    hide HandledAll, Handled, Received, RecordOf, Accepted, DeltaOk, Replay, Load, Serialization.SnapshotFits, Serialization.DeltaFits;
    hide SnapshotFrame, DeltaFrame;
    SequenceKept(sequence1, SnapshotFrame(base, at1));
    SequenceKept(sequence2, DeltaFrame(delta, at2));
    SnapshotArrives(base, at1, sequence1);
    DeltaArrives(delta, at2, sequence2);
    var r1, r2 := RecordOf(sequence1, SnapshotFrame(base, at1)), RecordOf(sequence2, DeltaFrame(delta, at2));
    var mid := TwoHandled(states, r1, r2, states');
    SnapshotHandled(states, r1, mid, base);
    OnlyHostShows(states, base, sequence1);
    DeltaHandledBy(mid, r2, states', delta, base.hostIdentifier);
  }

  /** The callback given a base and the delta to a target, both of which the validator accepts, when no
      other host shows the base: the host's two maps are then those of the target if and only if
      the pair is replayable. */
  lemma PairShowsTargetIff(states: map<string, HostState>, states': map<string, HostState>, base: Snapshot, target: Snapshot,
                           heuristic: bool, hash: Hash, delta: DeltaSnapshot,
                           at1: u64, at2: u64, sequence1: u64, sequence2: u64)
    requires Accepted(base) && Accepted(target) && IsDelta(base, target, heuristic, hash, delta)
    requires Serialization.SnapshotFits(base) && Serialization.DeltaFits(delta)
    requires forall h :: h in states && h != base.hostIdentifier ==> states[h].lastSnapshotId != base.snapshotId
    requires HandledAll(states, PairOf(base, delta, at1, at2, sequence1, sequence2), states')
    ensures base.hostIdentifier in states' && states' == states[base.hostIdentifier := states'[base.hostIdentifier]]
    ensures var shown, wanted := states'[base.hostIdentifier], Load(target, sequence2);
      shown.entriesById == wanted.entriesById && shown.idByPath == wanted.idByPath <==> Replayable(base, target, delta)
  {
    hide HandledAll, Accepted, DeltaOk, IsDelta, Replay, Load, Replayable, UniqueKeys, PairOf, Serialization.SnapshotFits, Serialization.DeltaFits;
    AcceptedMeans(base);
    AcceptedMeans(target);
    ComputedIsSound(base, target, heuristic, hash, delta);
    ReplayOfCompute(base, target, heuristic, hash, sequence1, sequence2, delta);
    PairReplays(states, states', base, delta, at1, at2, sequence1, sequence2);
  }

  /** The callback given the build of a first scan and the delta to that of a second one which follows
      it cleanly: the gateway then holds what loading the second build would give. */
  lemma PairShowsSecondScan(states: map<string, HostState>, states': map<string, HostState>, hash: Hash, digest: Digest,
                            first: RawScan, second: RawScan, options1: BuildOptions, options2: BuildOptions,
                            r1: BuildResult, r2: BuildResult, heuristic: bool, delta: DeltaSnapshot,
                            at1: u64, at2: u64, sequence1: u64, sequence2: u64)
    requires FollowsCleanly(hash, first, second)
    requires IsBuild(hash, digest, first, options1, r1) && IsBuild(hash, digest, second, options2, r2)
    requires IsDelta(r1.snapshot, r2.snapshot, heuristic, hash, delta)
    requires Serialization.SnapshotFits(r1.snapshot) && Serialization.DeltaFits(delta)
    requires forall h :: h in states && h != r1.snapshot.hostIdentifier ==> states[h].lastSnapshotId != r1.snapshot.snapshotId
    requires HandledAll(states, PairOf(r1.snapshot, delta, at1, at2, sequence1, sequence2), states')
    ensures r1.snapshot.hostIdentifier in states'
    ensures SameTree(states'[r1.snapshot.hostIdentifier], Load(r2.snapshot, sequence2))
  {
    hide Paths.Normalize, CleanScan, NoCollisions, PathsKept, PairsSafely, IsBuild, IsDelta, Replay, Load, HandledAll;
    hide Accepted, DeltaOk, Replayable, SameTree, PairOf, Serialization.SnapshotFits, Serialization.DeltaFits;
    FewerNoCollisions(hash, first.entries, first.entries + second.entries);
    FewerNoCollisions(hash, second.entries, first.entries + second.entries);
    CleanIsAccepted(hash, digest, first, options1, r1);
    CleanIsAccepted(hash, digest, second, options2, r2);
    ComputedIsSound(r1.snapshot, r2.snapshot, heuristic, hash, delta);
    PairReplays(states, states', r1.snapshot, delta, at1, at2, sequence1, sequence2);
    ScansReplay(hash, digest, first, second, options1, options2, r1, r2, heuristic, delta, sequence1, sequence2);
  }

  lemma CleanIsAccepted(hash: Hash, digest: Digest, scan: RawScan, options: BuildOptions, r: BuildResult)
    requires CleanScan(scan) && NoCollisions(hash, scan.entries) && IsBuild(hash, digest, scan, options, r)
    ensures Accepted(r.snapshot)
  {
    hide CleanScan, NoCollisions, IsBuild, HeaderOk, IdentityOk, GraphOk, PathsOk, PathShaped, UniqueKeys;
    CleanBuild(hash, digest, scan, options, r);
    AcceptedIffTree(r.snapshot);
  }
}
