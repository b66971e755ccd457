/** The ingest store of the gateway and the coordinator in front of it, one call at a time. */
module Ingest {
  import opened Domain
  import opened Status
  import Text

  datatype LogRecord = LogRecord(hostId: string, sequence: u64, receivedAt: u64, frame: seq<u8>)

  // ---- The store ----

  datatype StoreState = StoreState(checkpoints: map<string, u64>, records: map<string, LogRecord>)

  const EMPTY_STORE := StoreState(map[], map[])

  function MakeKey(host: string, sequence: u64): string {
    host + "#" + Text.Decimal(sequence)
  }

  /** The text before the last `#`. */
  function BeforeHash(key: string): string {
    if key == "" then ""
    else if key[|key| - 1] == '#' then key[..|key| - 1]
    else BeforeHash(key[..|key| - 1])
  }

  lemma {:induction false} BeforeHashOf(host: string, digits: string)
    requires forall i :: 0 <= i < |digits| ==> digits[i] != '#'
    ensures BeforeHash(host + "#" + digits) == host
  {
    var key := host + "#" + digits;
    if digits == "" {
      assert key[..|key| - 1] == host;
    } else {
      BeforeHashOf(host, digits[..|digits| - 1]);
      assert key[..|key| - 1] == host + "#" + digits[..|digits| - 1];
    }
  }

  /** Hosts may hold any characters: the last `#` still separates them from the digits. */
  lemma MakeKeyInjective(host: string, sequence: u64, host': string, sequence': u64)
    requires MakeKey(host, sequence) == MakeKey(host', sequence')
    ensures host == host' && sequence == sequence'
  {
    hide Text.Decimal, BeforeHash;
    var key := MakeKey(host, sequence);
    BeforeHashOf(host, Text.Decimal(sequence));
    BeforeHashOf(host', Text.Decimal(sequence'));
    assert key[|host| + 1..] == Text.Decimal(sequence);
    assert key[|host| + 1..] == Text.Decimal(sequence');
    Text.DecimalInjective(sequence, sequence');
  }

  function Checkpoint(s: StoreState, host: string): u64 {
    if host in s.checkpoints then s.checkpoints[host] else 0
  }

  /** `try_emplace`, then the checkpoint moves up if the sequence is above it. */
  function Append(s: StoreState, r: LogRecord): StoreState {
    var key := MakeKey(r.hostId, r.sequence);
    StoreState(
      s.checkpoints[r.hostId := if r.sequence > Checkpoint(s, r.hostId) then r.sequence else Checkpoint(s, r.hostId)],
      if key in s.records then s.records else s.records[key := r])
  }

  class InMemoryIngestStore {
    var checkpoints: map<string, u64>
    var records: map<string, LogRecord>

    ghost function Value(): StoreState
      reads this
    {
      StoreState(checkpoints, records)
    }

    constructor ()
      ensures Value() == EMPTY_STORE
    {
      checkpoints, records := map[], map[];
    }

    method GetCheckpoint(host: string) returns (r: StatusOr<u64>)
      ensures r == if host == "" then Err(InvalidArgument) else Ok(Checkpoint(Value(), host))
    {
      if host == "" {
        return Err(InvalidArgument);
      }
      r := Ok(if host in checkpoints then checkpoints[host] else 0);
    }

    method AppendIfAbsentAndCheckpoint(record: LogRecord) returns (status: Status)
      modifies this
      ensures status == if record.hostId == "" || record.sequence == 0 then Failure(InvalidArgument) else Success
      ensures Value() == if status == Success then Append(old(Value()), record) else old(Value())
    {
      if record.hostId == "" || record.sequence == 0 {
        return Failure(InvalidArgument);
      }
      var key := MakeKey(record.hostId, record.sequence);
      if key !in records {
        records := records[key := record];
      }
      if record.hostId !in checkpoints {
        checkpoints := checkpoints[record.hostId := 0];
      }
      if record.sequence > checkpoints[record.hostId] {
        checkpoints := checkpoints[record.hostId := record.sequence];
      }
      status := Success;
    }
  }

  // ---- The coordinator ----

  datatype HostState = HostState(lastCommitted: u64, sinceLastAck: nat)

  datatype Action = Committed | Duplicate | Gap

  datatype Decision = Decision(action: Action, shouldAck: bool, ackInclusive: u64, expectedNext: u64)

  datatype SinkCall = SinkCall(hostId: string, sequence: u64, frame: seq<u8>)

  /** Parsing and validation of a frame for a host, as far as its outcome goes. */
  type Validator = (string, seq<u8>) -> Status

  /** What the coordinator, its store and its sink hold between calls. */
  datatype Coordinator = Coordinator(store: StoreState, hosts: map<string, HostState>, sink: seq<SinkCall>)

  /** The first use of a host reads its checkpoint; later uses trust the cached value. */
  function Loaded(store: StoreState, hosts: map<string, HostState>, host: string): HostState {
    if host in hosts then hosts[host] else HostState(Checkpoint(store, host), 0)
  }

  function Refusal(state: HostState, sequence: u64): Option<Decision> {
    var last := state.lastCommitted;
    if sequence <= last then Some(Decision(Duplicate, true, last, Increment(last)))
    else if sequence > Increment(last) then Some(Decision(Gap, false, last, Increment(last)))
    else None
  }

  /** The second critical section: the cached value moves up and every `batch`-th commit acks. */
  function CommitHost(state: HostState, sequence: u64, batch: nat): (HostState, Decision) {
    var last := if sequence > state.lastCommitted then sequence else state.lastCommitted;
    var since := state.sinceLastAck + 1;
    var ack := since >= batch;
    (HostState(last, if ack then 0 else since), Decision(Committed, ack, last, Increment(last)))
  }

  /** One undisturbed call. */
  function IngestOne(s: Coordinator, valid: Validator, batch: nat, r: LogRecord): (Coordinator, StatusOr<Decision>) {
    if r.hostId == "" || r.sequence == 0 then (s, Err(InvalidArgument))
    else
      var state := Loaded(s.store, s.hosts, r.hostId);
      var loaded := s.(hosts := s.hosts[r.hostId := state]);
      if Refusal(state, r.sequence).Some? then (loaded, Ok(Refusal(state, r.sequence).value))
      else if valid(r.hostId, r.frame).Failure? then (loaded, Err(valid(r.hostId, r.frame).code))
      else
        var (state', decision) := CommitHost(state, r.sequence, batch);
        (Coordinator(Append(s.store, r), s.hosts[r.hostId := state'], s.sink + [SinkCall(r.hostId, r.sequence, r.frame)]),
         Ok(decision))
  }

  class IngestCoordinator {
    const store: InMemoryIngestStore
    const ackBatchSize: nat
    var hostStates: map<string, HostState>
    var sink: seq<SinkCall>

    ghost function Value(): Coordinator
      reads this, store
    {
      Coordinator(store.Value(), hostStates, sink)
    }

    constructor (store: InMemoryIngestStore, ackBatchSize: nat)
      ensures this.store == store && hostStates == map[] && sink == []
      ensures this.ackBatchSize == if ackBatchSize == 0 then 1 else ackBatchSize
    {
      this.store := store;
      this.ackBatchSize := if ackBatchSize == 0 then 1 else ackBatchSize;
      hostStates, sink := map[], [];
    }

    method LoadHostState(host: string) returns (state: HostState)
      requires host != ""
      modifies this`hostStates
      ensures state == Loaded(store.Value(), old(hostStates), host)
      ensures hostStates == old(hostStates)[host := state]
    {
      if host in hostStates {
        state := hostStates[host];
        assert hostStates[host := state] == hostStates;
        return;
      }
      var checkpoint := store.GetCheckpoint(host);
      state := HostState(checkpoint.value, 0);
      hostStates := hostStates[host := state];
    }

    method Ingest(valid: Validator, host: string, sequence: u64, frame: seq<u8>, receivedAt: u64)
      returns (r: StatusOr<Decision>)
      modifies this, store
      ensures (Value(), r) == IngestOne(old(Value()), valid, ackBatchSize, LogRecord(host, sequence, receivedAt, frame))
    {
      if host == "" || sequence == 0 {
        return Err(InvalidArgument);
      }
      var state := LoadHostState(host);
      var expected := Increment(state.lastCommitted);
      if sequence <= state.lastCommitted {
        return Ok(Decision(Duplicate, true, state.lastCommitted, expected));
      }
      if sequence > expected {
        return Ok(Decision(Gap, false, state.lastCommitted, expected));
      }
      var checked := valid(host, frame);
      if checked.Failure? {
        return Err(checked.code);
      }
      var written := store.AppendIfAbsentAndCheckpoint(LogRecord(host, sequence, receivedAt, frame));
      sink := sink + [SinkCall(host, sequence, frame)];
      state := LoadHostState(host);
      var last := if sequence > state.lastCommitted then sequence else state.lastCommitted;
      var since := state.sinceLastAck + 1;
      var ack := since >= ackBatchSize;
      assert hostStates[host := HostState(last, if ack then 0 else since)]
        == old(hostStates)[host := HostState(last, if ack then 0 else since)];
      hostStates := hostStates[host := HostState(last, if ack then 0 else since)];
      r := Ok(Decision(Committed, ack, last, Increment(last)));
    }

    method ExpectedNextSequence(host: string) returns (r: StatusOr<u64>)
      modifies this`hostStates
      ensures host == "" ==> r == Err(InvalidArgument) && hostStates == old(hostStates)
      ensures host != "" ==>
        var state := Loaded(store.Value(), old(hostStates), host);
        r == Ok(Increment(state.lastCommitted)) && hostStates == old(hostStates)[host := state]
    {
      if host == "" {
        return Err(InvalidArgument);
      }
      var state := LoadHostState(host);
      r := Ok(Increment(state.lastCommitted));
    }
  }

  // ---- The log ----

  /** A host's log holds exactly the sequences 1 up to its checkpoint. */
  ghost predicate LogExact(s: StoreState, host: string) {
    forall sequence: u64 {:trigger MakeKey(host, sequence)} ::
      MakeKey(host, sequence) in s.records <==> 1 <= sequence <= Checkpoint(s, host)
  }

  /** The first frame stored for a sequence stays. */
  ghost predicate LogGrows(s: StoreState, s': StoreState) {
    && (forall k :: k in s.records ==> k in s'.records && s'.records[k] == s.records[k])
    && (forall h :: Checkpoint(s, h) <= Checkpoint(s', h))
  }

  /** Appending what is at most one above the checkpoint keeps every host's log exact. */
  lemma AppendKeepsLog(s: StoreState, r: LogRecord, host: string)
    requires r.sequence >= 1 && LogExact(s, host) && LogExact(s, r.hostId)
    requires r.sequence as nat <= Checkpoint(s, r.hostId) as nat + 1
    ensures LogExact(Append(s, r), host)
  {
    var s' := Append(s, r);
    forall sequence: u64
      ensures MakeKey(host, sequence) in s'.records <==> 1 <= sequence <= Checkpoint(s', host)
    {
      if MakeKey(host, sequence) == MakeKey(r.hostId, r.sequence) {
        MakeKeyInjective(host, sequence, r.hostId, r.sequence);
      }
    }
  }

  lemma AppendGrows(s: StoreState, r: LogRecord)
    ensures LogGrows(s, Append(s, r))
  {}

  // ---- Calls one after the other ----

  /** What the sink was given for one host. */
  function CallsOf(sink: seq<SinkCall>, host: string): seq<SinkCall> {
    if sink == [] then []
    else CallsOf(sink[..|sink| - 1], host) + if sink[|sink| - 1].hostId == host then [sink[|sink| - 1]] else []
  }

  lemma CallsOfAppend(sink: seq<SinkCall>, call: SinkCall, host: string)
    ensures CallsOf(sink + [call], host) == CallsOf(sink, host) + if call.hostId == host then [call] else []
  {
    assert (sink + [call])[..|sink|] == sink;
  }

  /** The sink has each sequence above `base` once, in order, with the frame of the log, up to the
      cached value, which is the checkpoint. */
  ghost predicate InOrder(s: Coordinator, host: string, base: u64) {
    var calls := CallsOf(s.sink, host);
    && LogExact(s.store, host)
    && |calls| == Checkpoint(s.store, host) - base
    && (host in s.hosts ==> s.hosts[host].lastCommitted == Checkpoint(s.store, host))
    && (forall i {:trigger calls[i]} :: 0 <= i < |calls| ==> CallMatchesLog(s.store, calls[i], host, base + 1 + i))
  }

  ghost predicate CallMatchesLog(s: StoreState, call: SinkCall, host: string, sequence: nat) {
    && call.hostId == host && call.sequence == sequence
    && MakeKey(host, call.sequence) in s.records && s.records[MakeKey(host, call.sequence)].frame == call.frame
  }

  /** Main result: one call keeps the log exact and the sink in order, never replaces a stored
      frame, and every decision names the checkpoint. */
  lemma IngestKeepsOrder(s: Coordinator, valid: Validator, batch: nat, r: LogRecord, host: string, base: u64)
    requires InOrder(s, host, base) && LogExact(s.store, r.hostId)
    requires r.hostId in s.hosts ==> s.hosts[r.hostId].lastCommitted == Checkpoint(s.store, r.hostId)
    ensures var (s', decision) := IngestOne(s, valid, batch, r);
      && InOrder(s', host, base)
      && LogGrows(s.store, s'.store)
      && (decision.Ok? && r.hostId == host ==> decision.value.ackInclusive == Checkpoint(s'.store, host))
  {
    hide LogExact, MakeKey, CallsOf, CallMatchesLog, LogGrows;
    var (s', decision) := IngestOne(s, valid, batch, r);
    GrowsSame(s.store);
    if decision.Ok? && decision.value.action == Committed {
      CommitKeepsOrder(s, s', r, host, base);
    }
  }

  lemma GrowsSame(s: StoreState)
    ensures LogGrows(s, s)
  {}

  lemma MatchGrows(s: StoreState, s': StoreState, call: SinkCall, host: string, sequence: nat)
    requires LogGrows(s, s') && CallMatchesLog(s, call, host, sequence)
    ensures CallMatchesLog(s', call, host, sequence)
  {}

  lemma CommitKeepsOrder(s: Coordinator, s': Coordinator, r: LogRecord, host: string, base: u64)
    requires InOrder(s, host, base) && LogExact(s.store, r.hostId)
    requires r.sequence as nat == Checkpoint(s.store, r.hostId) as nat + 1
    requires s'.store == Append(s.store, r) && s'.sink == s.sink + [SinkCall(r.hostId, r.sequence, r.frame)]
    requires s'.hosts.Keys == s.hosts.Keys + {r.hostId} && s'.hosts[r.hostId].lastCommitted == r.sequence
    requires forall h :: h in s.hosts && h != r.hostId ==> s'.hosts[h] == s.hosts[h]
    ensures InOrder(s', host, base) && LogGrows(s.store, s'.store)
  {
    AppendGrows(s.store, r);
    AppendKeepsLog(s.store, r, host);
    NewRecord(s.store, r);
    var call := SinkCall(r.hostId, r.sequence, r.frame);
    CallsOfAppend(s.sink, call, host);
    assert Checkpoint(s'.store, host) == if r.hostId == host then r.sequence else Checkpoint(s.store, host);
    var calls, calls' := CallsOf(s.sink, host), CallsOf(s'.sink, host);
    assert r.hostId == host ==> CallMatchesLog(s'.store, call, host, r.sequence);
    hide LogExact, MakeKey, CallsOf, CallMatchesLog, LogGrows, Append;
    forall i | 0 <= i < |calls'| ensures CallMatchesLog(s'.store, calls'[i], host, base + 1 + i) {
      if i < |calls| {
        assert CallMatchesLog(s.store, calls[i], host, base + 1 + i);
        MatchGrows(s.store, s'.store, calls[i], host, base + 1 + i);
      }
    }
  }

  lemma NewRecord(s: StoreState, r: LogRecord)
    requires LogExact(s, r.hostId) && r.sequence as nat == Checkpoint(s, r.hostId) as nat + 1
    ensures MakeKey(r.hostId, r.sequence) !in s.records
    ensures MakeKey(r.hostId, r.sequence) in Append(s, r).records && Append(s, r).records[MakeKey(r.hostId, r.sequence)] == r
    ensures Checkpoint(Append(s, r), r.hostId) == r.sequence
  {}

  function IngestAll(s: Coordinator, valid: Validator, batch: nat, rs: seq<LogRecord>): Coordinator {
    if rs == [] then s else IngestOne(IngestAll(s, valid, batch, rs[..|rs| - 1]), valid, batch, rs[|rs| - 1]).0
  }

  /** Main result: a coordinator started over a store, whatever is then sent to it without overlap,
      hands its sink every sequence above the old checkpoint once, in order, as it is in the log. */
  lemma {:induction false} SinkSeesEachOnceInOrder(store: StoreState, valid: Validator, batch: nat, rs: seq<LogRecord>, host: string)
    requires forall h :: LogExact(store, h)
    ensures InOrder(IngestAll(Coordinator(store, map[], []), valid, batch, rs), host, Checkpoint(store, host))
    decreases |rs|
  {
    hide LogExact, MakeKey, CallMatchesLog, LogGrows, IngestOne;
    if rs != [] {
      var init, last := rs[..|rs| - 1], rs[|rs| - 1];
      SinkSeesEachOnceInOrder(store, valid, batch, init, host);
      SinkSeesEachOnceInOrder(store, valid, batch, init, last.hostId);
      IngestKeepsOrder(IngestAll(Coordinator(store, map[], []), valid, batch, init), valid, batch, last, host, Checkpoint(store, host));
    }
  }

  // ---- The decisions ----

  /** What the calls answer, one after the other. */
  function Decisions(s: Coordinator, valid: Validator, batch: nat, rs: seq<LogRecord>): (ds: seq<StatusOr<Decision>>)
    ensures |ds| == |rs|
  {
    if rs == [] then []
    else
      var front := rs[..|rs| - 1];
      Decisions(s, valid, batch, front) + [IngestOne(IngestAll(s, valid, batch, front), valid, batch, rs[|rs| - 1]).1]
  }

  predicate IsCommit(d: StatusOr<Decision>) {
    d.Ok? && d.value.action == Committed
  }

  /** How many of the first `n` calls committed a frame of the host. */
  function Commits(rs: seq<LogRecord>, ds: seq<StatusOr<Decision>>, host: string, n: nat): nat
    requires n <= |rs| == |ds|
  {
    if n == 0 then 0
    else Commits(rs, ds, host, n - 1) + if rs[n - 1].hostId == host && IsCommit(ds[n - 1]) then 1 else 0
  }

  lemma {:induction false} CommitsFront(rs: seq<LogRecord>, ds: seq<StatusOr<Decision>>, r: LogRecord, d: StatusOr<Decision>, host: string, n: nat)
    requires n <= |rs| == |ds|
    ensures Commits(rs + [r], ds + [d], host, n) == Commits(rs, ds, host, n)
  {
    if n > 0 { CommitsFront(rs, ds, r, d, host, n - 1); }
  }

  function SinceAck(s: Coordinator, host: string): nat {
    if host in s.hosts then s.hosts[host].sinceLastAck else 0
  }

  /** How many of `n` commits come behind the last one that acked. */
  function Since(n: nat, batch: nat): nat
    requires batch > 0
  {
    n % batch
  }

  /** The commits of a host since the last one that acked. */
  ghost predicate CountsCommits(s: Coordinator, batch: nat, rs: seq<LogRecord>, ds: seq<StatusOr<Decision>>)
    requires batch > 0 && |rs| == |ds|
  {
    forall h :: SinceAck(s, h) == Since(Commits(rs, ds, h, |rs|), batch)
  }

  lemma NextCount(n: nat, batch: nat)
    requires batch > 0
    ensures Since(n, batch) + 1 >= batch <==> Since(n + 1, batch) == 0
    ensures Since(n + 1, batch) == if Since(n, batch) + 1 >= batch then 0 else Since(n, batch) + 1
  {
    var q, m := n / batch, n % batch;
    assert n == q * batch + m;
    if m + 1 < batch {
      Remainder(n + 1, batch, q, m + 1);
    } else {
      assert (q + 1) * batch == q * batch + batch;
      Remainder(n + 1, batch, q + 1, 0);
    }
  }

  lemma Remainder(n: nat, batch: nat, q: nat, m: nat)
    requires batch > 0 && n == q * batch + m && m < batch
    ensures n % batch == m
  {
    var d := n / batch - q;
    assert n == n / batch * batch + n % batch;
    assert d * batch == n / batch * batch - q * batch;
    SmallMultiple(d, batch);
  }

  lemma SmallMultiple(d: int, batch: int)
    requires batch > 0 && -batch < d * batch < batch
    ensures d == 0
  {}

  /** One call: a commit counts for its host until it acks, and nothing else changes the count of any host. */
  lemma CallMoves(s: Coordinator, valid: Validator, batch: nat, r: LogRecord, h: string)
    ensures var (s', d) := IngestOne(s, valid, batch, r);
      && (IsCommit(d) ==> (d.value.shouldAck <==> SinceAck(s, r.hostId) + 1 >= batch))
      && SinceAck(s', h) ==
        if !IsCommit(d) || h != r.hostId then SinceAck(s, h)
        else if d.value.shouldAck then 0 else SinceAck(s, h) + 1
  {
    hide Append, Checkpoint;
  }

  lemma CommitsOfOne(rs: seq<LogRecord>, ds: seq<StatusOr<Decision>>, r: LogRecord, d: StatusOr<Decision>, host: string)
    requires |rs| == |ds|
    ensures Commits(rs + [r], ds + [d], host, |rs| + 1) == Commits(rs, ds, host, |rs|) + if r.hostId == host && IsCommit(d) then 1 else 0
  {
    CommitsFront(rs, ds, r, d, host, |rs|);
  }

  lemma CallCountsFor(s: Coordinator, valid: Validator, batch: nat, rs: seq<LogRecord>, ds: seq<StatusOr<Decision>>, r: LogRecord, h: string)
    requires batch > 0 && |rs| == |ds| && CountsCommits(s, batch, rs, ds)
    ensures var (s', d) := IngestOne(s, valid, batch, r);
      SinceAck(s', h) == Since(Commits(rs + [r], ds + [d], h, |rs| + 1), batch)
  {
    hide IngestOne, SinceAck, Since, Commits, IsCommit;
    CallMoves(s, valid, batch, r, h);
    CommitsOfOne(rs, ds, r, IngestOne(s, valid, batch, r).1, h);
    NextCount(Commits(rs, ds, h, |rs|), batch);
  }

  lemma CallCounts(s: Coordinator, valid: Validator, batch: nat, rs: seq<LogRecord>, ds: seq<StatusOr<Decision>>, r: LogRecord)
    requires batch > 0 && |rs| == |ds| && CountsCommits(s, batch, rs, ds)
    ensures CountsCommits(IngestOne(s, valid, batch, r).0, batch, rs + [r], ds + [IngestOne(s, valid, batch, r).1])
  {
    hide IngestOne, SinceAck, Since, Commits;
    var (s', d) := IngestOne(s, valid, batch, r);
    forall h ensures SinceAck(s', h) == Since(Commits(rs + [r], ds + [d], h, |rs| + 1), batch) {
      CallCountsFor(s, valid, batch, rs, ds, r, h);
    }
  }

  lemma CallAcks(s: Coordinator, valid: Validator, batch: nat, rs: seq<LogRecord>, ds: seq<StatusOr<Decision>>, r: LogRecord)
    requires batch > 0 && |rs| == |ds| && CountsCommits(s, batch, rs, ds) && IsCommit(IngestOne(s, valid, batch, r).1)
    ensures var d := IngestOne(s, valid, batch, r).1;
      d.value.shouldAck <==> Since(Commits(rs + [r], ds + [d], r.hostId, |rs| + 1), batch) == 0
  {
    hide IngestOne, SinceAck, Since, Commits;
    CallMoves(s, valid, batch, r, r.hostId);
    CommitsOfOne(rs, ds, r, IngestOne(s, valid, batch, r).1, r.hostId);
    NextCount(Commits(rs, ds, r.hostId, |rs|), batch);
  }

  lemma {:induction false} AllCount(store: StoreState, valid: Validator, batch: nat, rs: seq<LogRecord>)
    requires batch > 0
    ensures var s := Coordinator(store, map[], []);
      CountsCommits(IngestAll(s, valid, batch, rs), batch, rs, Decisions(s, valid, batch, rs))
    decreases |rs|
  {
    hide IngestOne, Commits, Since, SinceAck;
    var s := Coordinator(store, map[], []);
    if rs == [] {
      NoCommits(batch, store);
    } else {
      var front, last := rs[..|rs| - 1], rs[|rs| - 1];
      AllCount(store, valid, batch, front);
      CallCounts(IngestAll(s, valid, batch, front), valid, batch, front, Decisions(s, valid, batch, front), last);
      assert front + [last] == rs;
    }
  }

  lemma NoCommits(batch: nat, store: StoreState)
    requires batch > 0
    ensures CountsCommits(Coordinator(store, map[], []), batch, [], [])
  {
    assert Since(0, batch) == 0;
    hide Since;
  }

  lemma {:induction false} AcksWhenCounted(store: StoreState, valid: Validator, batch: nat, rs: seq<LogRecord>, i: nat)
    requires batch > 0 && i < |rs|
    ensures var ds := Decisions(Coordinator(store, map[], []), valid, batch, rs);
      ds[i].Ok? ==>
        match ds[i].value.action
        case Committed => ds[i].value.shouldAck <==> Since(Commits(rs, ds, rs[i].hostId, i + 1), batch) == 0
        case Duplicate => ds[i].value.shouldAck
        case Gap => !ds[i].value.shouldAck
    decreases |rs|
  {
    hide Commits, CountsCommits, Since;
    var s := Coordinator(store, map[], []);
    var front, last := rs[..|rs| - 1], rs[|rs| - 1];
    var fore, ds := Decisions(s, valid, batch, front), Decisions(s, valid, batch, rs);
    var d := IngestOne(IngestAll(s, valid, batch, front), valid, batch, last).1;
    assert front + [last] == rs && fore + [d] == ds;
    if i < |front| {
      hide IngestOne;
      AcksWhenCounted(store, valid, batch, front, i);
      CommitsFront(front, fore, last, d, rs[i].hostId, i + 1);
    } else {
      AllCount(store, valid, batch, front);
      if IsCommit(d) { CallAcks(IngestAll(s, valid, batch, front), valid, batch, front, fore, last); }
    }
  }

  /** Main result: whatever is sent to a fresh coordinator, over any store, every `batch`-th commit of a
      host acks and no other does; a duplicate always acks, and a gap never. */
  lemma AcksEveryBatch(store: StoreState, valid: Validator, batch: nat, rs: seq<LogRecord>, i: nat)
    requires batch > 0 && i < |rs|
    ensures var ds := Decisions(Coordinator(store, map[], []), valid, batch, rs);
      ds[i].Ok? ==>
        match ds[i].value.action
        case Committed => ds[i].value.shouldAck <==> Commits(rs, ds, rs[i].hostId, i + 1) % batch == 0
        case Duplicate => ds[i].value.shouldAck
        case Gap => !ds[i].value.shouldAck
  {
    hide Commits, Decisions;
    AcksWhenCounted(store, valid, batch, rs, i);
  }

  /** Main result: which decision a call gets, from the checkpoint alone, when what is cached for the
      host is the checkpoint; the decision names what to expect next. */
  lemma DecisionByCheckpoint(s: Coordinator, valid: Validator, batch: nat, r: LogRecord)
    requires r.hostId in s.hosts ==> s.hosts[r.hostId].lastCommitted == Checkpoint(s.store, r.hostId)
    ensures var at, d := Checkpoint(s.store, r.hostId), IngestOne(s, valid, batch, r).1;
      if r.hostId == "" || r.sequence == 0 then d == Err(InvalidArgument)
      else if r.sequence <= at then d.Ok? && d.value.action == Duplicate && d.value.ackInclusive == at
      else if r.sequence > at + 1 then d.Ok? && d.value.action == Gap && d.value.ackInclusive == at
      else if valid(r.hostId, r.frame).Failure? then d == Err(valid(r.hostId, r.frame).code)
      else d.Ok? && d.value.action == Committed && d.value.ackInclusive == r.sequence
    ensures var d := IngestOne(s, valid, batch, r).1;
      d.Ok? && d.value.ackInclusive < U64_MAX ==> d.value.expectedNext == d.value.ackInclusive + 1
  {}
}
