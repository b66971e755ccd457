/** The coordinator under concurrent calls: the gate and the commit are critical sections, the
    write to the store and the call of the sink happen between them without the lock. */
module IngestRaces {
  import opened Domain
  import opened Ingest
  import opened Status

  /** How far a call has come. */
  datatype Thread =
    | Checked(record: LogRecord)
    | Persisted(record: LogRecord)
    | Sunk(record: LogRecord)

  /** `acked` holds the greatest sequence any decision has acked for a host; `bases` the checkpoint
      that this process read for a host on its first use. */
  datatype World = World(
    store: StoreState, hosts: map<string, HostState>, threads: map<nat, Thread>, sink: seq<SinkCall>,
    acked: map<string, u64>, bases: map<string, u64>)

  ghost predicate Initial(w: World) {
    && (forall h :: LogExact(w.store, h))
    && w.hosts == map[] && w.threads == map[] && w.sink == [] && w.acked == map[] && w.bases == map[]
  }

  function AckedOf(w: World, host: string): u64 {
    if host in w.acked then w.acked[host] else 0
  }

  function RaiseAck(w: World, host: string, d: Decision): World {
    if d.shouldAck && d.ackInclusive > AckedOf(w, host) then w.(acked := w.acked[host := d.ackInclusive]) else w
  }

  /** `load_host_state_locked`. */
  function Load(w: World, host: string): World {
    if host in w.hosts then w
    else
      w.(hosts := w.hosts[host := Loaded(w.store, w.hosts, host)],
         bases := w.bases[host := Checkpoint(w.store, host)])
  }

  // ---- The steps ----

  /** The gate of a new call, under the lock, with the parsing and validation after it. */
  ghost predicate GateStep(w: World, w': World, valid: Validator, tid: nat, r: LogRecord) {
    && tid !in w.threads && r.hostId != "" && r.sequence != 0
    && var l := Load(w, r.hostId);
       var refusal := Refusal(l.hosts[r.hostId], r.sequence);
       if refusal.Some? then w' == RaiseAck(l, r.hostId, refusal.value)
       else if valid(r.hostId, r.frame).Failure? then w' == l
       else w' == l.(threads := l.threads[tid := Checked(r)])
  }

  /** The store's own transaction; it may also fail and end the call. */
  ghost predicate PersistStep(w: World, w': World, tid: nat) {
    && tid in w.threads && w.threads[tid].Checked?
    && (|| w' == w.(store := Append(w.store, w.threads[tid].record), threads := w.threads[tid := Persisted(w.threads[tid].record)])
        || w' == w.(threads := w.threads - {tid}))
  }

  ghost predicate SinkStep(w: World, w': World, tid: nat) {
    && tid in w.threads && w.threads[tid].Persisted?
    && var r := w.threads[tid].record;
       w' == w.(sink := w.sink + [SinkCall(r.hostId, r.sequence, r.frame)], threads := w.threads[tid := Sunk(r)])
  }

  /** The commit, under the lock again. */
  ghost predicate CommitStep(w: World, w': World, tid: nat, batch: nat) {
    && tid in w.threads && w.threads[tid].Sunk?
    && var r := w.threads[tid].record;
       var l := Load(w, r.hostId);
       var (state, decision) := CommitHost(l.hosts[r.hostId], r.sequence, batch);
       w' == RaiseAck(l.(hosts := l.hosts[r.hostId := state], threads := l.threads - {tid}), r.hostId, decision)
  }

  /** `expected_next_sequence`. */
  ghost predicate QueryStep(w: World, w': World, host: string) {
    host != "" && w' == Load(w, host)
  }

  /** The process stops at any point and starts again over the same store. */
  ghost predicate RestartStep(w: World, w': World) {
    w' == World(w.store, map[], map[], [], w.acked, map[])
  }

  ghost predicate Step(w: World, w': World) {
    || (exists valid, tid, r :: GateStep(w, w', valid, tid, r))
    || (exists tid :: PersistStep(w, w', tid) || SinkStep(w, w', tid))
    || (exists tid, batch :: CommitStep(w, w', tid, batch))
    || (exists host :: QueryStep(w, w', host))
    || RestartStep(w, w')
  }

  ghost predicate Run(ws: seq<World>) {
    ws != [] && forall i :: 0 <= i < |ws| - 1 ==> Step(ws[i], ws[i + 1])
  }

  // ---- What every step keeps ----

  predicate InSink(sink: seq<SinkCall>, host: string, sequence: nat) {
    exists i :: 0 <= i < |sink| && sink[i].hostId == host && sink[i].sequence == sequence
  }

  /** The sink was called for everything above the base up to `upto`. */
  ghost predicate SunkUpTo(sink: seq<SinkCall>, host: string, base: nat, upto: nat) {
    forall s: nat {:trigger InSink(sink, host, s)} :: base < s <= upto ==> InSink(sink, host, s)
  }

  ghost predicate ThreadOk(w: World, t: Thread) {
    var host, sequence := t.record.hostId, t.record.sequence;
    && host != "" && sequence >= 1 && host in w.bases && w.bases[host] < sequence
    && SunkUpTo(w.sink, host, w.bases[host], sequence - 1)
    && match t
       case Checked(_) => sequence as nat <= Checkpoint(w.store, host) as nat + 1
       case Persisted(_) => sequence <= Checkpoint(w.store, host)
       case Sunk(_) => sequence <= Checkpoint(w.store, host) && SunkUpTo(w.sink, host, w.bases[host], sequence)
  }

  ghost predicate HostOk(w: World, host: string)
    requires host in w.hosts
  {
    && host in w.bases && w.bases[host] <= w.hosts[host].lastCommitted <= Checkpoint(w.store, host)
    && SunkUpTo(w.sink, host, w.bases[host], w.hosts[host].lastCommitted)
  }

  /** A sink call's predecessor is the base or was handed to the sink before. */
  ghost predicate CallInTurn(w: World, i: nat)
    requires i < |w.sink|
  {
    var call := w.sink[i];
    && call.hostId in w.bases && w.bases[call.hostId] < call.sequence <= Checkpoint(w.store, call.hostId)
    && SunkUpTo(w.sink[..i], call.hostId, w.bases[call.hostId], call.sequence - 1)
  }

  ghost predicate Inv(w: World) {
    && (forall h :: LogExact(w.store, h))
    && (forall h {:trigger AckedOf(w, h)} :: AckedOf(w, h) <= Checkpoint(w.store, h))
    && w.bases.Keys == w.hosts.Keys
    && (forall h {:trigger HostOk(w, h)} :: h in w.hosts ==> HostOk(w, h))
    && (forall tid {:trigger w.threads[tid]} :: tid in w.threads ==> ThreadOk(w, w.threads[tid]))
    && (forall i {:trigger CallInTurn(w, i)} :: 0 <= i < |w.sink| ==> CallInTurn(w, i))
  }

  /** Nothing that was there is taken back. */
  ghost predicate Later(w: World, w': World) {
    && LogGrows(w.store, w'.store) && w.sink <= w'.sink
    && forall h :: h in w.bases ==> h in w'.bases && w'.bases[h] == w.bases[h]
  }

  lemma SunkLater(sink: seq<SinkCall>, sink': seq<SinkCall>, host: string, base: nat, upto: nat)
    requires sink <= sink' && SunkUpTo(sink, host, base, upto)
    ensures SunkUpTo(sink', host, base, upto)
  {
    forall s: nat | base < s <= upto ensures InSink(sink', host, s) {
      assert InSink(sink, host, s);
      var i :| 0 <= i < |sink| && sink[i].hostId == host && sink[i].sequence == s;
      assert sink'[i] == sink[i];
    }
  }

  lemma ThreadLater(w: World, w': World, t: Thread)
    requires Later(w, w') && ThreadOk(w, t)
    ensures ThreadOk(w', t)
  {
    var host, sequence := t.record.hostId, t.record.sequence;
    SunkLater(w.sink, w'.sink, host, w.bases[host], sequence - 1);
    if t.Sunk? { SunkLater(w.sink, w'.sink, host, w.bases[host], sequence); }
    hide SunkUpTo;
  }

  lemma HostLater(w: World, w': World, host: string)
    requires Later(w, w') && host in w.hosts && HostOk(w, host)
    requires host in w'.hosts && w'.hosts[host] == w.hosts[host]
    ensures HostOk(w', host)
  {
    SunkLater(w.sink, w'.sink, host, w.bases[host], w.hosts[host].lastCommitted);
    hide SunkUpTo;
  }

  lemma CallLater(w: World, w': World, i: nat)
    requires Later(w, w') && i < |w.sink| && CallInTurn(w, i)
    ensures CallInTurn(w', i)
  {
    assert w'.sink[..i] == w.sink[..i];
    hide SunkUpTo;
  }

  // ---- Each step ----

  /** Loading a host's state, for whatever purpose. */
  lemma LoadKeeps(w: World, host: string)
    requires Inv(w)
    ensures Inv(Load(w, host)) && Later(w, Load(w, host)) && host in Load(w, host).hosts
    ensures Load(w, host).threads == w.threads && Load(w, host).sink == w.sink
  {
    hide LogExact, SunkUpTo, ThreadOk, CallInTurn;
    var l := Load(w, host);
    GrowsSame(w.store);
    if host !in w.hosts {
      NothingToSink(w.sink, host, Checkpoint(w.store, host));
      assert HostOk(l, host);
      forall h | h in l.hosts ensures HostOk(l, h) { if h != host { HostLater(w, l, h); } }
      forall tid | tid in l.threads ensures ThreadOk(l, l.threads[tid]) { ThreadLater(w, l, w.threads[tid]); }
      forall i | 0 <= i < |l.sink| ensures CallInTurn(l, i) { CallLater(w, l, i); }
      forall h ensures AckedOf(l, h) <= Checkpoint(l.store, h) { assert AckedOf(w, h) == AckedOf(l, h); }
    }
  }

  lemma NothingToSink(sink: seq<SinkCall>, host: string, base: nat)
    ensures SunkUpTo(sink, host, base, base)
  {}

  lemma RaiseAckKeeps(w: World, host: string, d: Decision)
    requires Inv(w) && d.ackInclusive <= Checkpoint(w.store, host)
    ensures Inv(RaiseAck(w, host, d))
  {
    hide LogExact, SunkUpTo;
    var w' := RaiseAck(w, host, d);
    forall h ensures AckedOf(w', h) <= Checkpoint(w'.store, h) { assert AckedOf(w, h) <= Checkpoint(w.store, h); }
    forall tid | tid in w'.threads ensures ThreadOk(w', w'.threads[tid]) { assert ThreadOk(w, w.threads[tid]); }
    forall h | h in w'.hosts ensures HostOk(w', h) { assert HostOk(w, h); }
    forall i | 0 <= i < |w'.sink| ensures CallInTurn(w', i) { assert CallInTurn(w, i); }
  }

  lemma GateKeeps(w: World, w': World, valid: Validator, tid: nat, r: LogRecord)
    requires Inv(w) && GateStep(w, w', valid, tid, r)
    ensures Inv(w')
  {
    LoadKeeps(w, r.hostId);
    var l := Load(w, r.hostId);
    hide LogExact, SunkUpTo, Load;
    assert HostOk(l, r.hostId);
    var refusal := Refusal(l.hosts[r.hostId], r.sequence);
    if refusal.Some? {
      RaiseAckKeeps(l, r.hostId, refusal.value);
    } else if valid(r.hostId, r.frame).Success? {
      CheckedOk(l, r);
      hide ThreadOk, HostOk;
      ThreadsKeep(l, w', tid);
    }
  }

  lemma CheckedOk(w: World, r: LogRecord)
    requires r.hostId != "" && r.sequence != 0 && r.hostId in w.hosts && HostOk(w, r.hostId)
    requires Refusal(w.hosts[r.hostId], r.sequence).None?
    ensures ThreadOk(w, Checked(r))
  {}

  /** Only the table of threads changes, and it stays in order. */
  lemma ThreadsKeep(w: World, w': World, tid: nat)
    requires Inv(w) && w' == w.(threads := w'.threads)
    requires forall t :: t in w'.threads && t != tid ==> t in w.threads && w'.threads[t] == w.threads[t]
    requires tid in w'.threads ==> ThreadOk(w, w'.threads[tid])
    ensures Inv(w')
  {
    hide LogExact, SunkUpTo;
    forall h ensures AckedOf(w', h) <= Checkpoint(w'.store, h) { assert AckedOf(w, h) <= Checkpoint(w.store, h); }
    forall t | t in w'.threads ensures ThreadOk(w', w'.threads[t]) {
      if t != tid { assert ThreadOk(w, w.threads[t]); }
    }
    forall h | h in w'.hosts ensures HostOk(w', h) { assert HostOk(w, h); }
    forall i | 0 <= i < |w'.sink| ensures CallInTurn(w', i) { assert CallInTurn(w, i); }
  }

  lemma AppendLater(w: World, r: LogRecord)
    requires Inv(w) && r.sequence >= 1 && r.sequence as nat <= Checkpoint(w.store, r.hostId) as nat + 1
    ensures Inv(w.(store := Append(w.store, r)))
    ensures Checkpoint(Append(w.store, r), r.hostId) >= r.sequence
  {
    var w' := w.(store := Append(w.store, r));
    AppendGrows(w.store, r);
    assert forall h :: Checkpoint(w.store, h) <= Checkpoint(w'.store, h);
    forall h ensures LogExact(w'.store, h) { AppendKeepsLog(w.store, r, h); }
    assert Later(w, w');
    hide LogExact, SunkUpTo, Append, Later;
    forall h ensures AckedOf(w', h) <= Checkpoint(w'.store, h) {
      assert AckedOf(w, h) <= Checkpoint(w.store, h) <= Checkpoint(w'.store, h);
    }
    forall t | t in w'.threads ensures ThreadOk(w', w'.threads[t]) { ThreadLater(w, w', w.threads[t]); }
    forall h | h in w'.hosts ensures HostOk(w', h) { HostLater(w, w', h); }
    forall i | 0 <= i < |w'.sink| ensures CallInTurn(w', i) { CallLater(w, w', i); }
  }

  lemma PersistKeeps(w: World, w': World, tid: nat)
    requires Inv(w) && PersistStep(w, w', tid)
    ensures Inv(w')
  {
    hide LogExact, SunkUpTo, Append;
    var r := w.threads[tid].record;
    assert ThreadOk(w, w.threads[tid]);
    if w' == w.(threads := w.threads - {tid}) {
      ThreadsKeep(w, w', tid);
    } else {
      AppendLater(w, r);
      var w1 := w.(store := Append(w.store, r));
      assert ThreadOk(w1, w1.threads[tid]);
      ThreadsKeep(w1, w', tid);
    }
  }

  lemma SunkOneMore(sink: seq<SinkCall>, call: SinkCall, base: nat)
    requires call.sequence >= 1 && SunkUpTo(sink, call.hostId, base, call.sequence - 1)
    ensures SunkUpTo(sink + [call], call.hostId, base, call.sequence)
  {
    SunkLater(sink, sink + [call], call.hostId, base, call.sequence - 1);
    assert (sink + [call])[|sink|] == call;
    assert InSink(sink + [call], call.hostId, call.sequence);
  }

  lemma SinkKeeps(w: World, w': World, tid: nat)
    requires Inv(w) && SinkStep(w, w', tid)
    ensures Inv(w')
  {
    hide LogExact, SunkUpTo;
    var r := w.threads[tid].record;
    var call := SinkCall(r.hostId, r.sequence, r.frame);
    assert ThreadOk(w, w.threads[tid]);
    SunkOneMore(w.sink, call, w.bases[r.hostId]);
    GrowsSame(w.store);
    var w1 := w.(sink := w.sink + [call]);
    SunkLater(w.sink, w1.sink, r.hostId, w.bases[r.hostId], r.sequence - 1);
    forall h ensures AckedOf(w1, h) <= Checkpoint(w1.store, h) { assert AckedOf(w, h) <= Checkpoint(w.store, h); }
    forall t | t in w1.threads ensures ThreadOk(w1, w1.threads[t]) { ThreadLater(w, w1, w.threads[t]); }
    forall h | h in w1.hosts ensures HostOk(w1, h) { HostLater(w, w1, h); }
    forall i | 0 <= i < |w1.sink| ensures CallInTurn(w1, i) {
      if i < |w.sink| { CallLater(w, w1, i); } else { assert w1.sink[..i] == w.sink; }
    }
    ThreadsKeep(w1, w', tid);
  }

  lemma CommitKeeps(w: World, w': World, tid: nat, batch: nat)
    requires Inv(w) && CommitStep(w, w', tid, batch)
    ensures Inv(w')
  {
    var r := w.threads[tid].record;
    LoadKeeps(w, r.hostId);
    var l := Load(w, r.hostId);
    hide LogExact, SunkUpTo, Load;
    assert ThreadOk(l, l.threads[tid]) && HostOk(l, r.hostId);
    var (state, decision) := CommitHost(l.hosts[r.hostId], r.sequence, batch);
    var l1 := l.(threads := l.threads - {tid});
    ThreadsKeep(l, l1, tid);
    var l2 := l1.(hosts := l.hosts[r.hostId := state]);
    HostKeeps(l1, l2, r.hostId);
    RaiseAckKeeps(l2, r.hostId, decision);
  }

  /** Only the state of one loaded host changes, and it stays in order. */
  lemma HostKeeps(w: World, w': World, host: string)
    requires Inv(w) && host in w.hosts && host in w'.hosts && w' == w.(hosts := w.hosts[host := w'.hosts[host]])
    requires HostOk(w', host)
    ensures Inv(w')
  {
    hide LogExact, SunkUpTo;
    forall h ensures AckedOf(w', h) <= Checkpoint(w'.store, h) { assert AckedOf(w, h) <= Checkpoint(w.store, h); }
    forall t | t in w'.threads ensures ThreadOk(w', w'.threads[t]) { assert ThreadOk(w, w.threads[t]); }
    forall h | h in w'.hosts ensures HostOk(w', h) { if h != host { assert HostOk(w, h); } }
    forall i | 0 <= i < |w'.sink| ensures CallInTurn(w', i) { assert CallInTurn(w, i); }
  }

  lemma StepKeeps(w: World, w': World)
    requires Inv(w) && Step(w, w')
    ensures Inv(w')
  {
    hide Inv, GateStep, PersistStep, SinkStep, CommitStep;
    if valid, tid, r :| GateStep(w, w', valid, tid, r) {
      GateKeeps(w, w', valid, tid, r);
    } else if tid :| PersistStep(w, w', tid) {
      PersistKeeps(w, w', tid);
    } else if tid :| SinkStep(w, w', tid) {
      SinkKeeps(w, w', tid);
    } else if tid, batch :| CommitStep(w, w', tid, batch) {
      CommitKeeps(w, w', tid, batch);
    } else if host :| QueryStep(w, w', host) {
      LoadKeeps(w, host);
    } else {
      RestartKeeps(w, w');
    }
  }

  lemma RestartKeeps(w: World, w': World)
    requires Inv(w) && RestartStep(w, w')
    ensures Inv(w')
  {
    hide LogExact;
    forall h ensures AckedOf(w', h) <= Checkpoint(w'.store, h) { assert AckedOf(w, h) <= Checkpoint(w.store, h); }
  }

  /** The log of one step: stored frames stay and checkpoints do not go back. */
  lemma StepGrowsLog(w: World, w': World)
    requires Step(w, w')
    ensures LogGrows(w.store, w'.store)
  {
    hide LogGrows, GateStep, PersistStep, SinkStep, CommitStep;
    GrowsSame(w.store);
    if valid, tid, r :| GateStep(w, w', valid, tid, r) {
      GateKeepsStore(w, w', valid, tid, r);
    } else if tid :| PersistStep(w, w', tid) {
      PersistGrows(w, w', tid);
    } else if tid :| SinkStep(w, w', tid) {
      SinkKeepsStore(w, w', tid);
    } else if tid, batch :| CommitStep(w, w', tid, batch) {
      CommitKeepsStore(w, w', tid, batch);
    }
  }

  lemma GateKeepsStore(w: World, w': World, valid: Validator, tid: nat, r: LogRecord)
    requires GateStep(w, w', valid, tid, r)
    ensures w'.store == w.store
  {}

  lemma PersistGrows(w: World, w': World, tid: nat)
    requires PersistStep(w, w', tid)
    ensures LogGrows(w.store, w'.store)
  {
    hide LogGrows, Append;
    GrowsSame(w.store);
    AppendGrows(w.store, w.threads[tid].record);
  }

  lemma SinkKeepsStore(w: World, w': World, tid: nat)
    requires SinkStep(w, w', tid)
    ensures w'.store == w.store
  {}

  lemma CommitKeepsStore(w: World, w': World, tid: nat, batch: nat)
    requires CommitStep(w, w', tid, batch)
    ensures w'.store == w.store
  {}

  lemma {:induction false} RunKeeps(ws: seq<World>)
    requires Run(ws) && Inv(ws[0])
    ensures Inv(ws[|ws| - 1]) && LogGrows(ws[0].store, ws[|ws| - 1].store)
  {
    hide Inv, Step;
    var n := |ws| - 1;
    GrowsSame(ws[0].store);
    if n > 0 {
      RunKeeps(ws[..n]);
      assert Step(ws[n - 1], ws[n - 1 + 1]);
      StepKeeps(ws[n - 1], ws[n]);
      StepGrowsLog(ws[n - 1], ws[n]);
    }
  }

  /** From any state of a run to any later one, stored frames stay and checkpoints do not go back. */
  lemma LogGrowsBetween(ws: seq<World>, i: nat, j: nat)
    requires Run(ws) && Inv(ws[0]) && i <= j < |ws|
    ensures LogGrows(ws[i].store, ws[j].store)
  {
    hide Inv, Step, LogGrows;
    RunKeeps(ws[..i + 1]);
    var part := ws[i..j + 1];
    forall k | 0 <= k < |part| - 1 ensures Step(part[k], part[k + 1]) { assert Step(ws[i + k], ws[i + k + 1]); }
    RunKeeps(part);
  }

  /** Main result, under every interleaving and any restarts: each host's log is exactly 1 up to its
      checkpoint, a frame is never replaced once it is stored, the cached value does not exceed the
      checkpoint, and no acked sequence is missing from the log. */
  lemma LogIsSafe(ws: seq<World>, host: string)
    requires Run(ws) && Initial(ws[0])
    ensures var w := ws[|ws| - 1];
      && (forall s: u64 {:trigger MakeKey(host, s)} :: MakeKey(host, s) in w.store.records <==> 1 <= s <= Checkpoint(w.store, host))
      && (host in w.hosts ==> w.hosts[host].lastCommitted <= Checkpoint(w.store, host))
      && (forall s: u64 {:trigger MakeKey(host, s)} :: 1 <= s <= AckedOf(w, host) ==> MakeKey(host, s) in w.store.records)
    ensures forall i, j :: 0 <= i <= j < |ws| ==> LogGrows(ws[i].store, ws[j].store)
  {
    forall i, j | 0 <= i <= j < |ws| ensures LogGrows(ws[i].store, ws[j].store) { LogGrowsBetween(ws, i, j); }
    RunKeeps(ws);
    var w := ws[|ws| - 1];
    assert LogExact(w.store, host);
    assert AckedOf(w, host) <= Checkpoint(w.store, host);
    if host in w.hosts { assert HostOk(w, host); }
  }

  /** Main result: within one life of the process the sink first sees a host's sequences in order,
      none left out: everything from the base up to its predecessor was handed over before. */
  lemma SinkFirstSightingsInOrder(ws: seq<World>, i: nat, sequence: nat)
    requires Run(ws) && Initial(ws[0]) && i < |ws[|ws| - 1].sink|
    requires var w := ws[|ws| - 1];
      w.sink[i].hostId in w.bases ==> w.bases[w.sink[i].hostId] < sequence < w.sink[i].sequence
    ensures var w := ws[|ws| - 1];
      && w.sink[i].hostId in w.bases
      && exists j :: 0 <= j < i && w.sink[j].hostId == w.sink[i].hostId && w.sink[j].sequence == sequence
  {
    RunKeeps(ws);
    var w := ws[|ws| - 1];
    assert CallInTurn(w, i);
    assert InSink(w.sink[..i], w.sink[i].hostId, sequence);
    var j :| 0 <= j < i && w.sink[..i][j].hostId == w.sink[i].hostId && w.sink[..i][j].sequence == sequence;
  }
}
