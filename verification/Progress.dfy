/** Progress of the pull protocol: from every state in order a client can reconnect and pull
    until its callback has been given everything there is. */
module Progress {
  import opened Bridge
  import opened Cursor
  import opened Domain
  import opened Outbox
  import opened Protocol

  const NO_REPLY: seq<ToClient> := []

  /** Connected, with nothing under way. */
  ghost predicate Idle(w: World, c: string, i: nat) {
    && c in w.peers && w.peers[c].current == Some(i) && i < |w.peers[c].sessions|
    && w.peers[c].sessions[i] == Session(true, [], [])
    && w.peers[c].helloComplete && w.peers[c].posted == []
  }

  /** No record was added and none dropped. */
  ghost predicate SameRecords(w: World, w': World) {
    w'.log == w.log && w'.store.records == w.store.records && w'.store.nextSequence == w.store.nextSequence
  }

  /** Everything enqueued since the registration was handed to the callback. */
  ghost predicate Drained(w: World, c: string)
    requires c in w.peers
  {
    forall s: u64 :: w.peers[c].start < s < w.store.nextSequence ==> s in w.log && Sealed(w.log, s) in w.peers[c].handed
  }

  lemma RunAppend(ws: seq<World>, w: World)
    requires Run(ws) && Step(ws[|ws| - 1], w)
    ensures Run(ws + [w])
  {
    hide Step;
    var xs := ws + [w];
    forall i | 0 <= i < |xs| - 1 ensures Step(xs[i], xs[i + 1]) {
      if i < |ws| - 1 { assert Step(ws[i], ws[i + 1]); }
    }
  }

  lemma RunJoin(ws: seq<World>, xs: seq<World>)
    requires Run(ws) && Run(xs) && ws[|ws| - 1] == xs[0]
    ensures Run(ws + xs[1..])
  {
    hide Step;
    var r := ws + xs[1..];
    forall i | 0 <= i < |r| - 1 ensures Step(r[i], r[i + 1]) {
      if i < |ws| - 1 { assert Step(ws[i], ws[i + 1]); }
      else { assert Step(xs[i + 1 - |ws|], xs[i + 1 - |ws| + 1]); }
    }
  }

  // ---- One pull ----

  /** The client posts and sends a read with its own last ack. */
  lemma SendRead(w: World, c: string, i: nat, batch: u32) returns (ws: seq<World>)
    requires Idle(w, c, i)
    ensures ws != [] && Run(ws) && ws[0] == w
    ensures ws[|ws| - 1] == WithPeer(w, c, WithSession(w.peers[c], i, Session(true, [Command(Read, w.peers[c].lastAck, batch)], [])))
  {
    var p := w.peers[c];
    var command := Command(Read, p.lastAck, batch);
    var w1 := WithPeer(w, c, p.(posted := [command]));
    assert PostStep(w, w1, c, Read, true, batch) by { assert p.posted + [command] == [command]; }
    var w2 := WithPeer(w1, c, Flushed(w1.peers[c]));
    assert FlushStep(w1, w2, c);
    var sent := WithPeer(w, c, WithSession(p, i, Session(true, [command], [])));
    assert w2 == sent by {
      assert [command][1..] == [] && [command][0] == command;
      assert w1.peers[c := w2.peers[c]] == w.peers[c := w2.peers[c]];
    }
    assert Step(w, w1) && Step(w1, w2);
    ws := [w, w1, w2];
  }

  /** What the server's reply to a read is. */
  function ReadReply(w: World, c: string, batch: u32): seq<TransportRecord>
    requires c in w.peers
  {
    Fetch(AckCarried(w.store, c, w.peers[c].lastAck), c, batch)
  }

  lemma ServeRead(w: World, c: string, i: nat, batch: u32) returns (w': World)
    requires c in w.peers && i < |w.peers[c].sessions| && batch > 0
    requires w.peers[c].sessions[i] == Session(true, [Command(Read, w.peers[c].lastAck, batch)], [])
    ensures Step(w, w')
    ensures w' == World(
      AckCarried(w.store, c, w.peers[c].lastAck), w.log,
      w.peers[c := WithSession(w.peers[c], i, Session(true, [], [CrudResult(ReadReply(w, c, batch))]))])
  {
    var p, command := w.peers[c], Command(Read, w.peers[c].lastAck, batch);
    var replies := [CrudResult(ReadReply(w, c, batch))];
    w' := World(AckCarried(w.store, c, p.lastAck), w.log, w.peers[c := Served(p, i, replies)]);
    assert [command][1..] == [] && [] + replies == replies;
    assert BatchSize(batch, 1) == batch;
    assert ServeStep(w, w', c, i, replies, 1);
  }

  lemma TakeRead(w: World, c: string, i: nat, records: seq<TransportRecord>) returns (w': World)
    requires c in w.peers && w.peers[c].current == Some(i) && i < |w.peers[c].sessions|
    requires w.peers[c].sessions[i] == Session(true, [], [CrudResult(records)])
    ensures Step(w, w')
    ensures var p := w.peers[c];
      w' == WithPeer(w, c, WithSession(p, i, Session(true, AcksFor(p.lastAck, records), [])).(
        handed := p.handed + records, lastAck := MaxSequence(p.lastAck, records)))
  {
    var p := w.peers[c];
    w' := WithPeer(w, c, Taken(p, i));
    assert [CrudResult(records)][1..] == [] && [] + AcksFor(p.lastAck, records) == AcksFor(p.lastAck, records);
    assert TakeStep(w, w', c);
  }

  lemma ServeAck(w: World, c: string, i: nat, sequence: u64) returns (w': World)
    requires c in w.peers && i < |w.peers[c].sessions| && w.peers[c].sessions[i] == Session(true, [IngestAck(sequence)], [])
    ensures Step(w, w')
    ensures w' == World(AckCarried(w.store, c, sequence), w.log, w.peers[c := WithSession(w.peers[c], i, Session(true, [], []))])
  {
    var p := w.peers[c];
    w' := World(AckCarried(w.store, c, sequence), w.log, w.peers[c := Served(p, i, NO_REPLY)]);
    assert [IngestAck(sequence)][1..] == [] && p.sessions[i].toClient + NO_REPLY == [];
    assert ServeStep(w, w', c, i, NO_REPLY, 1);
  }

  /** The last of consecutive records is the highest. */
  lemma {:induction false} MaxOfConsecutive(from: u64, records: seq<TransportRecord>)
    requires records != [] && from < records[0].sequence
    requires forall i :: 0 <= i < |records| ==> records[i].sequence == records[0].sequence + i
    ensures MaxSequence(from, records) == records[|records| - 1].sequence
  {
    if |records| > 1 {
      MaxOfConsecutive(from, records[..|records| - 1]);
    } else {
      assert records[..0] == [];
    }
  }

  /** Where the next pull starts. */
  function PullFrom(w: World, c: string): nat
    requires c in w.peers
  {
    Max(LowMark(w.store), Max(AckOf(w.store, c), w.peers[c].lastAck) + 1)
  }

  lemma CarriedAck(w: World, c: string)
    requires Inv(w) && c in w.peers && c in w.store.acks
    ensures var store := AckCarried(w.store, c, w.peers[c].lastAck);
      && store.records == w.store.records && store.nextSequence == w.store.nextSequence && c in store.acks
      && store.acks[c] == Max(w.store.acks[c], w.peers[c].lastAck) < U64_MAX
  {
    assert PeerInv(w, c);
  }

  /** The records one pull brings: consecutive from where it starts. */
  lemma PullBrings(w: World, c: string, batch: u32)
    requires Inv(w) && c in w.peers && c in w.store.acks
    ensures var records, start := ReadReply(w, c, batch), PullFrom(w, c);
      && |records| == CountFrom(start, w.store.nextSequence, batch)
      && forall i :: 0 <= i < |records| ==> records[i].sequence == start + i
  {
    hide LowMark, Visit;
    CarriedAck(w, c);
    var store := AckCarried(w.store, c, w.peers[c].lastAck);
    FetchIsInterval(store, LowMark(w.store), c, batch);
  }

  /** One undisturbed pull hands over the next batch, and the stored ack covers it. */
  lemma Pull(w: World, c: string, i: nat, batch: u32) returns (ws: seq<World>)
    requires Inv(w) && Idle(w, c, i) && c in w.store.acks && batch > 0
    ensures ws != [] && Run(ws) && ws[0] == w
    ensures var w' := ws[|ws| - 1];
      && Idle(w', c, i) && c in w'.store.acks && SameRecords(w, w') && w'.peers[c].start == w.peers[c].start
      && w'.peers[c].lastAck == MaxSequence(w.peers[c].lastAck, ReadReply(w, c, batch))
      && w'.peers[c].handed == w.peers[c].handed + ReadReply(w, c, batch)
      && w'.store.acks[c] == Max(w.store.acks[c], w'.peers[c].lastAck)
  {
    hide Inv, Step, Run, Fetch;
    NoEmptyName(w);
    var records, p := ReadReply(w, c, batch), w.peers[c];
    ws := SendRead(w, c, i, batch);
    var w3 := ServeRead(ws[|ws| - 1], c, i, batch);
    RunAppend(ws, w3);
    ws := ws + [w3];
    var w4 := TakeRead(w3, c, i, records);
    RunAppend(ws, w4);
    ws := ws + [w4];
    if AcksFor(p.lastAck, records) != [] {
      var w5 := ServeAck(w4, c, i, MaxSequence(p.lastAck, records));
      RunAppend(ws, w5);
      ws := ws + [w5];
    }
  }

  /** When a pull brings nothing, everything has been handed over. */
  lemma NothingLeft(w: World, c: string)
    requires Inv(w) && c in w.peers && c in w.store.acks && PullFrom(w, c) >= w.store.nextSequence
    ensures Drained(w, c)
  {
    assert PeerInv(w, c);
    var v := ViewOf(w, c);
    forall s: u64 | w.peers[c].start < s < w.store.nextSequence
      ensures s in w.log && Sealed(w.log, s) in w.peers[c].handed
    {
      assert s in v.seen by {
        if s > w.store.acks[c] { assert Covered(v, w.peers[c].lastAck); }
      }
      HandedAsLogged(w, c, s);
    }
  }

  lemma {:induction false} Drain(w: World, c: string, i: nat, batch: u32) returns (ws: seq<World>)
    requires Inv(w) && Idle(w, c, i) && c in w.store.acks && batch > 0
    ensures ws != [] && Run(ws) && ws[0] == w
    ensures var w' := ws[|ws| - 1]; SameRecords(w, w') && c in w'.peers && w'.peers[c].start == w.peers[c].start && Drained(w', c)
    decreases w.store.nextSequence - PullFrom(w, c)
  {
    hide Inv, Step, Run, LowMark, Drained, ReadReply;
    if PullFrom(w, c) >= w.store.nextSequence {
      NothingLeft(w, c);
      ws := [w];
      OneWorldRuns(w);
    } else {
      var pull := Pull(w, c, i, batch);
      var w' := pull[|pull| - 1];
      RunKeeps(pull);
      PullBrings(w, c, batch);
      var records := ReadReply(w, c, batch);
      MaxOfConsecutive(w.peers[c].lastAck, records);
      SameLowMark(w.store, w'.store);
      var rest := Drain(w', c, i, batch);
      RunJoin(pull, rest);
      ws := pull + rest[1..];
    }
  }

  lemma OneWorldRuns(w: World)
    ensures Run([w])
  {}

  lemma SameLowMark(s: State, s': State)
    requires s'.records == s.records && s'.nextSequence == s.nextSequence
    ensures LowMark(s') == LowMark(s)
  {}

  // ---- Getting connected ----

  /** Posted commands are dropped while there is no accepted session. */
  lemma {:induction false} DropPosted(w: World, c: string) returns (ws: seq<World>)
    requires c in w.peers && !w.peers[c].helloComplete
    ensures ws != [] && Run(ws) && ws[0] == w && ws[|ws| - 1] == WithPeer(w, c, w.peers[c].(posted := []))
    decreases |w.peers[c].posted|
  {
    var p := w.peers[c];
    if p.posted == [] {
      assert w.peers[c := p] == w.peers;
      ws := [w];
      OneWorldRuns(w);
    } else {
      var w1 := WithPeer(w, c, Flushed(p));
      assert FlushStep(w, w1, c);
      hide Run;
      var rest := DropPosted(w1, c);
      OneWorldRuns(w);
      RunAppend([w], w1);
      RunJoin([w, w1], rest);
      assert w1.peers[c := rest[|rest| - 1].peers[c]] == w.peers[c := rest[|rest| - 1].peers[c]];
      ws := [w, w1] + rest[1..];
    }
  }

  /** A new connection, with whatever was posted before it dropped. */
  lemma Connect(w: World, c: string) returns (ws: seq<World>)
    requires c in w.peers
    ensures ws != [] && Run(ws) && ws[0] == w
    ensures ws[|ws| - 1] == WithPeer(w, c, Connected(w.peers[c]).(posted := []))
  {
    var w1 := WithPeer(w, c, Connected(w.peers[c]));
    assert LinkStep(w, w1, c);
    hide Run;
    OneWorldRuns(w);
    RunAppend([w], w1);
    assert [w] + [w1] == [w, w1];
    var dropped := DropPosted(w1, c);
    RunJoin([w, w1], dropped);
    ws := [w, w1] + dropped[1..];
    assert w1.peers[c := w1.peers[c].(posted := [])] == w.peers[c := w1.peers[c].(posted := [])];
  }

  lemma Reconnect(w: World, c: string) returns (ws: seq<World>, i: nat)
    requires Inv(w) && c in w.peers
    ensures ws != [] && Run(ws) && ws[0] == w
    ensures var w' := ws[|ws| - 1]; Idle(w', c, i) && c in w'.store.acks && SameRecords(w, w')
    ensures c in w.store.acks ==> ws[|ws| - 1].peers[c].start == w.peers[c].start
  {
    hide Run, Inv, Step;
    NoEmptyName(w);
    i := |w.peers[c].sessions|;
    ws := Connect(w, c);
    var w3 := ServeHello(ws[|ws| - 1], c, i);
    RunAppend(ws, w3);
    ws := ws + [w3];
    var w4 := TakeHello(w3, c, i);
    RunAppend(ws, w4);
    ws := ws + [w4];
  }

  lemma NoEmptyName(w: World)
    requires Inv(w)
    ensures "" !in w.peers
  {}

  lemma ServeHello(w: World, c: string, i: nat) returns (w': World)
    requires c in w.peers && c != "" && i < |w.peers[c].sessions| && w.peers[c].sessions[i] == Session(false, [Hello], [])
    ensures Step(w, w') && w'.store == Register(w.store, c) && w'.log == w.log && c in w'.peers
    ensures w'.peers[c] == WithSession(w.peers[c], i, Session(true, [], [HelloAck])).(start := w'.peers[c].start)
    ensures c in w.store.acks ==> w'.peers[c].start == w.peers[c].start
  {
    var served := Served(w.peers[c], i, [HelloAck]);
    assert [Hello][1..] == [] && [] + [HelloAck] == [HelloAck];
    w' := World(
      Register(w.store, c), w.log,
      w.peers[c := if c !in w.store.acks then served.(start := CompactedBefore(w.store)) else served]);
    assert ServeStep(w, w', c, i, [HelloAck], 1);
  }

  lemma TakeHello(w: World, c: string, i: nat) returns (w': World)
    requires c in w.peers && w.peers[c].current == Some(i) && i < |w.peers[c].sessions|
    requires w.peers[c].sessions[i] == Session(true, [], [HelloAck])
    ensures Step(w, w')
    ensures w' == WithPeer(w, c, WithSession(w.peers[c], i, Session(true, [], [])).(helloComplete := true))
  {
    w' := WithPeer(w, c, Taken(w.peers[c], i));
    assert [HelloAck][1..] == [];
    assert TakeStep(w, w', c);
  }

  /** Main result: whatever has happened in a run, a client that reconnects and keeps pulling without
      further disturbance ends up with everything that was enqueued since its registration. */
  lemma EverythingArrives(w: World, c: string, batch: u32) returns (ws: seq<World>)
    requires Inv(w) && c in w.peers && batch > 0
    ensures ws != [] && Run(ws) && ws[0] == w
    ensures var w' := ws[|ws| - 1]; SameRecords(w, w') && c in w'.peers && Drained(w', c)
    ensures c in w.store.acks ==> ws[|ws| - 1].peers[c].start == w.peers[c].start
  {
    hide Run, Inv, Drained, Idle;
    var connected, i := Reconnect(w, c);
    RunKeeps(connected);
    var drained := Drain(connected[|connected| - 1], c, i, batch);
    RunJoin(connected, drained);
    ws := connected + drained[1..];
  }
}
