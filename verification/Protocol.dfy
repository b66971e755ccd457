/** The pull protocol as a step system: any number of clients pull from one outbox over sessions
    that may break at any time, restart without memory of their acks, and race with compaction. */
module Protocol {
  import opened Bridge
  import opened Cursor
  import opened Domain
  import opened Outbox

  // ---- The world ----

  /** One websocket connection; a broken one may still have messages the server reads later. */
  datatype Session = Session(helloAccepted: bool, toServer: seq<ToServer>, toClient: seq<ToClient>)

  /** A client with its sessions. `handed` is all its callback has been given, over restarts too;
      `start` is the last sequence compacted away before the consumer was registered. */
  datatype Peer = Peer(
    sessions: seq<Session>, current: Option<nat>, helloComplete: bool,
    lastAck: u64, posted: seq<ToServer>, handed: seq<TransportRecord>, start: nat)

  /** `log` is the history of everything ever enqueued. */
  datatype World = World(store: State, log: map<u64, Frame>, peers: map<string, Peer>)

  const NEW_PEER := Peer([], None, false, 0, [], [], 0)

  ghost predicate Initial(w: World) {
    w.store == EMPTY && w.log == map[] && "" !in w.peers && forall c :: c in w.peers ==> w.peers[c] == NEW_PEER
  }

  /** The sequence of the first record still stored. */
  function LowMark(s: State): u64 {
    if s.records.Keys == {} then s.nextSequence else Least(s.records.Keys)
  }

  /** How many sequences are gone from the front of the outbox. */
  function CompactedBefore(s: State): nat {
    if LowMark(s) == 0 then 0 else LowMark(s) - 1
  }

  // ---- The steps ----

  function WithPeer(w: World, c: string, p: Peer): World {
    w.(peers := w.peers[c := p])
  }

  function WithSession(p: Peer, i: nat, s: Session): Peer
    requires i < |p.sessions|
  {
    p.(sessions := p.sessions[i := s])
  }

  ghost predicate EnqueueStep(w: World, w': World, f: Frame) {
    && w.store.nextSequence != U64_MAX
    && w' == w.(store := Enqueue(w.store, f), log := w.log[w.store.nextSequence := f])
  }

  ghost predicate CompactStep(w: World, w': World) {
    w' == w.(store := Compact(w.store))
  }

  /** Consumers outside of the system register and ack as they like. */
  ghost predicate StrangerStep(w: World, w': World, c: string, x: u64) {
    c !in w.peers && (w' == w.(store := Register(w.store, c)) || w' == w.(store := Ack(w.store, c, x)))
  }

  /** A new connection; the client's first message is its hello. */
  function Connected(p: Peer): Peer {
    p.(sessions := p.sessions + [Session(false, [Hello], [])], current := Some(|p.sessions|), helloComplete := false)
  }

  function Disconnected(p: Peer): Peer {
    p.(current := None, helloComplete := false)
  }

  function Restarted(p: Peer): Peer {
    Disconnected(p).(lastAck := 0, posted := [])
  }

  ghost predicate LinkStep(w: World, w': World, c: string) {
    c in w.peers && (
      || w' == WithPeer(w, c, Connected(w.peers[c]))
      || w' == WithPeer(w, c, Disconnected(w.peers[c]))
      || w' == WithPeer(w, c, Restarted(w.peers[c])))
  }

  /** A session that is no longer current loses what is still under way after some point. */
  ghost predicate LoseStep(w: World, w': World, c: string, i: nat, k: nat) {
    && c in w.peers && i < |w.peers[c].sessions| && w.peers[c].current != Some(i)
    && var s := w.peers[c].sessions[i];
       k <= |s.toServer| && w' == WithPeer(w, c, WithSession(w.peers[c], i, s.(toServer := s.toServer[..k], toClient := [])))
  }

  /** A command is posted with ack 0 or the client's own last ack. */
  ghost predicate PostStep(w: World, w': World, c: string, operation: Operation, acks: bool, batch: u32) {
    && c in w.peers && w.peers[c].helloComplete
    && var p := w.peers[c];
       w' == WithPeer(w, c, p.(posted := p.posted + [Command(operation, if acks then p.lastAck else 0, batch)]))
  }

  /** The posted command is written to the current session, or dropped when there is none. */
  function Flushed(p: Peer): Peer
    requires p.posted != []
  {
    var rest := p.(posted := p.posted[1..]);
    if p.helloComplete && p.current.Some? && p.current.value < |p.sessions| then
      var s := p.sessions[p.current.value];
      WithSession(rest, p.current.value, s.(toServer := s.toServer + [p.posted[0]]))
    else rest
  }

  ghost predicate FlushStep(w: World, w': World, c: string) {
    c in w.peers && w.peers[c].posted != [] && w' == WithPeer(w, c, Flushed(w.peers[c]))
  }

  // ---- The server takes a message ----

  /** The store after the message; nothing but a hello counts before a hello. */
  function StoreAfter(store: State, c: string, helloAccepted: bool, m: ToServer): State {
    if m.Hello? then Register(store, c)
    else if !helloAccepted then store
    else AckCarried(store, c, m.ackSequence)
  }

  /** What the server may reply: a read returns a fetch; the other operations return a fetch
      or fail without records; before a hello there is only an error. */
  ghost predicate Replies(store: State, c: string, helloAccepted: bool, m: ToServer, replies: seq<ToClient>, default: nat) {
    if m.Hello? then replies == [HelloAck]
    else if !helloAccepted then replies == [CrudResult([])]
    else if m.IngestAck? then replies == []
    else
      || replies == [CrudResult(Fetch(StoreAfter(store, c, helloAccepted, m), c, BatchSize(m.outboxBatchSize, default)))]
      || (m.operation != Read && replies == [CrudResult([])])
  }

  function Served(p: Peer, i: nat, replies: seq<ToClient>): Peer
    requires i < |p.sessions| && p.sessions[i].toServer != []
  {
    var s := p.sessions[i];
    WithSession(p, i, Session(s.helloAccepted || s.toServer[0].Hello?, s.toServer[1..], s.toClient + replies))
  }

  ghost predicate ServeStep(w: World, w': World, c: string, i: nat, replies: seq<ToClient>, default: nat) {
    && c in w.peers && i < |w.peers[c].sessions| && w.peers[c].sessions[i].toServer != []
    && var p, s := w.peers[c], w.peers[c].sessions[i];
       && Replies(w.store, c, s.helloAccepted, s.toServer[0], replies, default)
       && var served := Served(p, i, replies);
          w' == World(
            StoreAfter(w.store, c, s.helloAccepted, s.toServer[0]),
            w.log,
            w.peers[c := if s.toServer[0].Hello? && c !in w.store.acks then served.(start := CompactedBefore(w.store)) else served])
  }

  // ---- The client takes a message ----

  function Taken(p: Peer, i: nat): Peer
    requires i < |p.sessions| && p.sessions[i].toClient != []
  {
    var s := p.sessions[i];
    var m, rest := s.toClient[0], s.(toClient := s.toClient[1..]);
    match m
    case HelloAck => WithSession(p, i, rest).(helloComplete := true)
    case CrudResult(records) =>
      WithSession(p, i, rest.(toServer := rest.toServer + AcksFor(p.lastAck, records))).(
        handed := p.handed + records, lastAck := MaxSequence(p.lastAck, records))
  }

  ghost predicate TakeStep(w: World, w': World, c: string) {
    && c in w.peers && w.peers[c].current.Some?
    && var p, i := w.peers[c], w.peers[c].current.value;
       i < |p.sessions| && p.sessions[i].toClient != [] && w' == WithPeer(w, c, Taken(p, i))
  }

  ghost predicate Step(w: World, w': World) {
    || (exists f :: EnqueueStep(w, w', f))
    || CompactStep(w, w')
    || (exists c, x :: StrangerStep(w, w', c, x))
    || (exists c :: LinkStep(w, w', c) || FlushStep(w, w', c) || TakeStep(w, w', c))
    || (exists c, i, k :: LoseStep(w, w', c, i, k))
    || (exists c, operation, acks, batch :: PostStep(w, w', c, operation, acks, batch))
    || (exists c, i, replies, default :: ServeStep(w, w', c, i, replies, default))
  }

  ghost predicate Run(ws: seq<World>) {
    ws != [] && forall i :: 0 <= i < |ws| - 1 ==> Step(ws[i], ws[i + 1])
  }

  // ---- What every step keeps ----

  function Seen(handed: seq<TransportRecord>): set<u64> {
    set r | r in handed :: r.sequence
  }

  /** What a message of one peer is judged by. */
  datatype View = View(start: nat, seen: set<u64>, next: u64, log: map<u64, Frame>, registered: bool)

  /** Everything above the starting mark up to `x` was handed to the callback. */
  ghost predicate Covered(v: View, x: nat) {
    x < v.next && forall s: u64 {:trigger s in v.seen} :: v.start < s <= x ==> s in v.seen
  }

  ghost predicate MessageOk(v: View, m: ToServer) {
    m.Hello? || Covered(v, m.ackSequence)
  }

  ghost predicate LoggedAt(v: View, r: TransportRecord) {
    v.start < r.sequence && r.sequence in v.log && r == Sealed(v.log, r.sequence)
  }

  /** A batch is consecutive, true to the log, and starts no later than right after what is covered. */
  ghost predicate BatchOk(v: View, records: seq<TransportRecord>) {
    records != [] ==>
      && v.registered
      && records[0].sequence > 0 && Covered(v, records[0].sequence - 1)
      && (forall i :: 0 <= i < |records| ==> records[i].sequence == records[0].sequence + i)
      && (forall i :: 0 <= i < |records| ==> LoggedAt(v, records[i]))
  }

  ghost predicate ReplyOk(v: View, m: ToClient) {
    m.CrudResult? ==> BatchOk(v, m.records)
  }

  ghost predicate SessionOk(v: View, s: Session) {
    && (s.helloAccepted ==> v.registered)
    && (forall i :: 0 <= i < |s.toServer| ==> MessageOk(v, s.toServer[i]))
    && (forall i :: 0 <= i < |s.toClient| ==> ReplyOk(v, s.toClient[i]))
  }

  ghost predicate HandedOk(v: View, handed: seq<TransportRecord>) {
    forall i :: 0 <= i < |handed| ==> LoggedAt(v, handed[i]) && Covered(v, handed[i].sequence)
  }

  ghost predicate PeerOk(v: View, p: Peer) {
    && v.start == p.start && v.seen == Seen(p.handed)
    && (!v.registered ==> p.start == 0 && p.handed == [])
    && Covered(v, p.lastAck)
    && HandedOk(v, p.handed)
    && (forall i :: 0 <= i < |p.sessions| ==> SessionOk(v, p.sessions[i]))
    && (forall i :: 0 <= i < |p.posted| ==> MessageOk(v, p.posted[i]))
  }

  function ViewOf(w: World, c: string): View
    requires c in w.peers
  {
    View(w.peers[c].start, Seen(w.peers[c].handed), w.store.nextSequence, w.log, c in w.store.acks)
  }

  /** The stored ack is covered, and compaction has not gone past it. */
  ghost predicate AckOk(v: View, store: State, c: string) {
    && v.start < LowMark(store)
    && (c in store.acks ==> Covered(v, store.acks[c]) && LowMark(store) <= Max(v.start, store.acks[c]) + 1)
  }

  ghost predicate LogOk(store: State, log: map<u64, Frame>) {
    && (forall k :: k in log <==> 1 <= k < store.nextSequence)
    && (forall k :: k in store.records && k in log ==> store.records[k] == log[k])
  }

  ghost predicate Inv(w: World) {
    && Dense(w.store, LowMark(w.store)) && LogOk(w.store, w.log) && "" !in w.peers
    && (forall c :: c in w.peers ==> PeerInv(w, c))
  }

  ghost predicate PeerInv(w: World, c: string)
    requires c in w.peers
  {
    PeerOk(ViewOf(w, c), w.peers[c]) && AckOk(ViewOf(w, c), w.store, c)
  }

  // ---- Views only grow ----

  ghost predicate Grows(v: View, v': View) {
    && v.next <= v'.next && v.seen <= v'.seen
    && (forall k :: k in v.log ==> k in v'.log && v'.log[k] == v.log[k])
    && (if v.registered then v'.registered && v'.start == v.start else v.start <= v'.start && v.seen == {})
  }

  lemma CoveredGrows(v: View, v': View, x: nat)
    requires Grows(v, v') && Covered(v, x)
    ensures Covered(v', x)
  {}

  lemma BatchGrows(v: View, v': View, records: seq<TransportRecord>)
    requires Grows(v, v') && BatchOk(v, records)
    ensures BatchOk(v', records)
  {
    if records != [] { CoveredGrows(v, v', records[0].sequence - 1); }
    hide Covered;
  }

  lemma SessionGrows(v: View, v': View, s: Session)
    requires Grows(v, v') && SessionOk(v, s)
    ensures SessionOk(v', s)
  {
    hide Covered, BatchOk;
    forall i | 0 <= i < |s.toServer| ensures MessageOk(v', s.toServer[i]) {
      MessageGrows(v, v', s.toServer[i]);
    }
    forall i | 0 <= i < |s.toClient| ensures ReplyOk(v', s.toClient[i]) {
      if s.toClient[i].CrudResult? { BatchGrows(v, v', s.toClient[i].records); }
    }
  }

  lemma MessageGrows(v: View, v': View, m: ToServer)
    requires Grows(v, v') && MessageOk(v, m)
    ensures MessageOk(v', m)
  {
    if !m.Hello? { CoveredGrows(v, v', m.ackSequence); }
  }

  /** A peer that does nothing stays in order while the rest of the world moves on. */
  lemma PeerGrows(v: View, v': View, p: Peer, p': Peer)
    requires Grows(v, v') && PeerOk(v, p)
    requires p' == p.(start := p'.start) && v'.start == p'.start && v'.seen == v.seen
    requires !v'.registered ==> p'.start == 0
    ensures PeerOk(v', p')
  {
    hide Covered, SessionOk, LoggedAt, MessageOk;
    forall i | 0 <= i < |p.sessions| ensures SessionOk(v', p.sessions[i]) { SessionGrows(v, v', p.sessions[i]); }
    forall i | 0 <= i < |p.posted| ensures MessageOk(v', p.posted[i]) { MessageGrows(v, v', p.posted[i]); }
    CoveredGrows(v, v', p.lastAck);
    forall i | 0 <= i < |p.handed| ensures LoggedAt(v', p.handed[i]) && Covered(v', p.handed[i].sequence) {
      CoveredGrows(v, v', p.handed[i].sequence);
      HandedMeansSeen(v, p, i);
      LoggedGrows(v, v', p.handed[i]);
    }
  }

  lemma HandedMeansSeen(v: View, p: Peer, i: nat)
    requires PeerOk(v, p) && i < |p.handed|
    ensures v.registered
  {}

  lemma LoggedGrows(v: View, v': View, r: TransportRecord)
    requires Grows(v, v') && v.registered && LoggedAt(v, r)
    ensures LoggedAt(v', r)
  {}

  // ---- The store's steps ----

  lemma LowMarkIs(s: State, low: nat)
    requires Dense(s, low)
    ensures LowMark(s) == low
  {
    if low < s.nextSequence {
      var first: u64 := low;
      assert first in s.records;
    }
  }

  lemma AckGrows(v: View, v': View, store: State, store': State, c: string)
    requires Grows(v, v') && AckOk(v, store, c) && v'.start == v.start
    requires c in store.acks <==> c in store'.acks
    requires c in store.acks ==> store'.acks[c] == store.acks[c]
    requires LowMark(store) <= LowMark(store')
    requires c in store.acks && LowMark(store) < LowMark(store') ==> LowMark(store') <= store.acks[c] + 1
    ensures AckOk(v', store', c)
  {
    if c in store.acks { CoveredGrows(v, v', store.acks[c]); }
  }

  lemma EnqueueKeeps(w: World, w': World, f: Frame)
    requires Inv(w) && EnqueueStep(w, w', f)
    ensures Inv(w')
  {
    hide PeerOk, AckOk, LowMark, Seen, Covered;
    EnqueueKeepsDenseIff(w.store, f, LowMark(w.store));
    LowMarkIs(w'.store, LowMark(w.store));
    forall c | c in w'.peers ensures PeerInv(w', c) {
      assert PeerInv(w, c);
      SameSeen(w, w', c);
      PeerGrows(ViewOf(w, c), ViewOf(w', c), w.peers[c], w.peers[c]);
      AckGrows(ViewOf(w, c), ViewOf(w', c), w.store, w'.store, c);
    }
  }

  /** A peer's view when only the store and the log have moved. */
  lemma SameSeen(w: World, w': World, c: string)
    requires c in w.peers && c in w'.peers && w'.peers[c] == w.peers[c] && PeerOk(ViewOf(w, c), w.peers[c])
    requires w.store.nextSequence <= w'.store.nextSequence
    requires forall k :: k in w.log ==> k in w'.log && w'.log[k] == w.log[k]
    requires c in w.store.acks <==> c in w'.store.acks
    ensures Grows(ViewOf(w, c), ViewOf(w', c))
    ensures ViewOf(w', c).seen == ViewOf(w, c).seen && ViewOf(w', c).start == w.peers[c].start
    ensures !ViewOf(w', c).registered ==> w.peers[c].start == 0
  {}

  lemma CompactKeeps(w: World, w': World)
    requires Inv(w) && CompactStep(w, w')
    ensures Inv(w')
  {
    hide PeerOk, AckOk, LowMark, Seen, Covered;
    CompactKeepsDense(w.store, LowMark(w.store));
    LowMarkIs(w'.store, CompactedLow(w.store, LowMark(w.store)));
    forall c | c in w'.peers ensures PeerInv(w', c) {
      assert PeerInv(w, c);
      SameSeen(w, w', c);
      PeerGrows(ViewOf(w, c), ViewOf(w', c), w.peers[c], w.peers[c]);
      if c in w.store.acks { assert w.store.acks[c] in w.store.acks.Values; }
      AckGrows(ViewOf(w, c), ViewOf(w', c), w.store, w'.store, c);
    }
  }

  lemma StrangerKeeps(w: World, w': World, stranger: string, x: u64)
    requires Inv(w) && StrangerStep(w, w', stranger, x)
    ensures Inv(w')
  {
    hide PeerOk, AckOk, Seen, Covered;
    assert w'.store.records == w.store.records && w'.store.nextSequence == w.store.nextSequence;
    assert LowMark(w'.store) == LowMark(w.store);
    hide LowMark;
    forall c | c in w'.peers ensures PeerInv(w', c) {
      assert PeerInv(w, c);
      SameSeen(w, w', c);
      PeerGrows(ViewOf(w, c), ViewOf(w', c), w.peers[c], w.peers[c]);
      AckGrows(ViewOf(w, c), ViewOf(w', c), w.store, w'.store, c);
    }
  }

  // ---- Steps of one peer ----

  /** A step that touches one peer and no table keeps everything if it keeps that peer in order. */
  lemma PeerStepKeeps(w: World, c: string, p': Peer)
    requires Inv(w) && c in w.peers
    requires p'.start == w.peers[c].start && Seen(w.peers[c].handed) <= Seen(p'.handed)
    requires c !in w.store.acks ==> Seen(w.peers[c].handed) == {}
    requires PeerOk(ViewOf(WithPeer(w, c, p'), c), p')
    ensures Inv(WithPeer(w, c, p'))
  {
    hide PeerOk, AckOk, LowMark, Seen, Covered, Dense, LogOk;
    var w' := WithPeer(w, c, p');
    forall d | d in w'.peers ensures PeerInv(w', d) {
      assert PeerInv(w, d);
      if d == c {
        AckGrows(ViewOf(w, c), ViewOf(w', c), w.store, w.store, c);
      } else {
        assert ViewOf(w', d) == ViewOf(w, d);
      }
    }
  }

  lemma UnregisteredSeesNothing(w: World, c: string)
    requires c in w.peers && PeerOk(ViewOf(w, c), w.peers[c]) && c !in w.store.acks
    ensures Seen(w.peers[c].handed) == {}
  {}

  /** Rearranging sessions, and forgetting acks, keeps a peer in order. */
  lemma PeerRearranged(v: View, p: Peer, p': Peer)
    requires PeerOk(v, p) && p'.start == p.start && p'.handed == p.handed
    requires Covered(v, p'.lastAck)
    requires forall i :: 0 <= i < |p'.sessions| ==> SessionOk(v, p'.sessions[i])
    requires forall i :: 0 <= i < |p'.posted| ==> MessageOk(v, p'.posted[i])
    ensures PeerOk(v, p')
  {
    hide Covered, SessionOk, MessageOk, LoggedAt;
  }

  lemma CoveredZero(v: View)
    requires 0 < v.next
    ensures Covered(v, 0)
  {}

  lemma NewSessionOk(v: View)
    ensures SessionOk(v, Session(false, [Hello], []))
  {}

  lemma LinkKeeps(w: World, w': World, c: string)
    requires Inv(w) && LinkStep(w, w', c)
    ensures Inv(w')
  {
    hide AckOk, LowMark, Seen, Covered, SessionOk, MessageOk, HandedOk, LogOk;
    assert PeerInv(w, c);
    var v, p, p' := ViewOf(w, c), w.peers[c], w'.peers[c];
    NewSessionOk(v);
    CoveredZero(v);
    PeerRearranged(v, p, p');
    if c !in w.store.acks { UnregisteredSeesNothing(w, c); }
    assert ViewOf(w', c) == v;
    PeerStepKeeps(w, c, p');
  }

  lemma LostSessionOk(v: View, s: Session, k: nat)
    requires SessionOk(v, s) && k <= |s.toServer|
    ensures SessionOk(v, s.(toServer := s.toServer[..k], toClient := []))
  {}

  lemma LoseKeeps(w: World, w': World, c: string, i: nat, k: nat)
    requires Inv(w) && LoseStep(w, w', c, i, k)
    ensures Inv(w')
  {
    hide AckOk, LowMark, Seen, Covered, SessionOk, MessageOk, HandedOk, LogOk;
    assert PeerInv(w, c);
    var v, p, p' := ViewOf(w, c), w.peers[c], w'.peers[c];
    LostSessionOk(v, p.sessions[i], k);
    PeerRearranged(v, p, p');
    if c !in w.store.acks { UnregisteredSeesNothing(w, c); }
    assert ViewOf(w', c) == v;
    PeerStepKeeps(w, c, p');
  }

  lemma PostKeeps(w: World, w': World, c: string, operation: Operation, acks: bool, batch: u32)
    requires Inv(w) && PostStep(w, w', c, operation, acks, batch)
    ensures Inv(w')
  {
    hide AckOk, LowMark, Seen, Covered, SessionOk, HandedOk, LogOk;
    assert PeerInv(w, c);
    var v, p, p' := ViewOf(w, c), w.peers[c], w'.peers[c];
    CoveredZero(v);
    PeerRearranged(v, p, p');
    if c !in w.store.acks { UnregisteredSeesNothing(w, c); }
    assert ViewOf(w', c) == v;
    PeerStepKeeps(w, c, p');
  }

  lemma SentSessionOk(v: View, s: Session, ms: seq<ToServer>)
    requires SessionOk(v, s) && forall i :: 0 <= i < |ms| ==> MessageOk(v, ms[i])
    ensures SessionOk(v, s.(toServer := s.toServer + ms))
  {
    hide MessageOk, ReplyOk;
  }

  lemma FlushKeeps(w: World, w': World, c: string)
    requires Inv(w) && FlushStep(w, w', c)
    ensures Inv(w')
  {
    hide AckOk, LowMark, Seen, Covered, SessionOk, MessageOk, HandedOk, LogOk;
    assert PeerInv(w, c);
    var v, p, p' := ViewOf(w, c), w.peers[c], w'.peers[c];
    if p.current.Some? && p.current.value < |p.sessions| {
      SentSessionOk(v, p.sessions[p.current.value], [p.posted[0]]);
    }
    PeerRearranged(v, p, p');
    if c !in w.store.acks { UnregisteredSeesNothing(w, c); }
    assert ViewOf(w', c) == v;
    PeerStepKeeps(w, c, p');
  }

  // ---- The client takes a result ----

  lemma SeenAppends(handed: seq<TransportRecord>, records: seq<TransportRecord>)
    ensures Seen(handed + records) == Seen(handed) + Seen(records)
  {
    assert forall r :: r in handed + records <==> r in handed || r in records;
  }

  /** After a batch, everything up to its last record is covered. */
  lemma BatchCovers(v: View, records: seq<TransportRecord>, i: nat)
    requires BatchOk(v, records) && i < |records| && forall k :: k in v.log ==> k < v.next
    ensures Covered(v.(seen := v.seen + Seen(records)), records[i].sequence)
  {
    var v', first := v.(seen := v.seen + Seen(records)), records[0].sequence;
    assert LoggedAt(v, records[i]);
    forall s: u64 | v.start < s <= records[i].sequence ensures s in v'.seen {
      if s >= first {
        assert records[s - first] in records && records[s - first].sequence == s;
      }
    }
  }

  lemma TakenOk(v: View, p: Peer, i: nat)
    requires PeerOk(v, p) && i < |p.sessions| && p.sessions[i].toClient != []
    requires forall k :: k in v.log ==> k < v.next
    ensures var p' := Taken(p, i); PeerOk(v.(seen := Seen(p'.handed)), p')
  {
    hide Covered, LoggedAt, Seen;
    var s, m := p.sessions[i], p.sessions[i].toClient[0];
    var p' := Taken(p, i);
    assert SessionOk(v, s) && ReplyOk(v, m);
    PoppedSessionOk(v, s);
    if m.HelloAck? {
      hide SessionOk, MessageOk;
      PeerRearranged(v, p, p');
    } else {
      hide SessionOk, MessageOk, ReplyOk;
      SeenAppends(p.handed, m.records);
      var v' := v.(seen := Seen(p'.handed));
      BatchTaken(v, v', p, m.records);
      forall j | 0 <= j < |p.sessions| ensures SessionOk(v', p.sessions[j]) { SessionGrows(v, v', p.sessions[j]); }
      forall j | 0 <= j < |p.posted| ensures MessageOk(v', p.posted[j]) { MessageGrows(v, v', p.posted[j]); }
      var rest := s.(toClient := s.toClient[1..]);
      SessionGrows(v, v', rest);
      SentSessionOk(v', rest, AcksFor(p.lastAck, m.records));
    }
  }

  lemma PoppedSessionOk(v: View, s: Session)
    requires SessionOk(v, s) && s.toClient != []
    ensures SessionOk(v, s.(toClient := s.toClient[1..]))
  {
    hide MessageOk, ReplyOk;
  }

  lemma BatchTaken(v: View, v': View, p: Peer, records: seq<TransportRecord>)
    requires PeerOk(v, p) && BatchOk(v, records) && v' == v.(seen := v.seen + Seen(records))
    requires forall k :: k in v.log ==> k < v.next
    ensures Grows(v, v')
    ensures !v.registered ==> p.handed + records == []
    ensures Covered(v', MaxSequence(p.lastAck, records))
    ensures HandedOk(v', p.handed + records)
    ensures forall i :: 0 <= i < |AcksFor(p.lastAck, records)| ==> MessageOk(v', AcksFor(p.lastAck, records)[i])
  {
    assert Grows(v, v') by { if !v.registered { assert records == [] && Seen(records) == {}; } }
    hide Covered, LoggedAt, Seen, SessionOk, Grows;
    forall i | 0 <= i < |records| ensures LoggedAt(v', records[i]) && Covered(v', records[i].sequence) {
      BatchCovers(v, records, i);
      LoggedGrows(v, v', records[i]);
    }
    forall i | 0 <= i < |p.handed| ensures LoggedAt(v', p.handed[i]) && Covered(v', p.handed[i].sequence) {
      CoveredGrows(v, v', p.handed[i].sequence);
      HandedMeansSeen(v, p, i);
      LoggedGrows(v, v', p.handed[i]);
    }
    CoveredGrows(v, v', p.lastAck);
  }

  lemma TakeKeeps(w: World, w': World, c: string)
    requires Inv(w) && TakeStep(w, w', c)
    ensures Inv(w')
  {
    hide AckOk, LowMark, Seen, Covered, PeerOk;
    assert PeerInv(w, c);
    var v, p, i := ViewOf(w, c), w.peers[c], w.peers[c].current.value;
    TakenOk(v, p, i);
    var p' := Taken(p, i);
    assert ViewOf(w', c) == v.(seen := Seen(p'.handed)) && p'.start == p.start;
    TakenSees(p, i);
    if c !in w.store.acks { UnregisteredSeesNothing(w, c); }
    PeerStepKeeps(w, c, p');
  }

  lemma TakenSees(p: Peer, i: nat)
    requires i < |p.sessions| && p.sessions[i].toClient != []
    ensures Seen(p.handed) <= Seen(Taken(p, i).handed)
  {
    var m := p.sessions[i].toClient[0];
    if m.CrudResult? { SeenAppends(p.handed, m.records); }
  }

  // ---- The server takes a message ----

  /** Only the acks of one consumer change. */
  ghost predicate OnlyAcksOf(store: State, store': State, c: string) {
    && store'.records == store.records && store'.nextSequence == store.nextSequence
    && forall d :: d != c ==> (d in store.acks <==> d in store'.acks) && (d in store.acks ==> store'.acks[d] == store.acks[d])
  }

  lemma ServerStepKeeps(w: World, w': World, c: string)
    requires Inv(w) && c in w.peers && c in w'.peers && w' == World(w'.store, w.log, w.peers[c := w'.peers[c]])
    requires OnlyAcksOf(w.store, w'.store, c)
    requires PeerInv(w', c)
    ensures Inv(w')
  {
    assert LowMark(w'.store) == LowMark(w.store);
    hide PeerOk, LowMark, Seen, Covered;
    forall d | d in w'.peers ensures PeerInv(w', d) {
      if d != c {
        assert PeerInv(w, d);
        assert ViewOf(w', d) == ViewOf(w, d);
      }
    }
  }

  lemma ServedSessionOk(v: View, s: Session, replies: seq<ToClient>)
    requires SessionOk(v, s) && s.toServer != [] && (s.toServer[0].Hello? ==> v.registered)
    requires forall i :: 0 <= i < |replies| ==> ReplyOk(v, replies[i])
    ensures SessionOk(v, Session(s.helloAccepted || s.toServer[0].Hello?, s.toServer[1..], s.toClient + replies))
  {
    hide MessageOk, ReplyOk;
  }

  lemma ServedOk(v: View, p: Peer, i: nat, replies: seq<ToClient>)
    requires PeerOk(v, p) && i < |p.sessions| && p.sessions[i].toServer != []
    requires p.sessions[i].toServer[0].Hello? ==> v.registered
    requires forall j :: 0 <= j < |replies| ==> ReplyOk(v, replies[j])
    ensures PeerOk(v, Served(p, i, replies))
  {
    hide Covered, SessionOk, MessageOk, ReplyOk, Seen, HandedOk;
    ServedSessionOk(v, p.sessions[i], replies);
    PeerRearranged(v, p, Served(p, i, replies));
  }

  /** A first hello registers the consumer at the present low mark. */
  lemma FirstHelloKeeps(w: World, w': World, c: string, i: nat, replies: seq<ToClient>, default: nat)
    requires Inv(w) && ServeStep(w, w', c, i, replies, default)
    requires w.peers[c].sessions[i].toServer[0].Hello? && c !in w.store.acks
    ensures Inv(w')
  {
    assert PeerInv(w, c);
    UnregisteredSeesNothing(w, c);
    assert LowMark(w'.store) == LowMark(w.store);
    var v, v', p := ViewOf(w, c), ViewOf(w', c), w.peers[c];
    hide Covered, SessionOk, MessageOk, Seen, HandedOk, LowMark, LogOk;
    var p1 := p.(start := CompactedBefore(w.store));
    assert v' == v.(registered := true, start := p1.start);
    PeerGrows(v, v', p, p1);
    ServedOk(v', p1, i, replies);
    CoveredZero(v');
    ServerStepKeeps(w, w', c);
  }

  lemma FetchedLogged(v: View, store: State, sequence: u64)
    requires sequence in store.records && LogOk(store, v.log) && v.start < sequence && 1 <= sequence < store.nextSequence
    ensures LoggedAt(v, Sealed(store.records, sequence))
  {}

  /** A fetch in a store whose ack is covered is a good batch. */
  lemma FetchBatchOk(v: View, store: State, c: string, n: nat)
    requires Dense(store, LowMark(store)) && LogOk(store, v.log) && c in store.acks
    requires v.registered && v.next == store.nextSequence && AckOk(v, store, c)
    ensures BatchOk(v, Fetch(store, c, n))
  {
    hide Visit, LowMark, LogOk;
    var records, low, ack := Fetch(store, c, n), LowMark(store), store.acks[c];
    FetchIsInterval(store, low, c, n);
    var start := Max(low, ack as nat + 1);
    if records != [] {
      assert records[0].sequence == start;
      assert Covered(v, start - 1);
      forall i | 0 <= i < |records| ensures records[i].sequence == start + i && LoggedAt(v, records[i]) {
        assert FetchSequences(store, c, n)[i] == start + i;
        FetchedLogged(v, store, records[i].sequence);
      }
    }
  }

  lemma CarriedAckOk(v: View, store: State, c: string, m: ToServer)
    requires AckOk(v, store, c) && c in store.acks && !m.Hello? && MessageOk(v, m) && c != ""
    ensures AckOk(v, AckCarried(store, c, m.ackSequence), c) && c in AckCarried(store, c, m.ackSequence).acks
    ensures OnlyAcksOf(store, AckCarried(store, c, m.ackSequence), c)
  {
    var store' := AckCarried(store, c, m.ackSequence);
    assert LowMark(store') == LowMark(store);
  }

  lemma MessageServedKeeps(w: World, w': World, c: string, i: nat, replies: seq<ToClient>, default: nat)
    requires Inv(w) && ServeStep(w, w', c, i, replies, default)
    requires !w.peers[c].sessions[i].toServer[0].Hello? && w.peers[c].sessions[i].helloAccepted
    ensures Inv(w')
  {
    assert PeerInv(w, c);
    var v, p, m := ViewOf(w, c), w.peers[c], w.peers[c].sessions[i].toServer[0];
    assert SessionOk(v, p.sessions[i]) && MessageOk(v, m);
    CarriedAckOk(v, w.store, c, m);
    assert LowMark(w'.store) == LowMark(w.store);
    hide Covered, SessionOk, MessageOk, Seen, HandedOk, LowMark;
    forall n ensures BatchOk(v, Fetch(w'.store, c, n)) { FetchBatchOk(v, w'.store, c, n); }
    hide BatchOk, Fetch, LogOk;
    EmptyBatchOk(v);
    ServedOk(v, p, i, replies);
    assert ViewOf(w', c) == v;
    ServerStepKeeps(w, w', c);
  }

  lemma EmptyBatchOk(v: View)
    ensures BatchOk(v, [])
  {}

  lemma ServeKeeps(w: World, w': World, c: string, i: nat, replies: seq<ToClient>, default: nat)
    requires Inv(w) && ServeStep(w, w', c, i, replies, default)
    ensures Inv(w')
  {
    assert PeerInv(w, c);
    var v, p, s := ViewOf(w, c), w.peers[c], w.peers[c].sessions[i];
    hide Covered, MessageOk, Seen, HandedOk, LowMark, LogOk;
    if s.toServer[0].Hello? && c !in w.store.acks {
      FirstHelloKeeps(w, w', c, i, replies, default);
    } else if !s.toServer[0].Hello? && s.helloAccepted {
      MessageServedKeeps(w, w', c, i, replies, default);
    } else {
      assert w'.store == w.store;
      ServedOk(v, p, i, replies);
      assert ViewOf(w', c) == v;
      ServerStepKeeps(w, w', c);
    }
  }

  // ---- Every run ----

  lemma InitialInv(w: World)
    requires Initial(w)
    ensures Inv(w)
  {}

  lemma StepKeeps(w: World, w': World)
    requires Inv(w) && Step(w, w')
    ensures Inv(w')
  {
    hide Inv, EnqueueStep, CompactStep, StrangerStep, LinkStep, FlushStep, TakeStep, LoseStep, PostStep, ServeStep;
    if f :| EnqueueStep(w, w', f) {
      EnqueueKeeps(w, w', f);
    } else if CompactStep(w, w') {
      CompactKeeps(w, w');
    } else if c, x :| StrangerStep(w, w', c, x) {
      StrangerKeeps(w, w', c, x);
    } else if c :| LinkStep(w, w', c) {
      LinkKeeps(w, w', c);
    } else if c :| FlushStep(w, w', c) {
      FlushKeeps(w, w', c);
    } else if c :| TakeStep(w, w', c) {
      TakeKeeps(w, w', c);
    } else if c, i, k :| LoseStep(w, w', c, i, k) {
      LoseKeeps(w, w', c, i, k);
    } else if c, operation, acks, batch :| PostStep(w, w', c, operation, acks, batch) {
      PostKeeps(w, w', c, operation, acks, batch);
    } else {
      var c, i, replies, default :| ServeStep(w, w', c, i, replies, default);
      ServeKeeps(w, w', c, i, replies, default);
    }
  }

  lemma {:induction false} RunKeeps(ws: seq<World>)
    requires Run(ws) && Inv(ws[0])
    ensures forall i :: 0 <= i < |ws| ==> Inv(ws[i])
  {
    hide Inv, Step;
    var n := |ws| - 1;
    if n > 0 {
      RunKeeps(ws[..n]);
      assert Step(ws[n - 1], ws[n - 1 + 1]);
      StepKeeps(ws[n - 1], ws[n]);
      forall i | 0 <= i < |ws| ensures Inv(ws[i]) { if i < n { assert ws[..n][i] == ws[i]; } }
    }
  }

  /** Main result: in every run, every sequence from a consumer's registration up to its stored ack
      has been handed to that client's callback, exactly as it was enqueued. */
  lemma AckedWasHanded(ws: seq<World>, c: string, sequence: u64)
    requires Run(ws) && Initial(ws[0])
    requires var w := ws[|ws| - 1]; c in w.peers && c in w.store.acks && w.peers[c].start < sequence <= w.store.acks[c]
    ensures var w := ws[|ws| - 1]; sequence in w.log && Sealed(w.log, sequence) in w.peers[c].handed
  {
    InitialInv(ws[0]);
    RunKeeps(ws);
    var w := ws[|ws| - 1];
    assert PeerInv(w, c);
    HandedAsLogged(w, c, sequence);
  }

  lemma HandedAsLogged(w: World, c: string, sequence: u64)
    requires c in w.peers && PeerInv(w, c) && sequence in Seen(w.peers[c].handed)
    ensures sequence in w.log && Sealed(w.log, sequence) in w.peers[c].handed
  {
    var r :| r in w.peers[c].handed && r.sequence == sequence;
    var i :| 0 <= i < |w.peers[c].handed| && w.peers[c].handed[i] == r;
    assert LoggedAt(ViewOf(w, c), w.peers[c].handed[i]);
  }

  /** Main result: the callback never sees a hole. Below any record it has been handed, every
      sequence since the registration was handed to it as well. */
  lemma NoHoles(ws: seq<World>, c: string, i: nat, sequence: u64)
    requires Run(ws) && Initial(ws[0])
    requires var w := ws[|ws| - 1];
      c in w.peers && i < |w.peers[c].handed| && w.peers[c].start < sequence <= w.peers[c].handed[i].sequence
    ensures var w := ws[|ws| - 1]; sequence in w.log && Sealed(w.log, sequence) in w.peers[c].handed
  {
    InitialInv(ws[0]);
    RunKeeps(ws);
    var w := ws[|ws| - 1];
    assert PeerInv(w, c);
    assert Covered(ViewOf(w, c), w.peers[c].handed[i].sequence);
    HandedAsLogged(w, c, sequence);
  }

  /** Main result: nothing is lost. Every sequence enqueued since a consumer's registration was
      handed to its callback or is still stored, above the ack and in reach of its next fetch. */
  lemma NothingIsLost(ws: seq<World>, c: string, sequence: u64)
    requires Run(ws) && Initial(ws[0])
    requires var w := ws[|ws| - 1];
      c in w.peers && c in w.store.acks && w.peers[c].start < sequence < w.store.nextSequence
    ensures var w := ws[|ws| - 1];
      && sequence in w.log
      && (Sealed(w.log, sequence) in w.peers[c].handed
          || (sequence in w.store.records && w.store.records[sequence] == w.log[sequence] && w.store.acks[c] < sequence))
  {
    InitialInv(ws[0]);
    RunKeeps(ws);
    var w := ws[|ws| - 1];
    assert PeerInv(w, c);
    if sequence <= w.store.acks[c] { HandedAsLogged(w, c, sequence); }
  }
}
