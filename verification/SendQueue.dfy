/** The bounded outbound queue of a frontend session and its three backpressure policies. */
module SendQueue {

  datatype Policy = DropNewest | DropOldest | Disconnect

  datatype Options = Options(maxMessages: nat, maxBytes: nat, policy: Policy)

  /** The queue and the byte count of the program; then, as history, the writes under way, every
      frame a write was started for, and every frame that was let into the queue. */
  datatype State = State(
    queue: seq<string>, pendingBytes: nat, writing: nat, started: seq<string>, accepted: seq<string>, failed: bool)

  const EMPTY := State([], 0, 0, [], [], false)

  function Bytes(frames: seq<string>): nat {
    if frames == [] then 0 else |frames[0]| + Bytes(frames[1..])
  }

  predicate OverLimit(o: Options, s: State, size: nat) {
    |s.queue| >= o.maxMessages || s.pendingBytes + size > o.maxBytes
  }

  /** A write of the front of the queue is started. */
  function DoWrite(s: State): State {
    if s.queue == [] then s
    else s.(writing := s.writing + 1, started := s.started + [s.queue[0]])
  }

  function Push(s: State, frame: string): State {
    var pushed := s.(queue := s.queue + [frame], pendingBytes := s.pendingBytes + |frame|, accepted := s.accepted + [frame]);
    if s.queue == [] then DoWrite(pushed) else pushed
  }

  function PopFront(s: State): State
    requires s.queue != [] && s.pendingBytes >= |s.queue[0]|
  {
    s.(queue := s.queue[1..], pendingBytes := s.pendingBytes - |s.queue[0]|)
  }

  /** The front goes until the frame fits or nothing is left. */
  function Shed(o: Options, s: State, size: nat): State
    requires s.pendingBytes == Bytes(s.queue)
    decreases |s.queue|
  {
    if OverLimit(o, s, size) && s.queue != [] then Shed(o, PopFront(s), size) else s
  }

  function Send(o: Options, s: State, frame: string): State
    requires s.pendingBytes == Bytes(s.queue)
  {
    if !OverLimit(o, s, |frame|) then Push(s, frame)
    else if o.policy != DropOldest then s
    else
      var shed := Shed(o, s, |frame|);
      if OverLimit(o, shed, |frame|) then shed else Push(shed, frame)
  }

  /** A write completes; after an error nothing more is written. */
  function OnWrite(s: State, error: bool): State
    requires s.pendingBytes == Bytes(s.queue) && s.writing > 0
  {
    var done := s.(writing := s.writing - 1);
    if error then done.(failed := true)
    else if s.queue == [] then done
    else DoWrite(PopFront(done))
  }

  // ---- The session ----

  class WebsocketSession {
    const options: Options
    var writeQueue: seq<string>
    var pendingBytes: nat
    ghost var writing: nat
    ghost var started: seq<string>
    ghost var accepted: seq<string>
    ghost var failed: bool

    ghost function Value(): State
      reads this
    {
      State(writeQueue, pendingBytes, writing, started, accepted, failed)
    }

    ghost predicate Valid()
      reads this
    {
      Bounded(options, Value())
    }

    constructor (options: Options)
      ensures this.options == options && Value() == EMPTY && Valid()
    {
      this.options := options;
      writeQueue, pendingBytes := [], 0;
      writing, started, accepted, failed := 0, [], [], false;
    }

    method SendFrame(payload: string)
      requires Valid()
      modifies this
      ensures Valid() && Value() == Send(options, old(Value()), payload)
    {
      SendKeepsBounds(options, Value(), payload);
      var size := |payload|;
      if |writeQueue| >= options.maxMessages || pendingBytes + size > options.maxBytes {
        if options.policy == DropNewest {
          return;
        }
        if options.policy == Disconnect {
          return;
        }
        while (|writeQueue| >= options.maxMessages || pendingBytes + size > options.maxBytes) && writeQueue != []
          invariant pendingBytes == Bytes(writeQueue)
          invariant Shed(options, Value(), size) == Shed(options, old(Value()), size)
          decreases |writeQueue|
        {
          pendingBytes := pendingBytes - |writeQueue[0]|;
          writeQueue := writeQueue[1..];
        }
        if |writeQueue| >= options.maxMessages || pendingBytes + size > options.maxBytes {
          return;
        }
      }
      var idle := writeQueue == [];
      pendingBytes := pendingBytes + size;
      writeQueue := writeQueue + [payload];
      accepted := accepted + [payload];
      if idle {
        StartWrite();
      }
    }

    /** `do_write` hands the front of the queue to the socket. */
    method StartWrite()
      modifies this`writing, this`started
      ensures Value() == DoWrite(old(Value()))
    {
      if writeQueue != [] {
        writing := writing + 1;
        started := started + [writeQueue[0]];
      }
    }

    method WriteCompleted(error: bool)
      requires Valid() && writing > 0
      modifies this
      ensures Valid() && Value() == OnWrite(old(Value()), error)
    {
      OnWriteKeepsBounds(options, Value(), error);
      writing := writing - 1;
      if error {
        failed := true;
        return;
      }
      if writeQueue != [] {
        pendingBytes := pendingBytes - |writeQueue[0]|;
        writeQueue := writeQueue[1..];
        if writeQueue != [] {
          StartWrite();
        }
      }
    }
  }

  // ---- Bounds, under every policy ----

  /** The byte count is the sum of the queued frames, and neither limit is exceeded. */
  ghost predicate Bounded(o: Options, s: State) {
    s.pendingBytes == Bytes(s.queue) && |s.queue| <= o.maxMessages && s.pendingBytes <= o.maxBytes
  }

  lemma {:induction false} BytesAppend(frames: seq<string>, frame: string)
    ensures Bytes(frames + [frame]) == Bytes(frames) + |frame|
  {
    if frames == [] {
      assert [frame][1..] == [] && frames + [frame] == [frame];
    } else {
      BytesAppend(frames[1..], frame);
      assert (frames + [frame])[1..] == frames[1..] + [frame];
    }
  }

  lemma {:induction false} ShedKeepsBounds(o: Options, s: State, size: nat)
    requires Bounded(o, s)
    ensures Bounded(o, Shed(o, s, size))
    decreases |s.queue|
  {
    if OverLimit(o, s, size) && s.queue != [] { ShedKeepsBounds(o, PopFront(s), size); }
  }

  lemma SendKeepsBounds(o: Options, s: State, frame: string)
    requires Bounded(o, s)
    ensures Bounded(o, Send(o, s, frame))
  {
    BytesAppend(s.queue, frame);
    ShedKeepsBounds(o, s, |frame|);
    BytesAppend(Shed(o, s, |frame|).queue, frame);
  }

  lemma OnWriteKeepsBounds(o: Options, s: State, error: bool)
    requires Bounded(o, s) && s.writing > 0
    ensures Bounded(o, OnWrite(s, error))
  {}

  // ---- Order ----

  /** One step of a session: a frame is sent, or a write under way completes. */
  ghost predicate Step(o: Options, s: State, s': State)
    requires s.pendingBytes == Bytes(s.queue)
  {
    || (exists frame :: s' == Send(o, s, frame))
    || (exists error :: s.writing > 0 && s' == OnWrite(s, error))
  }

  /** The frames that a write was started for are the first that were let in, in that order; the
      queue holds the rest, with the one under way in front; at most one is under way. */
  ghost predicate Ordered(s: State) {
    && s.writing <= 1
    && s.started <= s.accepted
    && (!s.failed ==> (s.queue != [] <==> s.writing == 1))
    && (s.failed ==> s.writing == 0)
    && (s.writing == 1 || s.failed ==> s.queue != [] && s.started != [] && s.accepted == s.started[..|s.started| - 1] + s.queue)
    && (s.writing == 0 && !s.failed ==> s.accepted == s.started)
  }

  lemma SendKeepsOrder(o: Options, s: State, frame: string)
    requires o.policy != DropOldest && Bounded(o, s) && Ordered(s)
    ensures Ordered(Send(o, s, frame))
  {
    var s' := Send(o, s, frame);
    if s' != s && s.queue != [] {
      assert s'.accepted == s'.started[..|s'.started| - 1] + s'.queue;
    }
    if s' != s && s.queue == [] {
      assert s'.started[..|s'.started| - 1] == s.started;
    }
  }

  lemma OnWriteKeepsOrder(s: State, error: bool)
    requires s.pendingBytes == Bytes(s.queue) && s.writing > 0 && Ordered(s)
    ensures Ordered(OnWrite(s, error))
  {
    var s' := OnWrite(s, error);
    var n := |s.started| - 1;
    assert s.accepted[n] == s.queue[0] && s.started[n] == s.accepted[n];
    assert s.started == s.started[..n] + [s.queue[0]];
    assert s.queue == [s.queue[0]] + s.queue[1..];
    if !error {
      assert s.accepted == s.started + s.queue[1..];
      if s.queue[1..] != [] {
        assert s'.started[..|s'.started| - 1] == s.started;
      }
    }
  }

  ghost predicate Run(o: Options, states: seq<State>) {
    && states != [] && states[0] == EMPTY
    && forall i :: 0 <= i < |states| - 1 ==> states[i].pendingBytes == Bytes(states[i].queue) && Step(o, states[i], states[i + 1])
  }

  /** Main result: over every run and under every policy the byte count is exact and the limits hold;
      when nothing that is queued is ever dropped, at most one write is under way and the frames
      leave in the order in which they were let in. */
  lemma {:induction false} EveryRun(o: Options, states: seq<State>)
    requires Run(o, states)
    ensures Bounded(o, states[|states| - 1])
    ensures o.policy != DropOldest ==> Ordered(states[|states| - 1])
  {
    hide Bounded, Ordered, Send, OnWrite;
    var n := |states| - 1;
    if n == 0 {
      EmptyIsFine(o);
    } else {
      EveryRun(o, states[..n]);
      var s, s' := states[n - 1], states[n];
      assert Step(o, states[n - 1], states[n - 1 + 1]);
      if error: bool :| s.writing > 0 && s' == OnWrite(s, error) {
        OnWriteKeepsBounds(o, s, error);
        if o.policy != DropOldest { OnWriteKeepsOrder(s, error); }
      } else {
        var frame :| s' == Send(o, s, frame);
        SendKeepsBounds(o, s, frame);
        if o.policy != DropOldest { SendKeepsOrder(o, s, frame); }
      }
    }
  }

  lemma EmptyIsFine(o: Options)
    ensures Bounded(o, EMPTY) && Ordered(EMPTY)
  {}

  // ---- Which options keep the order ----

  /** A frame goes out, one that can never fit sheds it from the queue, and another frame goes out. */
  function Overlapping(o: Options, frame: string, big: string): seq<State>
    requires |frame| <= o.maxBytes < |big|
  {
    var s1 := Send(o, EMPTY, frame);
    SendKeepsBounds(o, EMPTY, frame);
    var s2 := Send(o, s1, big);
    SendKeepsBounds(o, s1, big);
    [EMPTY, s1, s2, Send(o, s2, frame)]
  }

  /** When the oldest frame is dropped, this may be the frame whose write is under way: with any
      limits that admit the frame at all, two writes then overlap. */
  lemma DropOldestOverlaps(o: Options, frame: string, big: string)
    requires o.policy == DropOldest && o.maxMessages >= 1 && |frame| <= o.maxBytes < |big|
    ensures Run(o, Overlapping(o, frame, big)) && Overlapping(o, frame, big)[3].writing == 2
  {
    hide Shed;
    var states := Overlapping(o, frame, big);
    PushAlone(o, EMPTY, frame);
    ShedAlone(o, states[1], big);
    PushAlone(o, states[2], frame);
    forall i | 0 <= i < 3
      ensures states[i].pendingBytes == Bytes(states[i].queue) && Step(o, states[i], states[i + 1])
    {
      if i == 1 { assert states[2] == Send(o, states[1], big); } else { assert states[i + 1] == Send(o, states[i], frame); }
    }
  }

  lemma PushAlone(o: Options, s: State, frame: string)
    requires s.queue == [] && s.pendingBytes == 0 && o.maxMessages >= 1 && |frame| <= o.maxBytes
    ensures var s' := Send(o, s, frame);
      s'.queue == [frame] && s'.pendingBytes == |frame| == Bytes([frame]) && s'.writing == s.writing + 1
  {
    BytesAppend([], frame);
    assert [] + [frame] == [frame];
  }

  lemma ShedAlone(o: Options, s: State, big: string)
    requires o.policy == DropOldest && |s.queue| == 1 && s.pendingBytes == Bytes(s.queue) && |big| > o.maxBytes
    ensures Send(o, s, big) == s.(queue := [], pendingBytes := 0)
  {
    assert s.queue[1..] == [];
    assert Shed(o, PopFront(s), |big|) == PopFront(s);
  }

  /** A queue without room stays as it was at the start. */
  lemma {:induction false} NoRoomNoWrite(o: Options, states: seq<State>)
    requires Run(o, states) && o.maxMessages == 0
    ensures states[|states| - 1] == EMPTY
  {
    var n := |states| - 1;
    if n > 0 {
      NoRoomNoWrite(o, states[..n]);
      assert Step(o, states[n - 1], states[n - 1 + 1]);
    }
  }

  /** Main result: a session has at most one write under way, and sends the frames in the order in
      which they were let in, in every run, exactly when its policy never drops what is queued or
      its queue has no room at all. */
  lemma OrderedIff(o: Options)
    ensures (forall states :: Run(o, states) ==> Ordered(states[|states| - 1]))
      <==> o.policy != DropOldest || o.maxMessages == 0
  {
    if o.policy != DropOldest {
      forall states | Run(o, states) ensures Ordered(states[|states| - 1]) { EveryRun(o, states); }
    } else if o.maxMessages == 0 {
      forall states | Run(o, states) ensures Ordered(states[|states| - 1]) {
        NoRoomNoWrite(o, states);
        EmptyIsFine(o);
      }
    } else {
      var big := seq(o.maxBytes + 1, _ => 'x');
      DropOldestOverlaps(o, "", big);
      var states := Overlapping(o, "", big);
      assert !Ordered(states[|states| - 1]);
    }
  }

  // ---- What a send does to the queue ----

  /** Dropping the first `k` frames makes room for one of the size. */
  ghost predicate RoomBehind(o: Options, queue: seq<string>, k: nat, size: nat) {
    k <= |queue| && |queue| - k < o.maxMessages && Bytes(queue[k..]) + size <= o.maxBytes
  }

  /** Main result: a frame goes behind the queue when both limits allow it. Otherwise, unless the
      oldest are to be dropped, nothing changes; and if they are, the fewest from the front go
      that make room, all of them in vain when there can be none. */
  lemma SendExactly(o: Options, s: State, frame: string)
    requires Bounded(o, s)
    ensures var queue, queue' := s.queue, Send(o, s, frame).queue;
      if |queue| < o.maxMessages && Bytes(queue) + |frame| <= o.maxBytes then queue' == queue + [frame]
      else if o.policy != DropOldest then Send(o, s, frame) == s
      else if o.maxMessages > 0 && |frame| <= o.maxBytes then
        exists k: nat :: RoomBehind(o, queue, k, |frame|) && (forall j: nat :: j < k ==> !RoomBehind(o, queue, j, |frame|))
          && queue' == queue[k..] + [frame]
      else queue' == []
  {
    if o.policy == DropOldest && OverLimit(o, s, |frame|) {
      var k := ShedFewest(o, s, |frame|);
      if o.maxMessages > 0 && |frame| <= o.maxBytes {
        assert s.queue[|s.queue|..] == [] && RoomBehind(o, s.queue, |s.queue|, |frame|);
      }
    } else {
      assert s.queue[0..] == s.queue;
    }
  }

  lemma {:induction false} ShedFewest(o: Options, s: State, size: nat) returns (k: nat)
    requires s.pendingBytes == Bytes(s.queue)
    ensures k <= |s.queue| && Shed(o, s, size).queue == s.queue[k..] && Shed(o, s, size).pendingBytes == Bytes(s.queue[k..])
    ensures forall j: nat :: j < k ==> !RoomBehind(o, s.queue, j, size)
    ensures k < |s.queue| ==> RoomBehind(o, s.queue, k, size)
    decreases |s.queue|
  {
    assert s.queue[0..] == s.queue;
    if OverLimit(o, s, size) && s.queue != [] {
      var rest := ShedFewest(o, PopFront(s), size);
      k := rest + 1;
      forall j: nat | j < k ensures !RoomBehind(o, s.queue, j, size) {
        if j > 0 { assert s.queue[1..][j - 1..] == s.queue[j..]; assert !RoomBehind(o, s.queue[1..], j - 1, size); }
      }
      assert s.queue[1..][rest..] == s.queue[k..];
      if rest < |s.queue[1..]| { assert RoomBehind(o, s.queue[1..], rest, size); }
    } else {
      k := 0;
    }
  }
}
