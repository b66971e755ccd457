/** The two ends of the bridge: the indexer's command processor acks and fetches, the gateway's
    client hands each result to its callback and acks the highest sequence it has seen. */
module Bridge {
  import opened Domain
  import opened Outbox
  import Backoff

  datatype Operation = Read | Create | Update | Delete

  datatype ToServer =
    | Hello
    | Command(operation: Operation, ackSequence: u64, outboxBatchSize: u32)
    | IngestAck(ackSequence: u64)

  datatype ToClient =
    | HelloAck
    | CrudResult(records: seq<TransportRecord>)

  // ---- The server ----

  function BatchSize(requested: u32, default: nat): nat {
    if requested != 0 then requested else if default == 0 then 1 else default
  }

  /** An ack of 0 acknowledges nothing. */
  function AckCarried(s: State, consumer: string, sequence: u64): State {
    if sequence == 0 then s else Ack(s, consumer, sequence)
  }

  /** A read command: the ack it carries first, then the fetch. */
  method ProcessRead(store: LmdbStore, consumer: string, ackSequence: u64, outboxBatchSize: u32, defaultBatchSize: nat)
    returns (code: StoreCode, records: seq<TransportRecord>)
    modifies store
    ensures store.Value() == AckCarried(old(store.Value()), consumer, ackSequence)
    ensures consumer != "" ==> code == Success
    ensures consumer != "" ==> records == Fetch(store.Value(), consumer, BatchSize(outboxBatchSize, defaultBatchSize))
  {
    records := [];
    var batch := if outboxBatchSize == 0 then (if 1 < defaultBatchSize then defaultBatchSize else 1) else outboxBatchSize;
    if ackSequence > 0 {
      code := store.AckTransportUntilForConsumer(consumer, ackSequence);
      if code != Success {
        return;
      }
    }
    code, records := store.FetchTransportBatchForConsumer(consumer, if 1 < batch then batch else 1);
  }

  // ---- The client ----

  /** The highest sequence of a result, or the client's own if that is higher. */
  function MaxSequence(from: u64, records: seq<TransportRecord>): (m: u64)
    ensures from <= m
    ensures forall i :: 0 <= i < |records| ==> records[i].sequence <= m
    ensures m == from || exists i :: 0 <= i < |records| && records[i].sequence == m
  {
    if records == [] then from
    else
      var m, last := MaxSequence(from, records[..|records| - 1]), records[|records| - 1].sequence;
      if m < last then last else m
  }

  class MuninnClient {
    const options: Backoff.Options
    var running: bool
    var handshakeComplete: bool
    var helloComplete: bool
    var reconnectAttempt: u32
    var lastAckSequence: u64
    var writeQueue: seq<ToServer>
    /** What the result callback was called with. */
    var handed: seq<TransportRecord>

    constructor (options: Backoff.Options)
      ensures this.options == options && !running && handed == []
      ensures !handshakeComplete && !helloComplete && reconnectAttempt == 0 && lastAckSequence == 0 && writeQueue == []
    {
      this.options := options;
      running, handshakeComplete, helloComplete := false, false, false;
      reconnectAttempt, lastAckSequence, writeQueue, handed := 0, 0, [], [];
    }

    /** `start` forgets the acks but not what the callback has seen. */
    method Start()
      modifies this
      ensures running && handed == old(handed)
      ensures old(running) ==> lastAckSequence == old(lastAckSequence) && writeQueue == old(writeQueue)
      ensures old(running) ==> reconnectAttempt == old(reconnectAttempt) && helloComplete == old(helloComplete)
      ensures !old(running) ==> lastAckSequence == 0 && reconnectAttempt == 0 && writeQueue == [] && !helloComplete
    {
      if running {
        return;
      }
      running := true;
      lastAckSequence := 0;
      reconnectAttempt := 0;
      StartConnect();
    }

    /** Everything queued for the old connection is dropped. */
    method StartConnect()
      modifies this`handshakeComplete, this`helloComplete, this`writeQueue
      ensures if running then !handshakeComplete && !helloComplete && writeQueue == []
        else handshakeComplete == old(handshakeComplete) && helloComplete == old(helloComplete) && writeQueue == old(writeQueue)
    {
      if !running {
        return;
      }
      handshakeComplete := false;
      helloComplete := false;
      writeQueue := [];
    }

    method OnHandshake()
      requires running
      modifies this`handshakeComplete, this`writeQueue
      ensures handshakeComplete && writeQueue == old(writeQueue) + [Hello]
    {
      handshakeComplete := true;
      writeQueue := writeQueue + [Hello];
    }

    /** `draw` is the random jitter, within the span of the delay. */
    method OnHelloAck(accepted: bool, draw: int) returns (reconnectIn: Option<int>)
      requires running && !accepted ==> DrawFits(options, Increment32(reconnectAttempt), draw)
      modifies this`handshakeComplete, this`helloComplete, this`reconnectAttempt
      ensures accepted ==> helloComplete && reconnectAttempt == 0 && reconnectIn == None
      ensures accepted ==> handshakeComplete == old(handshakeComplete)
      ensures running && !accepted ==> !handshakeComplete && !helloComplete && reconnectIn.Some?
      ensures running && !accepted ==> reconnectAttempt == Increment32(old(reconnectAttempt))
    {
      reconnectIn := None;
      if !accepted {
        if running {
          var delay := ScheduleReconnect(draw);
          reconnectIn := Some(delay);
        }
        return;
      }
      helloComplete := true;
      reconnectAttempt := 0;
    }

    method ScheduleReconnect(draw: int) returns (delay: int)
      requires running && DrawFits(options, Increment32(reconnectAttempt), draw)
      modifies this`handshakeComplete, this`helloComplete, this`reconnectAttempt
      ensures !handshakeComplete && !helloComplete && reconnectAttempt == Increment32(old(reconnectAttempt))
      ensures var o := Backoff.Normalized(options);
        var capped := Backoff.Min(o.maxDelay, Backoff.Ideal(o, reconnectAttempt));
        delay == if Backoff.JitterSpan(capped, o.jitterPercent) == 0 then capped else Backoff.Jittered(capped, draw)
    {
      handshakeComplete := false;
      helloComplete := false;
      reconnectAttempt := Increment32(reconnectAttempt);
      delay := Backoff.ComputeReconnectDelay(options, reconnectAttempt, draw);
    }

    /** The read that a pull posts, if the client is connected. */
    method RequestRead(ackSequence: u64, batch: u32) returns (posted: Option<ToServer>)
      ensures posted == if running && handshakeComplete && helloComplete
        then Some(Command(Read, ackSequence, if batch == 0 then 1 else batch)) else None
    {
      if !running || !handshakeComplete || !helloComplete {
        return None;
      }
      posted := Some(Command(Read, ackSequence, if batch == 0 then 1 else batch));
    }

    /** A posted command runs later, and is dropped if the connection is gone by then. */
    method RunPosted(command: ToServer)
      modifies this`writeQueue
      ensures writeQueue == if helloComplete then old(writeQueue) + [command] else old(writeQueue)
    {
      if helloComplete {
        writeQueue := writeQueue + [command];
      }
    }

    method ApplyCrudResult(records: seq<TransportRecord>)
      modifies this`handed, this`lastAckSequence, this`writeQueue
      ensures handed == old(handed) + records
      ensures lastAckSequence == MaxSequence(old(lastAckSequence), records)
      ensures writeQueue == old(writeQueue) + AcksFor(old(lastAckSequence), records)
    {
      handed := handed + records;
      var maxSequence := lastAckSequence;
      for i := 0 to |records|
        invariant maxSequence == MaxSequence(lastAckSequence, records[..i])
      {
        assert records[..i + 1][..i] == records[..i];
        if maxSequence < records[i].sequence {
          maxSequence := records[i].sequence;
        }
      }
      assert records[..|records|] == records;
      if maxSequence > lastAckSequence {
        SendIngestAck(maxSequence);
        lastAckSequence := maxSequence;
      }
    }

    method SendIngestAck(sequence: u64)
      modifies this`writeQueue
      ensures writeQueue == old(writeQueue) + [IngestAck(sequence)]
    {
      writeQueue := writeQueue + [IngestAck(sequence)];
    }
  }

  function Increment32(x: u32): u32 {
    (x + 1) % 0x1_0000_0000
  }

  /** Attempts are counted one by one, and the first is attempt 1; the counter is 32 bits wide. */
  lemma AttemptIs(x: u32)
    ensures x != 0xFFFF_FFFF ==> Increment32(x) == x + 1
    ensures Increment32(0xFFFF_FFFF) == 0
  {}

  /** The highest of the sequences is acked, once, and only when it is news. */
  lemma AcksHighest(lastAck: u64, records: seq<TransportRecord>, highest: u64)
    requires exists i :: 0 <= i < |records| && records[i].sequence == highest
    requires forall i :: 0 <= i < |records| ==> records[i].sequence <= highest
    ensures AcksFor(lastAck, records) == if highest > lastAck then [IngestAck(highest)] else []
    ensures AcksFor(lastAck, []) == []
  {}

  ghost predicate DrawFits(options: Backoff.Options, attempt: u32, draw: int) {
    var o := Backoff.Normalized(options);
    var span := Backoff.JitterSpan(Backoff.Min(o.maxDelay, Backoff.Ideal(o, attempt)), o.jitterPercent);
    -(span as int) <= draw <= span
  }

  /** The ack a result makes the client send, if any. */
  function AcksFor(lastAck: u64, records: seq<TransportRecord>): seq<ToServer> {
    if MaxSequence(lastAck, records) > lastAck then [IngestAck(MaxSequence(lastAck, records))] else []
  }
}
