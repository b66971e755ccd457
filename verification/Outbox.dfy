/** The transport outbox of the store: sequence allocation, per-consumer cumulative acks,
    cursor fetch and compaction. Every operation is one atomic transaction. */
module Outbox {
  import opened Cursor
  import opened Domain

  datatype StoreCode = Success | InvalidArgument | NotFound

  datatype TransportRecord = TransportRecord(sequence: u64, kind: u8, createdAt: u64, routingKey: string, payload: seq<u8>)

  /** What is stored under a sequence. */
  datatype Frame = Frame(kind: u8, createdAt: u64, routingKey: string, payload: seq<u8>)

  /** The three tables: next sequence, transport records, consumer acks. */
  datatype State = State(nextSequence: u64, records: map<u64, Frame>, acks: map<string, u64>)

  const EMPTY := State(1, map[], map[])

  function Enqueue(s: State, f: Frame): State {
    s.(nextSequence := Increment(s.nextSequence), records := s.records[s.nextSequence := f])
  }

  function Register(s: State, consumer: string): State {
    if consumer == "" || consumer in s.acks then s else s.(acks := s.acks[consumer := 0])
  }

  function AckOf(s: State, consumer: string): u64 {
    if consumer in s.acks then s.acks[consumer] else 0
  }

  function Ack(s: State, consumer: string, sequence: u64): State {
    if consumer == "" || (consumer in s.acks && sequence <= s.acks[consumer]) then s
    else s.(acks := s.acks[consumer := sequence])
  }

  /** Where the fetch cursor is sent: to the first record for a consumer that acked nothing. */
  function StartOf(ack: u64): u64 {
    if ack == 0 then 0 else Increment(ack)
  }

  function Sealed(records: map<u64, Frame>, sequence: u64): TransportRecord
    requires sequence in records
  {
    var f := records[sequence];
    TransportRecord(sequence, f.kind, f.createdAt, f.routingKey, f.payload)
  }

  function SealAll(records: map<u64, Frame>, sequences: seq<u64>): (r: seq<TransportRecord>)
    requires forall i :: 0 <= i < |sequences| ==> sequences[i] in records
    ensures |r| == |sequences|
  {
    seq(|sequences|, i requires 0 <= i < |sequences| => Sealed(records, sequences[i]))
  }

  lemma {:induction false} VisitInKeys(keys: set<u64>, from: nat, n: nat)
    ensures forall i :: 0 <= i < |Visit(keys, from, n)| ==> Visit(keys, from, n)[i] in keys
  {
    VisitVisits(keys, from, n);
  }

  /** The sequences a fetch returns. */
  function FetchSequences(s: State, consumer: string, maxItems: nat): seq<u64> {
    Visit(s.records.Keys, StartOf(AckOf(s, consumer)), maxItems)
  }

  function Fetch(s: State, consumer: string, maxItems: nat): (r: seq<TransportRecord>)
    ensures |r| == |FetchSequences(s, consumer, maxItems)|
    ensures forall i :: 0 <= i < |r| ==> r[i].sequence == FetchSequences(s, consumer, maxItems)[i]
  {
    VisitInKeys(s.records.Keys, StartOf(AckOf(s, consumer)), maxItems);
    SealAll(s.records, FetchSequences(s, consumer, maxItems))
  }

  /** Records at or below every consumer's ack are dropped; without consumers nothing is. */
  function Compact(s: State): State {
    if s.acks == map[] || MinAck(s) == 0 then s
    else s.(records := map k | k in s.records && k > MinAck(s) :: s.records[k])
  }

  function MinAck(s: State): u64
    requires s.acks != map[]
  {
    ValuesNotEmpty(s.acks);
    Least(s.acks.Values)
  }

  lemma ValuesNotEmpty(acks: map<string, u64>)
    requires acks != map[]
    ensures acks.Values != {}
  {
    var c :| c in acks;
    assert acks[c] in acks.Values;
  }

  lemma LoopTurn(visited: seq<u64>, keys: set<u64>, from: nat, n: nat)
    requires n > 0 && SetRange(keys, from).Some?
    ensures var k := SetRange(keys, from).value;
      k in keys && visited + Visit(keys, from, n) == (visited + [k]) + Visit(keys, k as nat + 1, n - 1)
  {
    VisitTurn(keys, from, n);
  }

  // ---- The store ----

  class LmdbStore {
    var nextSequence: u64
    var transport: map<u64, Frame>
    var transportConsumers: map<string, u64>

    ghost function Value(): State
      reads this
    {
      State(nextSequence, transport, transportConsumers)
    }

    constructor ()
      ensures Value() == EMPTY
    {
      nextSequence, transport, transportConsumers := 1, map[], map[];
    }

    method EnqueueTransportRecord(frame: Frame) returns (sequence: u64)
      modifies this
      ensures sequence == old(nextSequence)
      ensures Value() == Enqueue(old(Value()), frame)
    {
      sequence := nextSequence;
      nextSequence := (nextSequence + 1) % 0x1_0000_0000_0000_0000;
      transport := transport[sequence := frame];
    }

    method RegisterTransportConsumer(consumer: string) returns (code: StoreCode)
      modifies this
      ensures code == if consumer == "" then InvalidArgument else Success
      ensures Value() == Register(old(Value()), consumer)
    {
      if consumer == "" {
        return InvalidArgument;
      }
      if consumer !in transportConsumers {
        transportConsumers := transportConsumers[consumer := 0];
      }
      code := Success;
    }

    method AckTransportUntilForConsumer(consumer: string, sequence: u64) returns (code: StoreCode)
      modifies this
      ensures code == if consumer == "" then InvalidArgument else Success
      ensures Value() == Ack(old(Value()), consumer, sequence)
    {
      if consumer == "" {
        return InvalidArgument;
      }
      var current := if consumer in transportConsumers then transportConsumers[consumer] else 0;
      var updated := if current < sequence then sequence else current;
      if consumer !in transportConsumers || updated != current {
        transportConsumers := transportConsumers[consumer := updated];
      }
      code := Success;
    }

    method FetchTransportBatchForConsumer(consumer: string, maxItems: nat)
      returns (code: StoreCode, records: seq<TransportRecord>)
      ensures code == if consumer == "" then InvalidArgument else Success
      ensures records == if consumer == "" then [] else Fetch(Value(), consumer, maxItems)
    {
      hide Visit, SetRange;
      records := [];
      if consumer == "" {
        return InvalidArgument, records;
      }
      code := Success;
      if maxItems == 0 {
        return;
      }
      var ack := if consumer in transportConsumers then transportConsumers[consumer] else 0;
      var keys := transport.Keys;
      var cursor := if ack == 0 then SetRange(keys, 0) else SetRange(keys, (ack as nat + 1) % 0x1_0000_0000_0000_0000);
      ghost var visited: seq<u64> := [];
      ghost var from: nat := StartOf(ack);
      ghost var all := FetchSequences(Value(), consumer, maxItems);
      hide FetchSequences;
      while cursor.Some? && |records| < maxItems
        invariant cursor == SetRange(keys, from)
        invariant |records| == |visited| <= maxItems
        invariant forall i :: 0 <= i < |visited| ==> visited[i] in keys && records[i] == Sealed(transport, visited[i])
        invariant visited + Visit(keys, from, maxItems - |visited|) == all
        decreases maxItems - |records|
      {
        LoopTurn(visited, keys, from, maxItems - |visited|);
        records := records + [Sealed(transport, cursor.value)];
        visited := visited + [cursor.value];
        from := cursor.value as nat + 1;
        cursor := Next(keys, cursor.value);
      }
      NothingVisited(keys, from, maxItems - |visited|);
      assert visited == all;
    }

    method CompactTransportUpToMinAcked()
      modifies this
      ensures Value() == Compact(old(Value()))
    {
      if transportConsumers == map[] {
        return;
      }
      var minAcked := MinimumAck();
      if minAcked == 0 {
        return;
      }
      ghost var was := transport;
      var cursor := SetRange(transport.Keys, 0);
      ghost var from: nat := 0;
      while cursor.Some? && cursor.value <= minAcked
        invariant from <= minAcked + 1
        invariant cursor == SetRange(transport.Keys, from)
        invariant transport == map k | k in was && from <= k :: was[k]
        invariant nextSequence == old(nextSequence) && transportConsumers == old(transportConsumers)
        decreases minAcked + 1 - from
      {
        var at := cursor.value;
        assert forall k :: k in transport && k != at ==> at < k;
        transport := transport - {at};
        from := at as nat + 1;
        cursor := Next(transport.Keys, at);
      }
      assert transport == map k | k in was && k > minAcked :: was[k];
    }

    /** The loop over the consumers' acks, in key order in the program. */
    method MinimumAck() returns (minAcked: u64)
      requires transportConsumers != map[]
      ensures minAcked == MinAck(Value())
    {
      var todo := transportConsumers.Keys;
      var hasMin := false;
      minAcked := 0;
      while todo != {}
        invariant todo <= transportConsumers.Keys
        invariant hasMin <==> todo != transportConsumers.Keys
        invariant hasMin ==> minAcked in transportConsumers.Values
        invariant forall c :: c in transportConsumers && c !in todo ==> minAcked <= transportConsumers[c]
        decreases todo
      {
        var consumer :| consumer in todo;
        assert transportConsumers[consumer] in transportConsumers.Values;
        if !hasMin || transportConsumers[consumer] < minAcked {
          minAcked := transportConsumers[consumer];
          hasMin := true;
        }
        todo := todo - {consumer};
      }
      ValuesNotEmpty(transportConsumers);
    }
  }

  // ---- What each operation changes ----

  /** A new record is found under the sequence that was next; nothing else changes but the next sequence, which wraps. */
  lemma EnqueueIs(s: State, f: Frame)
    ensures var r := Enqueue(s, f);
      && s.nextSequence in r.records && r.records[s.nextSequence] == f && r.acks == s.acks
      && r.records - {s.nextSequence} == s.records - {s.nextSequence}
      && r.nextSequence == if s.nextSequence == 0xFFFF_FFFF_FFFF_FFFF then 0 else s.nextSequence + 1
  {}

  /** A consumer is entered with ack 0 once; meeting it again changes nothing. */
  lemma RegisterIs(s: State, consumer: string, other: string)
    ensures var r := Register(s, consumer);
      && r.records == s.records && r.nextSequence == s.nextSequence
      && (other in r.acks <==> other in s.acks || (other == consumer && consumer != ""))
      && (other in r.acks ==> r.acks[other] == if other in s.acks then s.acks[other] else 0)
  {}

  /** An ack raises its consumer's own mark, never lowers it, and touches nothing else. */
  lemma AckIs(s: State, consumer: string, sequence: u64, other: string)
    ensures var r := Ack(s, consumer, sequence);
      && r.records == s.records && r.nextSequence == s.nextSequence
      && (other in r.acks <==> other in s.acks || (other == consumer && consumer != ""))
      && (other in r.acks && other != consumer ==> r.acks[other] == s.acks[other])
      && (consumer != "" && consumer in s.acks && s.acks[consumer] >= sequence ==> r.acks[consumer] == s.acks[consumer])
      && (consumer != "" && (consumer !in s.acks || s.acks[consumer] < sequence) ==> r.acks[consumer] == sequence)
  {}

  /** The record is stored, above the mark unless nothing is acked, and has its own fields. */
  ghost predicate FetchedAbove(s: State, above: u64, r: TransportRecord) {
    && r.sequence in s.records && (above < r.sequence || above == 0)
    && var f := s.records[r.sequence];
       r == TransportRecord(r.sequence, f.kind, f.createdAt, f.routingKey, f.payload)
  }

  /** Main result: what a fetch returns, whatever is stored: the stored records above the consumer's ack in ascending
      order, each with its own fields, none skipped, and as many as there are up to the limit. */
  lemma FetchIs(s: State, consumer: string, maxItems: nat)
    requires AckOf(s, consumer) != U64_MAX
    ensures var r, above := Fetch(s, consumer, maxItems), if consumer in s.acks then s.acks[consumer] else 0;
      && |r| <= maxItems
      && (forall i :: 0 <= i < |r| ==> FetchedAbove(s, above, r[i]))
      && (forall i, j :: 0 <= i < j < |r| ==> r[i].sequence < r[j].sequence)
      && (forall k :: k in s.records && (above < k || above == 0) && (|r| == maxItems ==> maxItems > 0 && k <= r[maxItems - 1].sequence) ==>
            exists i :: 0 <= i < |r| && r[i].sequence == k)
  {
    hide Visit, SealAll, VisitsFrom, FetchSequences;
    var r, visited := Fetch(s, consumer, maxItems), FetchSequences(s, consumer, maxItems);
    FetchVisits(s, consumer, maxItems);
    var above := if consumer in s.acks then s.acks[consumer] else 0;
    assert VisitsFrom(s.records.Keys, if above == 0 then 0 else above + 1, maxItems, visited);
    FetchedAre(s, above, maxItems, visited, r);
  }

  lemma FetchVisits(s: State, consumer: string, maxItems: nat)
    ensures VisitsFrom(s.records.Keys, StartOf(AckOf(s, consumer)), maxItems, FetchSequences(s, consumer, maxItems))
    ensures forall q :: q in FetchSequences(s, consumer, maxItems) ==> q in s.records
    ensures Fetch(s, consumer, maxItems) == SealAll(s.records, FetchSequences(s, consumer, maxItems))
  {
    hide Visit, VisitsFrom;
    VisitVisits(s.records.Keys, StartOf(AckOf(s, consumer)), maxItems);
    VisitInKeys(s.records.Keys, StartOf(AckOf(s, consumer)), maxItems);
  }

  lemma FetchedAre(s: State, above: u64, maxItems: nat, visited: seq<u64>, r: seq<TransportRecord>)
    requires VisitsFrom(s.records.Keys, if above == 0 then 0 else above + 1, maxItems, visited)
    requires (forall q :: q in visited ==> q in s.records) && r == SealAll(s.records, visited)
    ensures |r| <= maxItems
    ensures forall i :: 0 <= i < |r| ==> FetchedAbove(s, above, r[i])
    ensures forall i, j :: 0 <= i < j < |r| ==> r[i].sequence < r[j].sequence
    ensures forall k :: k in s.records && (above < k || above == 0) && (|r| == maxItems ==> maxItems > 0 && k <= r[maxItems - 1].sequence) ==>
      exists i :: 0 <= i < |r| && r[i].sequence == k
  {
    forall k | k in visited ensures exists i :: 0 <= i < |r| && r[i].sequence == k {
      var i :| 0 <= i < |visited| && visited[i] == k;
      assert r[i].sequence == k;
    }
  }

  // ---- The keys are a dense interval ----

  ghost predicate Dense(s: State, low: nat) {
    1 <= low <= s.nextSequence && forall k :: k in s.records <==> low <= k < s.nextSequence
  }

  /** One operation on the outbox, short of running out of sequence numbers. */
  ghost predicate TableStep(s: State, s': State) {
    || (exists f :: s.nextSequence != U64_MAX && s' == Enqueue(s, f))
    || (exists c :: s' == Register(s, c))
    || (exists c, x :: s' == Ack(s, c, x))
    || s' == Compact(s)
  }

  ghost predicate TableRun(states: seq<State>) {
    && states != [] && states[0] == EMPTY
    && forall i :: 0 <= i < |states| - 1 ==> TableStep(states[i], states[i + 1])
  }

  /** Allocating the last 64-bit sequence number, and only that, breaks the interval. */
  lemma EnqueueKeepsDenseIff(s: State, f: Frame, low: nat)
    requires Dense(s, low)
    ensures Dense(Enqueue(s, f), low) <==> s.nextSequence != U64_MAX
  {}

  /** The low end after a compaction. */
  function CompactedLow(s: State, low: nat): nat {
    if s.acks == map[] || MinAck(s) < low then low
    else if MinAck(s) + 1 <= s.nextSequence then MinAck(s) + 1
    else s.nextSequence
  }

  lemma CompactKeepsDense(s: State, low: nat)
    requires Dense(s, low)
    ensures Dense(Compact(s), CompactedLow(s, low)) && low <= CompactedLow(s, low)
  {}

  lemma StepKeepsDense(s: State, s': State, low: nat) returns (low': nat)
    requires Dense(s, low) && TableStep(s, s')
    ensures Dense(s', low') && low <= low'
  {
    if s' == Compact(s) {
      CompactKeepsDense(s, low);
      low' := CompactedLow(s, low);
    } else {
      low' := low;
    }
  }

  /** Main result: in every reachable store the records are exactly the sequences from some low
      mark up to the next sequence, and the low mark never goes back. */
  lemma {:induction false} ReachableIsDense(states: seq<State>) returns (lows: seq<nat>)
    requires TableRun(states)
    ensures |lows| == |states|
    ensures forall i :: 0 <= i < |states| ==> Dense(states[i], lows[i])
    ensures forall i :: 0 <= i < |states| - 1 ==> lows[i] <= lows[i + 1]
  {
    var n := |states| - 1;
    if n == 0 {
      lows := [1];
    } else {
      lows := ReachableIsDense(states[..n]);
      assert TableStep(states[n - 1], states[n - 1 + 1]);
      var low := StepKeepsDense(states[n - 1], states[n], lows[n - 1]);
      lows := lows + [low];
    }
  }

  // ---- Fetching ----

  function Max(a: nat, b: nat): nat {
    if a < b then b else a
  }

  /** Main result: in a dense store, a fetch returns the records right above the ack (or from the
      low mark, if that is higher), one by one, up to `maxItems` or the end. */
  lemma FetchIsInterval(s: State, low: nat, consumer: string, maxItems: nat)
    requires Dense(s, low) && AckOf(s, consumer) != U64_MAX
    ensures var start := Max(low, AckOf(s, consumer) as nat + 1);
      var count := CountFrom(start, s.nextSequence, maxItems);
      && start + count <= 0x1_0000_0000_0000_0000
      && FetchSequences(s, consumer, maxItems) == Upwards(start, count)
  {
    VisitInterval(s.records.Keys, low, s.nextSequence, StartOf(AckOf(s, consumer)), maxItems);
  }

  /** In any store, a fetch returns the least keys above the ack except in two cases: after the
      last 64-bit number it starts over at the first record, and with no ack it takes a record
      under sequence 0, which is there only once the numbers have wrapped. */
  lemma FetchAboveAckIff(s: State, consumer: string, maxItems: nat)
    requires s.records != map[] && maxItems > 0
    ensures VisitsFrom(s.records.Keys, AckOf(s, consumer) as nat + 1, maxItems, FetchSequences(s, consumer, maxItems))
      <==> AckOf(s, consumer) != U64_MAX && (AckOf(s, consumer) == 0 ==> 0 !in s.records)
  {
    hide Visit, VisitsFrom;
    var ack, keys := AckOf(s, consumer), s.records.Keys;
    VisitVisits(keys, StartOf(ack), maxItems);
    if ack == U64_MAX || (ack == 0 && 0 in s.records) {
      StartsTooLow(keys, if ack == 0 then 0 else Least(keys), ack as nat + 1, maxItems);
    } else if ack == 0 {
      NothingAtZero(keys, maxItems, FetchSequences(s, consumer, maxItems));
    }
  }

  lemma StartsTooLow(keys: set<u64>, first: u64, above: nat, maxItems: nat)
    requires first in keys && maxItems > 0 && first < above && forall k :: k in keys ==> first <= k
    ensures !VisitsFrom(keys, above, maxItems, Visit(keys, 0, maxItems))
  {
    hide Visit;
    assert SetRange(keys, 0) == Some(first);
    VisitTurn(keys, 0, maxItems);
    assert Visit(keys, 0, maxItems)[0] == first;
  }

  lemma NothingAtZero(keys: set<u64>, maxItems: nat, visited: seq<u64>)
    requires 0 !in keys && VisitsFrom(keys, 0, maxItems, visited)
    ensures VisitsFrom(keys, 1, maxItems, visited)
  {}

  // ---- Compaction ----

  /** Main result: compaction changes no fetch of a registered consumer, whatever the batch size,
      as long as the consumer's ack is not the last 64-bit number. */
  lemma CompactKeepsFetch(s: State, consumer: string, maxItems: nat)
    requires consumer in s.acks && s.acks[consumer] != U64_MAX
    ensures Fetch(Compact(s), consumer, maxItems) == Fetch(s, consumer, maxItems)
  {
    hide Visit;
    var s' := Compact(s);
    if s' != s {
      assert s.acks[consumer] in s.acks.Values;
      VisitIgnoresBelow(s.records.Keys, s'.records.Keys, StartOf(s.acks[consumer]), maxItems);
    }
  }

  /** A consumer that acked the last number fetches from the first record on, so its fetch stays
      the same only when there is nothing to drop: some consumer has acked nothing, or all that is
      stored lies above the least ack. */
  lemma CompactKeepsFetchIff(s: State, consumer: string, maxItems: nat)
    requires consumer in s.acks && maxItems > 0
    ensures Fetch(Compact(s), consumer, maxItems) == Fetch(s, consumer, maxItems)
      <==> s.acks[consumer] != U64_MAX || MinAck(s) == 0 || forall k :: k in s.records ==> k > MinAck(s)
  {
    hide Visit, MinAck;
    var s' := Compact(s);
    CompactIsIdleIff(s);
    if s.acks[consumer] != U64_MAX {
      CompactKeepsFetch(s, consumer, maxItems);
    } else if s' != s {
      DropsTheFirst(s);
      var first := Least(s.records.Keys);
      VisitTurn(s.records.Keys, 0, maxItems);
      assert SetRange(s.records.Keys, 0) == Some(first);
      VisitInKeys(s'.records.Keys, 0, maxItems);
      assert Fetch(s, consumer, maxItems)[0].sequence == first;
    }
  }

  lemma CompactIsIdleIff(s: State)
    requires s.acks != map[]
    ensures Compact(s) == s <==> MinAck(s) == 0 || forall k :: k in s.records ==> k > MinAck(s)
  {
    if forall k :: k in s.records ==> k > MinAck(s) {
      assert Compact(s).records == s.records;
    }
  }

  lemma DropsTheFirst(s: State)
    requires Compact(s) != s
    ensures s.records != map[] && Least(s.records.Keys) !in Compact(s).records
  {
    if Compact(s).records.Keys == s.records.Keys { DropsNothing(s); }
  }

  lemma DropsNothing(s: State)
    requires Compact(s).records.Keys == s.records.Keys
    ensures Compact(s) == s
  {
    assert Compact(s).records == s.records;
  }

  /** Compaction drops a record exactly when every consumer, and there is one, has acked it. */
  lemma CompactDropsIff(s: State, k: u64)
    requires k in s.records && 0 !in s.records
    ensures k !in Compact(s).records <==> s.acks != map[] && forall c :: c in s.acks ==> k <= s.acks[c]
    ensures k in Compact(s).records ==> Compact(s).records[k] == s.records[k]
  {
    if s.acks != map[] {
      var m := MinAck(s);
      var c :| c in s.acks && s.acks[c] == m;
      forall d | d in s.acks ensures m <= s.acks[d] { assert s.acks[d] in s.acks.Values; }
    }
  }
}
