/** The indexing pipeline: a capture scans, builds, validates, and stores the snapshot, for an update
    together with the delta from a stored base; what it stores it also puts in the outbox. */
module Pipeline {
  import opened Builder
  import opened DeltaEngine
  import opened DeltaInverse
  import opened DeltaLaws
  import opened DeltaValidator
  import opened Domain
  import opened Frames
  import opened MessageValidator
  import opened TreeTheorem
  import opened Validators
  import BuildOrder
  import Outbox
  import Retention
  import SerializationStreams

  /** The tables of the store. */
  datatype StoreState = StoreState(tables: Retention.State, outbox: Outbox.State)

  /** How a capture ends; after anything but `Stored` the store is as it was. */
  datatype Outcome = Stored | Unchanged | SnapshotInvalid | BaseNotFound | BaseInvalid | DeltaInvalid | TooLarge

  /** The pipeline gives no options to the builder, and leaves the rename heuristic on. */
  const BUILD_OPTIONS := BuildOptions(0, 0)

  /** A frame as the outbox keeps it. */
  function Queued(f: MuninnFrame): Outbox.Frame {
    Outbox.Frame(f.kind, f.createdAt, f.routingKey, f.payload)
  }

  /** The transaction of a full capture. */
  function StoreSnapshot(s: StoreState, snapshot: Snapshot, at: u64, enqueue: bool): StoreState {
    StoreState(
      Retention.PutSnapshot(s.tables, snapshot),
      if enqueue then Outbox.Enqueue(s.outbox, Queued(SnapshotFrame(snapshot, at))) else s.outbox)
  }

  /** The transaction of an update: the target snapshot is enqueued, and behind it the delta. */
  function StoreUpdate(s: StoreState, target: Snapshot, delta: DeltaSnapshot, at1: u64, at2: u64, enqueue: bool): StoreState {
    StoreState(
      Retention.PutSnapshotAndDelta(s.tables, target, delta),
      if enqueue then Outbox.Enqueue(Outbox.Enqueue(s.outbox, Queued(SnapshotFrame(target, at1))), Queued(DeltaFrame(delta, at2)))
      else s.outbox)
  }

  predicate HasChanges(d: DeltaSnapshot) {
    d.added != [] || d.removed != [] || d.modified != [] || d.renamed != []
  }

  // ---- What a capture does ----

  ghost predicate CaptureEnds(s: StoreState, snapshot: Snapshot, at: u64, enqueue: bool, outcome: Outcome, s': StoreState) {
    if !Accepted(snapshot) then outcome == SnapshotInvalid && s' == s
    else if SerializationStreams.SnapshotError(snapshot).Some? then outcome == TooLarge && s' == s
    else outcome == Stored && s' == StoreSnapshot(s, snapshot, at, enqueue)
  }

  ghost predicate UpdateEnds(s: StoreState, target: Snapshot, baseId: u64, hash: Hash, at1: u64, at2: u64, enqueue: bool,
                             outcome: Outcome, s': StoreState)
  {
    if !Accepted(target) then outcome == SnapshotInvalid && s' == s
    else if baseId !in s.tables.snapshots then outcome == BaseNotFound && s' == s
    else if !Accepted(s.tables.snapshots[baseId]) then outcome == BaseInvalid && s' == s
    else
      exists delta :: (
        IsDelta(s.tables.snapshots[baseId], target, true, hash, delta)
        && DeltaEnds(s, target, baseId, delta, at1, at2, enqueue, outcome, s'))
  }

  ghost predicate DeltaEnds(s: StoreState, target: Snapshot, baseId: u64, delta: DeltaSnapshot, at1: u64, at2: u64, enqueue: bool,
                            outcome: Outcome, s': StoreState)
    requires baseId in s.tables.snapshots
  {
    if !DeltaOk(delta, Some(s.tables.snapshots[baseId]), Some(target)) then outcome == DeltaInvalid && s' == s
    else if !HasChanges(delta) then outcome == Unchanged && s' == s
    else if SerializationStreams.SnapshotError(target).Some? || SerializationStreams.DeltaError(delta).Some?
    then outcome == TooLarge && s' == s
    else outcome == Stored && s' == StoreUpdate(s, target, delta, at1, at2, enqueue)
  }

  class IndexingPipeline {
    const tables: Retention.SnapshotStore
    const outbox: Outbox.LmdbStore

    ghost function Value(): StoreState
      reads this, tables, outbox
    {
      StoreState(tables.Value(), outbox.Value())
    }

    constructor (tables: Retention.SnapshotStore, outbox: Outbox.LmdbStore)
      ensures this.tables == tables && this.outbox == outbox
    {
      this.tables, this.outbox := tables, outbox;
    }

    /** `put_snapshot_with_transport`, behind a validation that has passed. */
    method PutSnapshotWithTransport(snapshot: Snapshot, at: u64, enqueue: bool) returns (outcome: Outcome)
      modifies tables, outbox
      ensures outcome == if SerializationStreams.SnapshotError(snapshot).Some? then TooLarge else Stored
      ensures Value() == if outcome == Stored then StoreSnapshot(old(Value()), snapshot, at, enqueue) else old(Value())
    {
      hide SerializationStreams.SnapshotError;
      var error, payload := SerializationStreams.SerializeSnapshot(snapshot);
      if error.Some? {
        return TooLarge;
      }
      tables.StoreSnapshot(snapshot);
      if enqueue {
        var sequence := outbox.EnqueueTransportRecord(Outbox.Frame(SNAPSHOT_RECORD, at, snapshot.hostIdentifier, payload));
      }
      outcome := Stored;
    }

    /** `put_snapshot_and_delta_with_transport`: one transaction, the snapshot before the delta. */
    method PutSnapshotAndDeltaWithTransport(target: Snapshot, delta: DeltaSnapshot, at1: u64, at2: u64, enqueue: bool)
      returns (outcome: Outcome)
      modifies tables, outbox
      ensures outcome == if SerializationStreams.SnapshotError(target).Some? || SerializationStreams.DeltaError(delta).Some?
                         then TooLarge else Stored
      ensures Value() == if outcome == Stored then StoreUpdate(old(Value()), target, delta, at1, at2, enqueue) else old(Value())
    {
      hide SerializationStreams.SnapshotError, SerializationStreams.DeltaError;
      var error, snapshotPayload := SerializationStreams.SerializeSnapshot(target);
      if error.Some? {
        return TooLarge;
      }
      var deltaPayload;
      error, deltaPayload := SerializationStreams.SerializeDelta(delta);
      if error.Some? {
        return TooLarge;
      }
      var route := DeltaRoute(delta.baseSnapshotId, delta.targetSnapshotId);
      tables.StoreSnapshotAndDelta(target, delta);
      if enqueue {
        var sequence := outbox.EnqueueTransportRecord(Outbox.Frame(SNAPSHOT_RECORD, at1, target.hostIdentifier, snapshotPayload));
        sequence := outbox.EnqueueTransportRecord(Outbox.Frame(DELTA_RECORD, at2, route, deltaPayload));
      }
      outcome := Stored;
    }

    /** `capture_snapshot`; the scan is taken as given. */
    method CaptureSnapshot(hash: Hash, digest: Digest, scan: RawScan, now: i64, at: u64, enqueue: bool)
      returns (outcome: Outcome, build: BuildResult)
      requires Probing(hash, scan.entries)
      modifies tables, outbox
      ensures IsBuild(hash, digest, scan, BUILD_OPTIONS, build)
      ensures CaptureEnds(old(Value()), build.snapshot, at, enqueue, outcome, Value())
    {
      hide Probing, IsBuild, HasErrors, Accepted, StoreSnapshot, SerializationStreams.SnapshotError;
      build := Build(hash, digest, scan, BUILD_OPTIONS);
      var issues := Validate(build.snapshot, now);
      if HasErrors(issues) {
        return SnapshotInvalid, build;
      }
      outcome := PutSnapshotWithTransport(build.snapshot, at, enqueue);
    }

    /** `capture_snapshot_and_delta`; the scan is taken as given. */
    method CaptureSnapshotAndDelta(hash: Hash, digest: Digest, scan: RawScan, baseId: u64, now: i64, at1: u64, at2: u64, enqueue: bool)
      returns (outcome: Outcome, build: BuildResult)
      requires Probing(hash, scan.entries)
      modifies tables, outbox
      ensures IsBuild(hash, digest, scan, BUILD_OPTIONS, build)
      ensures UpdateEnds(old(Value()), build.snapshot, baseId, hash, at1, at2, enqueue, outcome, Value())
    {
      hide Probing, IsBuild, HasErrors, Accepted, IsDelta, DeltaOk, HasChanges, StoreUpdate;
      hide SerializationStreams.SnapshotError, SerializationStreams.DeltaError;
      build := Build(hash, digest, scan, BUILD_OPTIONS);
      var issues := Validate(build.snapshot, now);
      if HasErrors(issues) {
        return SnapshotInvalid, build;
      }
      if baseId !in tables.snapshots {
        return BaseNotFound, build;
      }
      var base := tables.snapshots[baseId];
      issues := Validate(base, now);
      if HasErrors(issues) {
        return BaseInvalid, build;
      }
      var delta := Compute(base, build.snapshot, true, hash);
      outcome := StoreDelta(build.snapshot, base, delta, at1, at2, enqueue);
      assert DeltaEnds(old(Value()), build.snapshot, baseId, delta, at1, at2, enqueue, outcome, Value());
    }

    /** The part of an update behind the computation of the delta. */
    method StoreDelta(target: Snapshot, base: Snapshot, delta: DeltaSnapshot, at1: u64, at2: u64, enqueue: bool)
      returns (outcome: Outcome)
      modifies tables, outbox
      ensures
        if !DeltaOk(delta, Some(base), Some(target)) then outcome == DeltaInvalid && Value() == old(Value())
        else if !HasChanges(delta) then outcome == Unchanged && Value() == old(Value())
        else if SerializationStreams.SnapshotError(target).Some? || SerializationStreams.DeltaError(delta).Some?
        then outcome == TooLarge && Value() == old(Value())
        else outcome == Stored && Value() == StoreUpdate(old(Value()), target, delta, at1, at2, enqueue)
    {
      hide HasErrors, DeltaOk, StoreUpdate, SerializationStreams.SnapshotError, SerializationStreams.DeltaError;
      var issues := DeltaPass(delta, Some(base), Some(target));
      if HasErrors(issues) {
        return DeltaInvalid;
      }
      if !HasChanges(delta) {
        return Unchanged;
      }
      outcome := PutSnapshotAndDeltaWithTransport(target, delta, at1, at2, enqueue);
    }
  }

  // ---- What captures have in common ----

  /** No capture of the pipeline ends because its own delta is unsound. */
  lemma DeltaNeverInvalid(s: StoreState, target: Snapshot, baseId: u64, hash: Hash, at1: u64, at2: u64, enqueue: bool,
                          outcome: Outcome, s': StoreState)
    requires UpdateEnds(s, target, baseId, hash, at1, at2, enqueue, outcome, s')
    ensures outcome != DeltaInvalid
  {
    hide Accepted, IsDelta, DeltaOk;
    if Accepted(target) && baseId in s.tables.snapshots && Accepted(s.tables.snapshots[baseId]) {
      var base := s.tables.snapshots[baseId];
      var delta :| IsDelta(base, target, true, hash, delta) && DeltaEnds(s, target, baseId, delta, at1, at2, enqueue, outcome, s');
      AcceptedMeans(base);
      AcceptedMeans(target);
      AcceptedDeltaPasses(base, target, true, hash, delta);
    }
  }

  /** Main result: an update of sound snapshots ends without storing anything exactly when ids, paths, types and metadata
      are as they were; and only what is too large for the format is then not stored. */
  lemma UnchangedIff(s: StoreState, target: Snapshot, baseId: u64, hash: Hash, at1: u64, at2: u64, enqueue: bool,
                     outcome: Outcome, s': StoreState)
    requires UpdateEnds(s, target, baseId, hash, at1, at2, enqueue, outcome, s')
    requires Accepted(target) && baseId in s.tables.snapshots && Accepted(s.tables.snapshots[baseId])
    ensures outcome == Unchanged <==> SameContent(s.tables.snapshots[baseId], target)
    ensures outcome in {Unchanged, TooLarge, Stored} && (outcome != Stored ==> s' == s)
  {
    DeltaNeverInvalid(s, target, baseId, hash, at1, at2, enqueue, outcome, s');
    hide Accepted, IsDelta, DeltaOk, DeltaEnds, SameContent, UniqueKeys, HeaderOk, IdentityOk, PathsOk;
    var base := s.tables.snapshots[baseId];
    var delta :| IsDelta(base, target, true, hash, delta) && DeltaEnds(s, target, baseId, delta, at1, at2, enqueue, outcome, s');
    AcceptedMeans(base);
    AcceptedMeans(target);
    NoChangesIff(base, target, hash, delta);
    DeltaEndings(s, target, baseId, delta, at1, at2, enqueue, outcome, s');
  }

  lemma NoChangesIff(base: Snapshot, target: Snapshot, hash: Hash, delta: DeltaSnapshot)
    requires UniqueKeys(base) && UniqueKeys(target) && IsDelta(base, target, true, hash, delta)
    ensures !HasChanges(delta) <==> SameContent(base, target)
  {
    hide IsDelta, UniqueKeys, DeltaShape, SameContent;
    ComputeShape(base, target, true, hash, delta);
    EmptyIffSameContent(base, target, delta);
  }

  lemma DeltaEndings(s: StoreState, target: Snapshot, baseId: u64, delta: DeltaSnapshot, at1: u64, at2: u64, enqueue: bool,
                     outcome: Outcome, s': StoreState)
    requires baseId in s.tables.snapshots && DeltaEnds(s, target, baseId, delta, at1, at2, enqueue, outcome, s')
    ensures outcome == DeltaInvalid || outcome in {Unchanged, TooLarge, Stored}
    ensures outcome != DeltaInvalid ==> (outcome == Unchanged <==> !HasChanges(delta))
    ensures outcome != Stored ==> s' == s
  {
    hide DeltaOk, StoreUpdate, HasChanges;
  }

  lemma AcceptedMeans(s: Snapshot)
    requires Accepted(s)
    ensures HeaderOk(s) && IdentityOk(s) && PathsOk(s) && UniqueKeys(s)
  {
    hide HeaderOk, IdentityOk, GraphOk, PathsOk, RootedTree, HeaderFields;
    AcceptedIffTree(s);
    AcceptedKeys(s);
  }

  /** A captured snapshot has the time of its scan, and is named by the digest of the rest, with 1 in place of 0. */
  lemma CapturedHeader(hash: Hash, digest: Digest, scan: RawScan, build: BuildResult)
    requires IsBuild(hash, digest, scan, BUILD_OPTIONS, build)
    ensures build.snapshot.createdAt == scan.scannedAt && build.snapshot.hostIdentifier == scan.hostIdentifier
    ensures var d := digest(build.snapshot.(snapshotId := 0)); build.snapshot.snapshotId == if d == 0 then 1 else d
  {
    hide IsBuild;
    BuildOrder.BuildHeader(hash, digest, scan, BUILD_OPTIONS, build);
  }

  // ---- Runs of captures ----

  /** What a capture has stored and enqueued. */
  datatype Capture =
    | Full(snapshot: Snapshot, at: u64)
    | Update(snapshot: Snapshot, at: u64, base: Snapshot, delta: DeltaSnapshot, deltaAt: u64)

  ghost predicate Stores(s: StoreState, c: Capture, hash: Hash, s': StoreState) {
    && Accepted(c.snapshot)
    && match c
       case Full(snapshot, at) => s' == StoreSnapshot(s, snapshot, at, true)
       case Update(target, at, base, delta, deltaAt) =>
         && base in s.tables.snapshots.Values && Accepted(base)
         && IsDelta(base, target, true, hash, delta) && HasChanges(delta)
         && s' == StoreUpdate(s, target, delta, at, deltaAt, true)
  }

  lemma CaptureStores(s: StoreState, snapshot: Snapshot, at: u64, hash: Hash, outcome: Outcome, s': StoreState)
    requires CaptureEnds(s, snapshot, at, true, outcome, s')
    ensures if outcome == Stored then Stores(s, Full(snapshot, at), hash, s') else s' == s
  {
    hide Accepted;
  }

  lemma UpdateStores(s: StoreState, target: Snapshot, baseId: u64, hash: Hash, at1: u64, at2: u64, outcome: Outcome, s': StoreState)
    requires UpdateEnds(s, target, baseId, hash, at1, at2, true, outcome, s')
    ensures outcome != Stored ==> s' == s
    ensures outcome == Stored ==> baseId in s.tables.snapshots
    ensures outcome == Stored ==> exists delta :: Stores(s, Update(target, at1, s.tables.snapshots[baseId], delta, at2), hash, s')
  {
    hide Accepted, IsDelta, DeltaOk, StoreUpdate, HasChanges;
    if Accepted(target) && baseId in s.tables.snapshots && Accepted(s.tables.snapshots[baseId]) {
      var base := s.tables.snapshots[baseId];
      var delta :| IsDelta(base, target, true, hash, delta) && DeltaEnds(s, target, baseId, delta, at1, at2, true, outcome, s');
      if outcome == Stored {
        assert base in s.tables.snapshots.Values;
        assert Stores(s, Update(target, at1, base, delta, at2), hash, s');
      }
    }
  }

  /** A run of captures over one store, those left out that stored nothing. */
  ghost predicate CaptureRun(stores: seq<StoreState>, captures: seq<Capture>, hash: Hash) {
    |stores| == |captures| + 1 && forall i :: 0 <= i < |captures| ==> Stores(stores[i], captures[i], hash, stores[i + 1])
  }
}
