/** The gateway's materialised tree of a host: two maps that index each other, loaded from a
    snapshot or advanced by a delta. */
module Materializer {
  import opened Domain
  import opened Sorting
  import opened Status
  import Paths

  datatype HostState = HostState(
    lastSequence: u64,
    lastSnapshotId: u64,
    hostIdentifier: string,
    entriesById: map<u64, FileEntry>,
    idByPath: map<string, u64>)

  // ---- The steps, as functions on a state ----

  function IndexEntry(s: HostState, e: FileEntry): HostState {
    s.(idByPath := s.idByPath[e.path := e.id], entriesById := s.entriesById[e.id := e])
  }

  function RemoveEntry(s: HostState, e: FileEntry): HostState {
    s.(idByPath := s.idByPath - {e.path}, entriesById := s.entriesById - {e.id})
  }

  function IndexAll(s: HostState, es: seq<FileEntry>): HostState {
    if es == [] then s else IndexEntry(IndexAll(s, es[..|es| - 1]), es[|es| - 1])
  }

  function RemoveAll(s: HostState, es: seq<FileEntry>): HostState {
    if es == [] then s else RemoveEntry(RemoveAll(s, es[..|es| - 1]), es[|es| - 1])
  }

  function Load(snapshot: Snapshot, sequence: u64): HostState {
    IndexAll(HostState(sequence, snapshot.snapshotId, snapshot.hostIdentifier, map[], map[]), snapshot.entries)
  }

  /** A step can fail half-way; what was done before stays done. */
  datatype Outcome = Outcome(status: Status, state: HostState)

  function ModifyOne(s: HostState, m: ModifiedEntry): Outcome {
    if m.entryId !in s.entriesById then Outcome(Failure(ValidationError), s)
    else
      var e := s.entriesById[m.entryId];
      Outcome(Success, s.(entriesById := s.entriesById[m.entryId := e.(metadata := m.after)]))
  }

  function ModifyAll(s: HostState, ms: seq<ModifiedEntry>): Outcome {
    if ms == [] then Outcome(Success, s)
    else
      var o := ModifyAll(s, ms[..|ms| - 1]);
      if o.status.Failure? then o else ModifyOne(o.state, ms[|ms| - 1])
  }

  function RenameOne(s: HostState, r: RenamedEntry): Outcome {
    if r.beforeId !in s.entriesById && r.afterId !in s.entriesById then Outcome(Failure(ValidationError), s)
    else
      var e := s.entriesById[if r.beforeId in s.entriesById then r.beforeId else r.afterId];
      var newPath := Paths.Normalize(r.newPath);
      var entries := s.entriesById[r.afterId := e.(id := r.afterId, path := newPath)];
      Outcome(Success, s.(
        entriesById := if r.afterId != r.beforeId then entries - {r.beforeId} else entries,
        idByPath := (s.idByPath - {e.path})[newPath := r.afterId]))
  }

  function RenameAll(s: HostState, rs: seq<RenamedEntry>): Outcome {
    if rs == [] then Outcome(Success, s)
    else
      var o := RenameAll(s, rs[..|rs| - 1]);
      if o.status.Failure? then o else RenameOne(o.state, rs[|rs| - 1])
  }

  /** The id of the entry at the parent path, 0 for a path that is its own parent. */
  function ParentIdOf(idByPath: map<string, u64>, path: string): u64 {
    var parent := Paths.Parent(path);
    if parent == "" || parent == path || parent !in idByPath then 0 else idByPath[parent]
  }

  function ReparentOne(s: HostState, r: RenamedEntry): Outcome {
    if r.afterId !in s.entriesById then Outcome(Failure(ValidationError), s)
    else
      var e := s.entriesById[r.afterId];
      Outcome(Success, s.(entriesById := s.entriesById[
        r.afterId := e.(name := Paths.Filename(e.path), parentId := ParentIdOf(s.idByPath, e.path))]))
  }

  function ReparentAll(s: HostState, rs: seq<RenamedEntry>): Outcome {
    if rs == [] then Outcome(Success, s)
    else
      var o := ReparentAll(s, rs[..|rs| - 1]);
      if o.status.Failure? then o else ReparentOne(o.state, rs[|rs| - 1])
  }

  /** Replaying a delta on a host state. */
  function Replay(s: HostState, sequence: u64, delta: DeltaSnapshot): Outcome {
    if s.lastSnapshotId != delta.baseSnapshotId then Outcome(Failure(ValidationError), s)
    else
      var modified := ModifyAll(IndexAll(RemoveAll(s, delta.removed), delta.added), delta.modified);
      if modified.status.Failure? then modified
      else
        var renamed := RenameAll(modified.state, delta.renamed);
        if renamed.status.Failure? then renamed
        else
          var reparented := ReparentAll(renamed.state, delta.renamed);
          if reparented.status.Failure? then reparented
          else Outcome(Success, reparented.state.(lastSnapshotId := delta.targetSnapshotId, lastSequence := sequence))
  }

  // ---- A failed prefix decides the whole loop ----

  lemma {:induction false} ModifyFails(s: HostState, ms: seq<ModifiedEntry>, k: nat)
    requires k <= |ms| && ModifyAll(s, ms[..k]).status.Failure?
    ensures ModifyAll(s, ms) == ModifyAll(s, ms[..k])
  {
    if k == |ms| { assert ms[..k] == ms; }
    else {
      assert ms[..|ms| - 1][..k] == ms[..k];
      ModifyFails(s, ms[..|ms| - 1], k);
    }
  }

  lemma {:induction false} RenameFails(s: HostState, rs: seq<RenamedEntry>, k: nat)
    requires k <= |rs| && RenameAll(s, rs[..k]).status.Failure?
    ensures RenameAll(s, rs) == RenameAll(s, rs[..k])
  {
    if k == |rs| { assert rs[..k] == rs; }
    else {
      assert rs[..|rs| - 1][..k] == rs[..k];
      RenameFails(s, rs[..|rs| - 1], k);
    }
  }

  lemma {:induction false} ReparentFails(s: HostState, rs: seq<RenamedEntry>, k: nat)
    requires k <= |rs| && ReparentAll(s, rs[..k]).status.Failure?
    ensures ReparentAll(s, rs) == ReparentAll(s, rs[..k])
  {
    if k == |rs| { assert rs[..k] == rs; }
    else {
      assert rs[..|rs| - 1][..k] == rs[..k];
      ReparentFails(s, rs[..|rs| - 1], k);
    }
  }

  /** The host a delta is applied to: the one named, else any whose last snapshot is the base. */
  ghost predicate Resolves(states: map<string, HostState>, hostId: string, baseSnapshotId: u64, host: string) {
    && host in states
    && if hostId != "" && hostId in states then host == hostId
       else states[host].lastSnapshotId == baseSnapshotId
  }

  predicate DirectoriesThenNames(a: FileEntry, b: FileEntry) {
    var aDirectory, bDirectory := a.kind == DIRECTORY, b.kind == DIRECTORY;
    if aDirectory != bDirectory then aDirectory else StringLess(a.name, b.name)
  }

  /** The children query on a host state: the error it gives, or the parent's id. */
  function ParentOfListing(s: HostState, parentPath: string): StatusOr<u64> {
    var path := if parentPath == "" then "/" else Paths.Normalize(parentPath);
    if path !in s.idByPath || s.idByPath[path] !in s.entriesById then Err(NotFound)
    else if s.entriesById[s.idByPath[path]].kind != DIRECTORY then Err(ValidationError)
    else Ok(s.entriesById[s.idByPath[path]].id)
  }

  class MaterializerSink {
    var states: map<string, HostState>
    var lastUpdatedHostId: string

    constructor ()
      ensures states == map[] && lastUpdatedHostId == ""
    {
      states, lastUpdatedHostId := map[], "";
    }

    static method BuildFromSnapshot(snapshot: Snapshot, sequence: u64) returns (state: HostState)
      ensures state == Load(snapshot, sequence)
    {
      state := HostState(sequence, snapshot.snapshotId, snapshot.hostIdentifier, map[], map[]);
      ghost var empty := state;
      for i := 0 to |snapshot.entries|
        invariant state == IndexAll(empty, snapshot.entries[..i])
      {
        assert snapshot.entries[..i + 1][..i] == snapshot.entries[..i];
        state := IndexEntry(state, snapshot.entries[i]);
      }
      assert snapshot.entries[..|snapshot.entries|] == snapshot.entries;
    }

    method ApplySnapshot(hostId: string, sequence: u64, snapshot: Snapshot) returns (status: Status)
      modifies this
      ensures var host := if hostId == "" then snapshot.hostIdentifier else hostId;
        if host == "" then
          status == Failure(InvalidArgument) && states == old(states) && lastUpdatedHostId == old(lastUpdatedHostId)
        else
          status == Success && states == old(states)[host := Load(snapshot, sequence)] && lastUpdatedHostId == host
    {
      var host := hostId;
      if host == "" {
        host := snapshot.hostIdentifier;
      }
      if host == "" {
        return Failure(InvalidArgument);
      }
      var state := BuildFromSnapshot(snapshot, sequence);
      states := states[host := state];
      lastUpdatedHostId := host;
      status := Success;
    }

    method ApplyDelta(hostId: string, sequence: u64, delta: DeltaSnapshot) returns (status: Status)
      modifies this
      ensures (forall host :: !Resolves(old(states), hostId, delta.baseSnapshotId, host)) ==>
        status == Failure(NotFound) && states == old(states) && lastUpdatedHostId == old(lastUpdatedHostId)
      ensures (exists host :: Resolves(old(states), hostId, delta.baseSnapshotId, host)) ==>
        exists host :: Resolves(old(states), hostId, delta.baseSnapshotId, host)
          && var o := Replay(old(states)[host], sequence, delta);
             status == o.status && states == old(states)[host := o.state]
             && lastUpdatedHostId == if o.status == Success then host else old(lastUpdatedHostId)
    {
      var host;
      if hostId != "" && hostId in states {
        host := hostId;
      } else if found :| found in states && states[found].lastSnapshotId == delta.baseSnapshotId {
        host := found;
      } else {
        return Failure(NotFound);
      }
      assert Resolves(old(states), hostId, delta.baseSnapshotId, host);
      var state := states[host];
      status, state := AdvanceState(state, sequence, delta);
      states := states[host := state];
      if status == Success {
        lastUpdatedHostId := host;
      }
    }

    /** The five loops; the state is returned as far as it was changed. */
    static method AdvanceState(start: HostState, sequence: u64, delta: DeltaSnapshot)
      returns (status: Status, state: HostState)
      ensures Outcome(status, state) == Replay(start, sequence, delta)
    {
      state := start;
      if state.lastSnapshotId != delta.baseSnapshotId {
        return Failure(ValidationError), state;
      }
      for i := 0 to |delta.removed|
        invariant state == RemoveAll(start, delta.removed[..i])
      {
        assert delta.removed[..i + 1][..i] == delta.removed[..i];
        state := RemoveEntry(state, delta.removed[i]);
      }
      assert delta.removed[..|delta.removed|] == delta.removed;
      ghost var kept := state;
      for i := 0 to |delta.added|
        invariant state == IndexAll(kept, delta.added[..i])
      {
        assert delta.added[..i + 1][..i] == delta.added[..i];
        state := IndexEntry(state, delta.added[i]);
      }
      assert delta.added[..|delta.added|] == delta.added;
      status, state := ModifyLoop(state, delta.modified);
      if status != Success { return; }
      status, state := RenameLoop(state, delta.renamed);
      if status != Success { return; }
      status, state := ReparentLoop(state, delta.renamed);
      if status != Success { return; }
      state := state.(lastSnapshotId := delta.targetSnapshotId, lastSequence := sequence);
    }

    static method ModifyLoop(start: HostState, ms: seq<ModifiedEntry>) returns (status: Status, state: HostState)
      ensures Outcome(status, state) == ModifyAll(start, ms)
    {
      state := start;
      for i := 0 to |ms|
        invariant ModifyAll(start, ms[..i]) == Outcome(Success, state)
      {
        assert ms[..i + 1][..i] == ms[..i];
        if ms[i].entryId !in state.entriesById {
          ModifyFails(start, ms, i + 1);
          return Failure(ValidationError), state;
        }
        var e := state.entriesById[ms[i].entryId];
        state := state.(entriesById := state.entriesById[ms[i].entryId := e.(metadata := ms[i].after)]);
      }
      assert ms[..|ms|] == ms;
      status := Success;
    }

    static method RenameLoop(start: HostState, rs: seq<RenamedEntry>) returns (status: Status, state: HostState)
      ensures Outcome(status, state) == RenameAll(start, rs)
    {
      state := start;
      for i := 0 to |rs|
        invariant RenameAll(start, rs[..i]) == Outcome(Success, state)
      {
        assert rs[..i + 1][..i] == rs[..i];
        var renamed := rs[i];
        var found := renamed.beforeId;
        if found !in state.entriesById {
          found := renamed.afterId;
        }
        if found !in state.entriesById {
          RenameFails(start, rs, i + 1);
          return Failure(ValidationError), state;
        }
        var e := state.entriesById[found];
        var newPath := Paths.Normalize(renamed.newPath);
        var idByPath := state.idByPath - {e.path};
        var entriesById := state.entriesById[renamed.afterId := e.(id := renamed.afterId, path := newPath)];
        if renamed.afterId != renamed.beforeId {
          entriesById := entriesById - {renamed.beforeId};
        }
        idByPath := idByPath[newPath := renamed.afterId];
        state := state.(entriesById := entriesById, idByPath := idByPath);
      }
      assert rs[..|rs|] == rs;
      status := Success;
    }

    static method ReparentLoop(start: HostState, rs: seq<RenamedEntry>) returns (status: Status, state: HostState)
      ensures Outcome(status, state) == ReparentAll(start, rs)
    {
      state := start;
      for i := 0 to |rs|
        invariant ReparentAll(start, rs[..i]) == Outcome(Success, state)
      {
        assert rs[..i + 1][..i] == rs[..i];
        if rs[i].afterId !in state.entriesById {
          ReparentFails(start, rs, i + 1);
          return Failure(ValidationError), state;
        }
        var e := state.entriesById[rs[i].afterId];
        var parent := Paths.Parent(e.path);
        e := e.(name := Paths.Filename(e.path), parentId := 0);
        if parent != "" && parent != e.path && parent in state.idByPath {
          e := e.(parentId := state.idByPath[parent]);
        }
        state := state.(entriesById := state.entriesById[rs[i].afterId := e]);
      }
      assert rs[..|rs|] == rs;
      status := Success;
    }

    /** The listing of a directory: each entry as often as it is stored with the directory's id as parent,
        directories first and then by name. */
    method ListChildren(hostId: string, parentPath: string) returns (r: StatusOr<seq<FileEntry>>)
      ensures hostId == "" ==> r == Err(InvalidArgument)
      ensures hostId != "" && hostId !in states ==> r == Err(NotFound)
      ensures hostId != "" && hostId in states ==>
        match ParentOfListing(states[hostId], parentPath)
        case Err(code) => r == Err(code)
        case Ok(parent) =>
          r.Ok? && SortedBy(DirectoriesThenNames, r.value)
          && forall e :: multiset(r.value)[e] == |ListedIds(states[hostId].entriesById, {}, parent, e)|
    {
      if hostId == "" {
        return Err(InvalidArgument);
      }
      if hostId !in states {
        return Err(NotFound);
      }
      var state := states[hostId];
      var path := if parentPath == "" then "/" else Paths.Normalize(parentPath);
      if path !in state.idByPath || state.idByPath[path] !in state.entriesById {
        return Err(NotFound);
      }
      var parent := state.entriesById[state.idByPath[path]];
      if parent.kind != DIRECTORY {
        return Err(ValidationError);
      }
      var children := CollectChildren(state.entriesById, parent.id);
      ListingOrder();
      var sorted := Sort(DirectoriesThenNames, children);
      r := Ok(sorted);
    }

    static method CollectChildren(entries: map<u64, FileEntry>, parent: u64) returns (children: seq<FileEntry>)
      ensures forall e :: multiset(children)[e] == |ListedIds(entries, {}, parent, e)|
    {
      children := [];
      var todo := entries.Keys;
      assert forall e :: ListedIds(entries, todo, parent, e) == {};
      while todo != {}
        invariant todo <= entries.Keys
        invariant forall e :: multiset(children)[e] == |ListedIds(entries, todo, parent, e)|
        decreases todo
      {
        var id :| id in todo;
        ghost var before := todo;
        todo := todo - {id};
        forall e ensures |ListedIds(entries, todo, parent, e)|
          == |ListedIds(entries, before, parent, e)| + if entries[id] == e && e.parentId == parent then 1 else 0
        {
          ListOneMore(entries, before, parent, id, e);
        }
        if entries[id].parentId == parent {
          children := children + [entries[id]];
        }
      }
    }
  }

  /** The ids under which an entry is listed, those still to come left out. */
  ghost function ListedIds(entries: map<u64, FileEntry>, todo: set<u64>, parent: u64, e: FileEntry): set<u64> {
    set id | id in entries && id !in todo && entries[id] == e && e.parentId == parent
  }

  lemma ListOneMore(entries: map<u64, FileEntry>, todo: set<u64>, parent: u64, id: u64, e: FileEntry)
    requires id in todo && todo <= entries.Keys
    ensures |ListedIds(entries, todo - {id}, parent, e)|
      == |ListedIds(entries, todo, parent, e)| + if entries[id] == e && e.parentId == parent then 1 else 0
  {
    var before, after := ListedIds(entries, todo, parent, e), ListedIds(entries, todo - {id}, parent, e);
    if entries[id] == e && e.parentId == parent {
      assert after == before + {id};
    } else {
      assert after == before;
    }
  }

  /** Main result: in a sorted listing a directory never comes behind anything else, and among directories, as among
      the rest, no name comes before a lesser one. */
  lemma ListedInOrder(es: seq<FileEntry>, i: nat, j: nat)
    requires SortedBy(DirectoriesThenNames, es) && i < j < |es|
    ensures es[j].kind == 1 ==> es[i].kind == 1
    ensures (es[i].kind == 1 <==> es[j].kind == 1) ==> !StringLess(es[j].name, es[i].name)
  {
    var less := DirectoriesThenNames;
    assert !less(es[j], es[i]);
  }

  /** Which directory is listed: the one that both maps know at the path, where no path means the root. */
  lemma ListedDirectory(s: HostState, path: string, id: u64)
    ensures Paths.Normalize(path) in s.idByPath && s.idByPath[Paths.Normalize(path)] == id && path != "" ==>
      ParentOfListing(s, path) ==
        if id !in s.entriesById then Err(NotFound)
        else if s.entriesById[id].kind == 1 then Ok(s.entriesById[id].id) else Err(ValidationError)
    ensures path != "" && Paths.Normalize(path) !in s.idByPath ==> ParentOfListing(s, path) == Err(NotFound)
    ensures ParentOfListing(s, "") == ParentOfListing(s, "/")
  {
    hide Paths.Normalize;
    RootStays();
  }

  lemma RootStays()
    ensures Paths.Normalize("/") == "/"
  {
    Paths.RootIsNormal();
  }

  /** Which parent a renamed entry gets: the id known at the path in front of its last name; a bare name and the root
      have none. */
  lemma ParentIdIs(idByPath: map<string, u64>, dir: string, name: string)
    requires name != "" && Paths.SlashFree(name)
    ensures dir != "" && dir[|dir| - 1] != '/' ==>
      ParentIdOf(idByPath, dir + "/" + name) == if dir in idByPath then idByPath[dir] else 0
    ensures ParentIdOf(idByPath, "/" + name) == if "/" in idByPath then idByPath["/"] else 0
    ensures ParentIdOf(idByPath, name) == 0 && ParentIdOf(idByPath, "/") == 0
  {
    hide Paths.Parent;
    Paths.ParentOf(dir, name);
    Paths.ParentOfName(name);
    assert dir + "/" + name != dir && "/" + name != "/";
  }

  /** A delta of another base is refused and nothing is changed. */
  lemma ReplayNeedsBase(s: HostState, sequence: u64, delta: DeltaSnapshot)
    requires s.lastSnapshotId != delta.baseSnapshotId
    ensures Replay(s, sequence, delta) == Outcome(Failure(ValidationError), s)
  {}

  lemma {:induction false} ModifyKeepsNames(s: HostState, ms: seq<ModifiedEntry>)
    ensures var o := ModifyAll(s, ms);
      && o.state.(entriesById := map[]) == s.(entriesById := map[]) && o.state.entriesById.Keys == s.entriesById.Keys
      && (o.status.Success? <==> forall m :: m in ms ==> m.entryId in s.entriesById)
      && (o.status.Failure? ==> o.status == Failure(ValidationError))
  {
    if ms != [] {
      var n := |ms| - 1;
      ModifyKeepsNames(s, ms[..n]);
      assert ms == ms[..n] + [ms[n]];
    }
  }

  /** The named host of a state, and which snapshot and message brought it about. */
  predicate SameOrigin(s: HostState, t: HostState) {
    s.lastSequence == t.lastSequence && s.lastSnapshotId == t.lastSnapshotId && s.hostIdentifier == t.hostIdentifier
  }

  lemma {:induction false} IndexKeepsOrigin(s: HostState, es: seq<FileEntry>)
    ensures SameOrigin(IndexAll(s, es), s) && SameOrigin(RemoveAll(s, es), s)
  {
    if es != [] { IndexKeepsOrigin(s, es[..|es| - 1]); }
  }

  lemma {:induction false} RenamesKeepOrigin(s: HostState, rs: seq<RenamedEntry>)
    ensures SameOrigin(RenameAll(s, rs).state, s) && SameOrigin(ReparentAll(s, rs).state, s)
    ensures RenameAll(s, rs).status in {Success, Failure(ValidationError)} && ReparentAll(s, rs).status in {Success, Failure(ValidationError)}
  {
    hide Paths.Normalize, ParentIdOf;
    if rs != [] { RenamesKeepOrigin(s, rs[..|rs| - 1]); }
  }

  /** Main result: only a replay to its end moves a state on to the target and the message; one that fails leaves the
      state at its old snapshot, so the same delta can be tried again, and always with one and the same error. */
  lemma FailedReplayStays(s: HostState, sequence: u64, delta: DeltaSnapshot)
    ensures var o := Replay(s, sequence, delta);
      && (o.status.Failure? ==> o.status == Failure(ValidationError) && SameOrigin(o.state, s))
      && (o.status.Success? ==> o.state.lastSequence == sequence && o.state.lastSnapshotId == delta.targetSnapshotId)
      && o.state.hostIdentifier == s.hostIdentifier
      && (o.status.Success? ==> s.lastSnapshotId == delta.baseSnapshotId)
  {
    hide IndexAll, RemoveAll, ModifyAll, RenameAll, ReparentAll;
    IndexKeepsOrigin(s, delta.removed);
    var prepared := IndexAll(RemoveAll(s, delta.removed), delta.added);
    IndexKeepsOrigin(RemoveAll(s, delta.removed), delta.added);
    ModifyKeepsNames(prepared, delta.modified);
    var modified := ModifyAll(prepared, delta.modified).state;
    RenamesKeepOrigin(modified, delta.renamed);
    RenamesKeepOrigin(RenameAll(modified, delta.renamed).state, delta.renamed);
  }

  lemma ListingOrder()
    ensures StrictWeakOrder(DirectoriesThenNames)
  {
    StringLessIsOrder();
  }
}
