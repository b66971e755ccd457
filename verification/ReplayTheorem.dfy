/** Replaying a computed delta against loading the target snapshot: when exactly the two
    give the same pair of maps. */
module ReplayTheorem {
  import opened Domain
  import opened Sorting
  import opened Status
  import opened DeltaEngine
  import opened DeltaLaws
  import opened Materializer
  import Paths

  /** The path index loading builds: the last entry with a path wins. */
  function IndexByPath(es: seq<FileEntry>): (m: map<string, u64>)
    ensures forall p :: p in m <==> p in PathsOf(es)
  {
    if es == [] then map[]
    else
      assert forall e :: e in es <==> e in es[..|es| - 1] || e == es[|es| - 1];
      IndexByPath(es[..|es| - 1])[es[|es| - 1].path := es[|es| - 1].id]
  }

  lemma {:induction false} PathFinds(es: seq<FileEntry>, e: FileEntry)
    requires UniquePaths(es) && e in es
    ensures e.path in IndexByPath(es) && IndexByPath(es)[e.path] == e.id
  {
    var n := |es| - 1;
    if e != es[n] {
      var i :| 0 <= i < |es| && es[i] == e;
      assert es[..n][i] == e;
      PathFinds(es[..n], e);
    }
  }

  // ---- The five loops in closed form ----

  lemma {:induction false} RemoveAllClosed(s: HostState, es: seq<FileEntry>)
    ensures RemoveAll(s, es) == s.(entriesById := s.entriesById - Ids(es), idByPath := s.idByPath - PathsOf(es))
  {
    if es == [] {
      assert Ids(es) == {} && PathsOf(es) == {};
      assert s.entriesById - {} == s.entriesById && s.idByPath - {} == s.idByPath;
    } else {
      var init, last := es[..|es| - 1], es[|es| - 1];
      RemoveAllClosed(s, init);
      assert forall e :: e in es <==> e in init || e == last;
      assert Ids(es) == Ids(init) + {last.id} && PathsOf(es) == PathsOf(init) + {last.path};
      assert s.entriesById - Ids(es) == s.entriesById - Ids(init) - {last.id};
      assert s.idByPath - PathsOf(es) == s.idByPath - PathsOf(init) - {last.path};
    }
  }

  lemma AppendUpdate<K, V>(m: map<K, V>, n: map<K, V>, k: K, v: V)
    ensures (m + n)[k := v] == m + n[k := v]
  {}

  lemma {:induction false} IndexAllClosed(s: HostState, es: seq<FileEntry>)
    requires UniqueIds(es)
    ensures IndexAll(s, es) == s.(entriesById := s.entriesById + IndexById(es), idByPath := s.idByPath + IndexByPath(es))
  {
    if es == [] {
      assert s.entriesById + map[] == s.entriesById && s.idByPath + map[] == s.idByPath;
    } else {
      var init, last := es[..|es| - 1], es[|es| - 1];
      IndexAllClosed(s, init);
      assert last.id !in IndexById(init);
      AppendUpdate(s.entriesById, IndexById(init), last.id, last);
      AppendUpdate(s.idByPath, IndexByPath(init), last.path, last.id);
    }
  }

  lemma LoadClosed(snapshot: Snapshot, sequence: u64)
    requires UniqueIds(snapshot.entries)
    ensures Load(snapshot, sequence) == HostState(sequence, snapshot.snapshotId, snapshot.hostIdentifier,
              IndexById(snapshot.entries), IndexByPath(snapshot.entries))
  {
    hide IndexAll, IndexById, IndexByPath;
    IndexAllClosed(HostState(sequence, snapshot.snapshotId, snapshot.hostIdentifier, map[], map[]), snapshot.entries);
    assert map[] + IndexById(snapshot.entries) == IndexById(snapshot.entries);
    assert map[] + IndexByPath(snapshot.entries) == IndexByPath(snapshot.entries);
  }

  /** What the modify loop leaves at an id. */
  ghost predicate UpdatedAt(before: map<u64, FileEntry>, ms: seq<ModifiedEntry>, after: map<u64, FileEntry>, id: u64) {
    && (id in after <==> id in before)
    && (forall i {:trigger ms[i]} :: 0 <= i < |ms| && ms[i].entryId == id && id in before ==>
          id in after && after[id] == before[id].(metadata := ms[i].after))
    && ((forall i :: 0 <= i < |ms| ==> ms[i].entryId != id) && id in before ==> id in after && after[id] == before[id])
  }

  lemma {:induction false} ModifyAllClosed(s: HostState, ms: seq<ModifiedEntry>)
    requires forall i :: 0 <= i < |ms| ==> ms[i].entryId in s.entriesById
    requires forall i, j :: 0 <= i < j < |ms| ==> ms[i].entryId != ms[j].entryId
    ensures var o := ModifyAll(s, ms);
      && o.status == Success && o.state == s.(entriesById := o.state.entriesById)
      && forall id {:trigger UpdatedAt(s.entriesById, ms, o.state.entriesById, id)} ::
           UpdatedAt(s.entriesById, ms, o.state.entriesById, id)
  {
    if ms != [] {
      var n := |ms| - 1;
      var init := ModifyAll(s, ms[..n]);
      ModifyAllClosed(s, ms[..n]);
      assert UpdatedAt(s.entriesById, ms[..n], init.state.entriesById, ms[n].entryId);
      assert ModifyAll(s, ms) == ModifyOne(init.state, ms[n]);
      forall id ensures UpdatedAt(s.entriesById, ms, ModifyAll(s, ms).state.entriesById, id) {
        UpdateStep(s.entriesById, ms, init.state.entriesById, ModifyAll(s, ms).state.entriesById, id);
      }
    }
  }

  lemma UpdateStep(before: map<u64, FileEntry>, ms: seq<ModifiedEntry>, mid: map<u64, FileEntry>,
                   after: map<u64, FileEntry>, id: u64)
    requires ms != [] && forall i, j :: 0 <= i < j < |ms| ==> ms[i].entryId != ms[j].entryId
    requires UpdatedAt(before, ms[..|ms| - 1], mid, id)
    requires var m := ms[|ms| - 1]; m.entryId in mid && after == mid[m.entryId := mid[m.entryId].(metadata := m.after)]
    ensures UpdatedAt(before, ms, after, id)
  {
    var n := |ms| - 1;
    assert forall i :: 0 <= i < n ==> ms[..n][i] == ms[i];
    if forall i :: 0 <= i < n ==> ms[i].entryId != id {
      assert forall i :: 0 <= i < n ==> ms[..n][i].entryId != id;
    }
  }

  /** What the rename loop asks of the entries it is run on. */
  ghost predicate ReadyToRename(entries: map<u64, FileEntry>, rs: seq<RenamedEntry>) {
    && (forall i :: 0 <= i < |rs| ==> rs[i].beforeId in entries && entries[rs[i].beforeId].path == rs[i].oldPath)
    && (forall i :: 0 <= i < |rs| && rs[i].beforeId != rs[i].afterId ==> rs[i].afterId !in entries)
    && (forall i, j :: 0 <= i < j < |rs| ==> rs[i].beforeId != rs[j].beforeId && rs[i].afterId != rs[j].afterId)
  }

  function Relocate(e: FileEntry, r: RenamedEntry): FileEntry {
    e.(id := r.afterId, path := Paths.Normalize(r.newPath))
  }

  /** The path index as the rename loop moves it: erase the old path, then put the new one. */
  function MovePaths(idByPath: map<string, u64>, rs: seq<RenamedEntry>): map<string, u64> {
    if rs == [] then idByPath
    else
      var r := rs[|rs| - 1];
      (MovePaths(idByPath, rs[..|rs| - 1]) - {r.oldPath})[Paths.Normalize(r.newPath) := r.afterId]
  }

  /** Rename `i` has put its entry at the new id and taken it away from the old one. */
  ghost predicate RelocatedAt(before: map<u64, FileEntry>, rs: seq<RenamedEntry>, after: map<u64, FileEntry>, i: int)
    requires 0 <= i < |rs|
  {
    var r := rs[i];
    && r.beforeId in before
    && r.afterId in after && after[r.afterId] == Relocate(before[r.beforeId], r)
    && (r.beforeId != r.afterId ==> r.beforeId !in after)
  }

  ghost predicate SameAt<K, V>(before: map<K, V>, after: map<K, V>, k: K) {
    (k in after <==> k in before) && (k in before ==> after[k] == before[k])
  }

  lemma SameEverywhere<K(!new), V>(m: map<K, V>, n: map<K, V>)
    requires forall k :: SameAt(m, n, k)
    ensures m == n
  {
    forall k ensures k in m <==> k in n { assert SameAt(m, n, k); }
    assert m.Keys == n.Keys;
    forall k | k in m ensures m[k] == n[k] { assert SameAt(m, n, k); }
  }

  /** The entries after the rename loop. */
  ghost predicate Relocated(before: map<u64, FileEntry>, rs: seq<RenamedEntry>, after: map<u64, FileEntry>) {
    && (forall i {:trigger RelocatedAt(before, rs, after, i)} :: 0 <= i < |rs| ==> RelocatedAt(before, rs, after, i))
    && (forall id {:trigger SameAt(before, after, id)} :: !Sources(rs, id) && !Targets(rs, id) ==> SameAt(before, after, id))
  }

  lemma EndsSplit(rs: seq<RenamedEntry>, id: u64)
    requires rs != []
    ensures Sources(rs, id) <==> Sources(rs[..|rs| - 1], id) || rs[|rs| - 1].beforeId == id
    ensures Targets(rs, id) <==> Targets(rs[..|rs| - 1], id) || rs[|rs| - 1].afterId == id
  {
    var init := rs[..|rs| - 1];
    assert forall i :: 0 <= i < |init| ==> init[i] == rs[i];
  }

  /** The source of the last rename is untouched by the earlier ones. */
  lemma LastUntouched(before: map<u64, FileEntry>, rs: seq<RenamedEntry>)
    requires rs != [] && ReadyToRename(before, rs)
    ensures ReadyToRename(before, rs[..|rs| - 1])
    ensures var id := rs[|rs| - 1].beforeId; !Sources(rs[..|rs| - 1], id) && !Targets(rs[..|rs| - 1], id)
  {}

  lemma RelocateStep(before: map<u64, FileEntry>, rs: seq<RenamedEntry>,
                     mid: map<u64, FileEntry>, after: map<u64, FileEntry>)
    requires rs != [] && ReadyToRename(before, rs)
    requires Relocated(before, rs[..|rs| - 1], mid)
    requires var r := rs[|rs| - 1];
      && r.beforeId in mid && mid[r.beforeId] == before[r.beforeId]
      && var put := mid[r.afterId := Relocate(mid[r.beforeId], r)];
         after == if r.beforeId != r.afterId then put - {r.beforeId} else put
    ensures Relocated(before, rs, after)
  {
    var n := |rs| - 1;
    forall i | 0 <= i < |rs|
      ensures RelocatedAt(before, rs, after, i)
    {
      if i < n {
        assert RelocatedAt(before, rs[..n], mid, i);
        EarlierEnds(before, rs, i);
      }
    }
    forall id | !Sources(rs, id) && !Targets(rs, id)
      ensures SameAt(before, after, id)
    {
      EndsSplit(rs, id);
      assert SameAt(before, mid, id);
    }
  }

  /** The last rename touches neither end of an earlier one. */
  lemma EarlierEnds(before: map<u64, FileEntry>, rs: seq<RenamedEntry>, i: nat)
    requires ReadyToRename(before, rs) && i < |rs| - 1
    ensures var r, s := rs[i], rs[|rs| - 1];
      r.beforeId != s.beforeId && r.afterId != s.afterId && r.beforeId != s.afterId && r.afterId != s.beforeId
  {}

  lemma {:induction false} RenameAllClosed(s: HostState, rs: seq<RenamedEntry>)
    requires ReadyToRename(s.entriesById, rs)
    ensures var o := RenameAll(s, rs);
      && o.status == Success
      && o.state == s.(entriesById := o.state.entriesById, idByPath := MovePaths(s.idByPath, rs))
      && Relocated(s.entriesById, rs, o.state.entriesById)
  {
    if rs == [] {
      assert forall id :: SameAt(s.entriesById, s.entriesById, id);
    } else {
      var n := |rs| - 1;
      LastUntouched(s.entriesById, rs);
      RenameAllClosed(s, rs[..n]);
      assert SameAt(s.entriesById, RenameAll(s, rs[..n]).state.entriesById, rs[n].beforeId);
      RelocateStep(s.entriesById, rs, RenameAll(s, rs[..n]).state.entriesById, RenameAll(s, rs).state.entriesById);
    }
  }

  function Reparent(idByPath: map<string, u64>, e: FileEntry): FileEntry {
    e.(name := Paths.Filename(e.path), parentId := ParentIdOf(idByPath, e.path))
  }

  ghost predicate ReparentedAt(idByPath: map<string, u64>, before: map<u64, FileEntry>, after: map<u64, FileEntry>, id: u64) {
    id in before && id in after && after[id] == Reparent(idByPath, before[id])
  }

  lemma {:induction false} ReparentAllClosed(s: HostState, rs: seq<RenamedEntry>)
    requires forall i :: 0 <= i < |rs| ==> rs[i].afterId in s.entriesById
    ensures var o := ReparentAll(s, rs);
      && o.status == Success && o.state == s.(entriesById := o.state.entriesById)
      && (forall id {:trigger ReparentedAt(s.idByPath, s.entriesById, o.state.entriesById, id)} ::
            Targets(rs, id) ==> ReparentedAt(s.idByPath, s.entriesById, o.state.entriesById, id))
      && (forall id {:trigger SameAt(s.entriesById, o.state.entriesById, id)} ::
            !Targets(rs, id) ==> SameAt(s.entriesById, o.state.entriesById, id))
  {
    if rs == [] {
      assert forall id :: SameAt(s.entriesById, s.entriesById, id);
    } else {
      var n := |rs| - 1;
      ReparentAllClosed(s, rs[..n]);
      var mid, after := ReparentAll(s, rs[..n]).state.entriesById, ReparentAll(s, rs).state.entriesById;
      var last := rs[n].afterId;
      if Targets(rs[..n], last) {
        assert ReparentedAt(s.idByPath, s.entriesById, mid, last);
      } else {
        assert SameAt(s.entriesById, mid, last);
      }
      forall id | Targets(rs, id) ensures ReparentedAt(s.idByPath, s.entriesById, after, id) {
        EndsSplit(rs, id);
        if id != last { assert ReparentedAt(s.idByPath, s.entriesById, mid, id); }
      }
      forall id | !Targets(rs, id) ensures SameAt(s.entriesById, after, id) {
        EndsSplit(rs, id);
        assert SameAt(s.entriesById, mid, id);
      }
    }
  }

  // ---- The path index after the moves ----

  /** Rename `j` put the path and no later rename erased it. */
  predicate PutLast(rs: seq<RenamedEntry>, p: string, j: int) {
    0 <= j < |rs| && rs[j].newPath == p && forall i :: j < i < |rs| ==> rs[i].oldPath != p
  }

  predicate IsOldPath(rs: seq<RenamedEntry>, p: string) {
    exists i :: 0 <= i < |rs| && rs[i].oldPath == p
  }

  /** The moves when every new path is already normal. */
  function MovePlain(idByPath: map<string, u64>, rs: seq<RenamedEntry>): map<string, u64> {
    if rs == [] then idByPath
    else
      var r := rs[|rs| - 1];
      (MovePlain(idByPath, rs[..|rs| - 1]) - {r.oldPath})[r.newPath := r.afterId]
  }

  lemma {:induction false} MovesArePlain(idByPath: map<string, u64>, rs: seq<RenamedEntry>)
    requires forall i :: 0 <= i < |rs| ==> Paths.Normalize(rs[i].newPath) == rs[i].newPath
    ensures MovePaths(idByPath, rs) == MovePlain(idByPath, rs)
  {
    if rs != [] { MovesArePlain(idByPath, rs[..|rs| - 1]); }
  }

  lemma {:induction false} MovePut(idByPath: map<string, u64>, rs: seq<RenamedEntry>, p: string, j: nat)
    requires forall i, k :: 0 <= i < k < |rs| ==> rs[i].newPath != rs[k].newPath
    requires PutLast(rs, p, j)
    ensures p in MovePlain(idByPath, rs) && MovePlain(idByPath, rs)[p] == rs[j].afterId
  {
    var n := |rs| - 1;
    if j < n {
      assert PutLast(rs[..n], p, j);
      MovePut(idByPath, rs[..n], p, j);
    }
  }

  lemma {:induction false} MoveErased(idByPath: map<string, u64>, rs: seq<RenamedEntry>, p: string)
    requires forall j :: !PutLast(rs, p, j)
    ensures IsOldPath(rs, p) ==> p !in MovePlain(idByPath, rs)
    ensures !IsOldPath(rs, p) ==>
      (p in MovePlain(idByPath, rs) <==> p in idByPath) && (p in idByPath ==> MovePlain(idByPath, rs)[p] == idByPath[p])
  {
    if rs != [] {
      var n := |rs| - 1;
      assert rs[n].newPath != p by { assert !PutLast(rs, p, n); }
      assert IsOldPath(rs[..n], p) ==> IsOldPath(rs, p);
      if rs[n].oldPath != p {
        forall j ensures !PutLast(rs[..n], p, j) {
          if PutLast(rs[..n], p, j) { assert PutLast(rs, p, j); }
        }
        MoveErased(idByPath, rs[..n], p);
        assert IsOldPath(rs, p) ==> IsOldPath(rs[..n], p);
      }
    }
  }

  // ---- When the two agree ----

  /** A shared id keeps its type; if its path stays, its name and parent stay. */
  ghost predicate Stable(base: map<u64, FileEntry>, target: map<u64, FileEntry>, id: u64) {
    id in base && id in target ==>
      && base[id].kind == target[id].kind
      && (base[id].path == target[id].path ==>
            base[id].name == target[id].name && base[id].parentId == target[id].parentId)
  }

  /** The end of a rename is normal, named by its path and hung under the entry at its parent
      path; a rename between two ids, which carries no metadata, changes none. */
  ghost predicate Lands(base: map<u64, FileEntry>, target: map<u64, FileEntry>, idByPath: map<string, u64>, r: RenamedEntry) {
    && r.beforeId in base && r.afterId in target
    && Paths.Normalize(r.newPath) == r.newPath
    && target[r.afterId].name == Paths.Filename(r.newPath)
    && target[r.afterId].parentId == ParentIdOf(idByPath, r.newPath)
    && (r.beforeId != r.afterId ==> base[r.beforeId].metadata == target[r.afterId].metadata)
  }

  /** If the old path of rename `i` is taken in the target, it is taken by the end of a rename
      listed no earlier: the loop erases the old path, so only that put survives. */
  ghost predicate Survives(idByPath: map<string, u64>, rs: seq<RenamedEntry>, i: int)
    requires 0 <= i < |rs|
  {
    rs[i].oldPath in idByPath ==> exists j :: i <= j < |rs| && rs[j].newPath == rs[i].oldPath
  }

  /** The exact condition on two snapshots and their delta. */
  ghost predicate Replayable(base: Snapshot, target: Snapshot, delta: DeltaSnapshot) {
    var baseById, targetById := IndexById(base.entries), IndexById(target.entries);
    var targetByPath := IndexByPath(target.entries);
    && (forall id :: Stable(baseById, targetById, id))
    && (forall i :: 0 <= i < |delta.renamed| ==> Lands(baseById, targetById, targetByPath, delta.renamed[i]))
    && (forall i :: 0 <= i < |delta.renamed| ==> Survives(targetByPath, delta.renamed, i))
  }

  // ---- The entries after a replay ----

  /** A base entry once the modifications are in. */
  function Current(base: map<u64, FileEntry>, target: map<u64, FileEntry>, id: u64): FileEntry
    requires id in base
  {
    if id in target then base[id].(metadata := target[id].metadata) else base[id]
  }

  /** Which entries the state holds before the renames. */
  ghost predicate PreparedAt(base: map<u64, FileEntry>, target: map<u64, FileEntry>, rs: seq<RenamedEntry>,
                             entries: map<u64, FileEntry>, id: u64)
  {
    if id in base && (id in target || Sources(rs, id)) then id in entries && entries[id] == Current(base, target, id)
    else if id in target && id !in base && !Targets(rs, id) then id in entries && entries[id] == target[id]
    else id !in entries
  }

  function Prepared(base: Snapshot, sequence: u64, delta: DeltaSnapshot): HostState {
    IndexAll(RemoveAll(Load(base, sequence), delta.removed), delta.added)
  }

  lemma PreparedClosed(base: Snapshot, target: Snapshot, sequence: u64, delta: DeltaSnapshot)
    requires UniqueKeys(base) && UniqueKeys(target) && DeltaShape(base, target, delta)
    ensures var s := Prepared(base, sequence, delta);
      && s.lastSnapshotId == base.snapshotId && s.hostIdentifier == base.hostIdentifier
      && s.entriesById == (IndexById(base.entries) - Ids(delta.removed)) + IndexById(delta.added)
      && s.idByPath == (IndexByPath(base.entries) - PathsOf(delta.removed)) + IndexByPath(delta.added)
  {
    LoadClosed(base, sequence);
    RemoveAllClosed(Load(base, sequence), delta.removed);
    IndexAllClosed(RemoveAll(Load(base, sequence), delta.removed), delta.added);
  }

  /** Membership in the removed and added lists, by id. */
  lemma ListedIds(base: Snapshot, target: Snapshot, delta: DeltaSnapshot, id: u64)
    requires UniqueKeys(base) && UniqueKeys(target) && DeltaShape(base, target, delta)
    ensures var baseById, targetById := IndexById(base.entries), IndexById(target.entries);
      && (id in Ids(delta.removed) <==> id in baseById && id !in targetById && !Sources(delta.renamed, id))
      && (id in IndexById(delta.added) <==> id in targetById && id !in baseById && !Targets(delta.renamed, id))
      && (id in IndexById(delta.added) ==> IndexById(delta.added)[id] == targetById[id])
  {
    var baseById, targetById := IndexById(base.entries), IndexById(target.entries);
    if id in Ids(delta.removed) {
      var e :| e in delta.removed && e.id == id;
    }
    if id in baseById && id !in targetById && !Sources(delta.renamed, id) {
      assert baseById[id] in delta.removed;
    }
    if id in IndexById(delta.added) {
      var e := IndexById(delta.added)[id];
      assert e in delta.added;
      IndexFinds(target.entries, e);
    }
    if id in targetById && id !in baseById && !Targets(delta.renamed, id) {
      assert targetById[id] in delta.added;
    }
  }

  lemma ModifiedIds(base: Snapshot, target: Snapshot, delta: DeltaSnapshot, id: u64)
    requires DeltaShape(base, target, delta)
    ensures (exists i :: 0 <= i < |delta.modified| && delta.modified[i].entryId == id)
      <==> id in IndexById(base.entries) && Changed(IndexById(base.entries)[id], IndexById(target.entries))
    ensures forall i :: 0 <= i < |delta.modified| && delta.modified[i].entryId == id ==>
      id in IndexById(target.entries) && delta.modified[i].after == IndexById(target.entries)[id].metadata
  {
    forall i | 0 <= i < |delta.modified| ensures delta.modified[i] in delta.modified {}
    var baseById, targetById := IndexById(base.entries), IndexById(target.entries);
    if id in baseById && Changed(baseById[id], targetById) {
      assert Change(baseById[id], targetById) in delta.modified;
    }
  }

  lemma PreparedEntries(base: Snapshot, target: Snapshot, sequence: u64, delta: DeltaSnapshot)
    requires UniqueKeys(base) && UniqueKeys(target) && DeltaShape(base, target, delta)
    ensures var o := ModifyAll(Prepared(base, sequence, delta), delta.modified);
      && o.status == Success
      && o.state == Prepared(base, sequence, delta).(entriesById := o.state.entriesById)
      && forall id :: PreparedAt(IndexById(base.entries), IndexById(target.entries), delta.renamed, o.state.entriesById, id)
  {
    var s := Prepared(base, sequence, delta);
    PreparedClosed(base, target, sequence, delta);
    forall i | 0 <= i < |delta.modified| ensures delta.modified[i].entryId in s.entriesById {
      ModifiedIds(base, target, delta, delta.modified[i].entryId);
      ListedIds(base, target, delta, delta.modified[i].entryId);
    }
    ModifyAllClosed(s, delta.modified);
    var entries := ModifyAll(s, delta.modified).state.entriesById;
    forall id ensures PreparedAt(IndexById(base.entries), IndexById(target.entries), delta.renamed, entries, id) {
      assert UpdatedAt(s.entriesById, delta.modified, entries, id);
      ListedIds(base, target, delta, id);
      ModifiedIds(base, target, delta, id);
      SharedIsNoTarget(base, target, delta, id);
    }
  }

  /** Only renames between two ids have an end outside the shared ids. */
  lemma SharedIsNoTarget(base: Snapshot, target: Snapshot, delta: DeltaSnapshot, id: u64)
    requires DeltaShape(base, target, delta)
    ensures Sources(delta.renamed, id) ==> id in IndexById(base.entries)
    ensures Targets(delta.renamed, id) ==> id in IndexById(target.entries)
  {
    forall i | 0 <= i < |delta.renamed|
      ensures RenameOk(IndexById(base.entries), IndexById(target.entries), delta.renamed[i])
    {}
  }

  /** The entry a rename leaves behind. */
  function Arrived(base: map<u64, FileEntry>, target: map<u64, FileEntry>, idByPath: map<string, u64>, r: RenamedEntry): FileEntry
    requires r.beforeId in base
  {
    Reparent(idByPath, Relocate(Current(base, target, r.beforeId), r))
  }

  /** What a replay leaves at an id: a rename's end, a shared entry brought up to date, or an added one. */
  ghost predicate ReplayedAt(base: map<u64, FileEntry>, target: map<u64, FileEntry>, rs: seq<RenamedEntry>,
                             idByPath: map<string, u64>, entries: map<u64, FileEntry>, id: u64)
  {
    && (id in entries <==> id in target)
    && (id in target && !Targets(rs, id) ==>
          entries[id] == if id in base then Current(base, target, id) else target[id])
    && (forall i {:trigger rs[i]} :: 0 <= i < |rs| && rs[i].afterId == id ==>
          && rs[i].beforeId in base && id in entries
          && entries[id] == Arrived(base, target, idByPath, rs[i]))
  }

  lemma RenamesReady(base: map<u64, FileEntry>, target: map<u64, FileEntry>, rs: seq<RenamedEntry>,
                     entries: map<u64, FileEntry>)
    requires RenamesOk(base, target, rs)
    requires forall id :: PreparedAt(base, target, rs, entries, id)
    ensures ReadyToRename(entries, rs)
  {
    forall i | 0 <= i < |rs|
      ensures rs[i].beforeId in entries && entries[rs[i].beforeId].path == rs[i].oldPath
      ensures rs[i].beforeId != rs[i].afterId ==> rs[i].afterId !in entries
    {
      assert RenameOk(base, target, rs[i]);
      assert PreparedAt(base, target, rs, entries, rs[i].beforeId);
      assert PreparedAt(base, target, rs, entries, rs[i].afterId);
    }
  }

  /** Where the paths end up before it is known what the target holds. */
  ghost function MovedPaths(base: Snapshot, sequence: u64, delta: DeltaSnapshot): map<string, u64> {
    MovePaths(Prepared(base, sequence, delta).idByPath, delta.renamed)
  }

  lemma ArrivedAt(base: map<u64, FileEntry>, target: map<u64, FileEntry>, rs: seq<RenamedEntry>,
                  idByPath: map<string, u64>, prepared: map<u64, FileEntry>, moved: map<u64, FileEntry>,
                  final: map<u64, FileEntry>, i: nat)
    requires i < |rs| && RenameOk(base, target, rs[i])
    requires PreparedAt(base, target, rs, prepared, rs[i].beforeId)
    requires RelocatedAt(prepared, rs, moved, i)
    requires ReparentedAt(idByPath, moved, final, rs[i].afterId)
    ensures rs[i].afterId in final && final[rs[i].afterId] == Arrived(base, target, idByPath, rs[i])
  {}

  lemma ReplayedEntryAt(base: map<u64, FileEntry>, target: map<u64, FileEntry>, rs: seq<RenamedEntry>,
                        idByPath: map<string, u64>, prepared: map<u64, FileEntry>, moved: map<u64, FileEntry>,
                        final: map<u64, FileEntry>, id: u64)
    requires RenamesOk(base, target, rs)
    requires forall k :: PreparedAt(base, target, rs, prepared, k)
    requires Relocated(prepared, rs, moved)
    requires if Targets(rs, id) then ReparentedAt(idByPath, moved, final, id) else SameAt(moved, final, id)
    ensures ReplayedAt(base, target, rs, idByPath, final, id)
  {
    forall i | 0 <= i < |rs| && rs[i].afterId == id
      ensures rs[i].beforeId in base && id in target && id in final && final[id] == Arrived(base, target, idByPath, rs[i])
    {
      assert RenameOk(base, target, rs[i]);
      assert RelocatedAt(prepared, rs, moved, i);
      assert PreparedAt(base, target, rs, prepared, rs[i].beforeId);
      ArrivedAt(base, target, rs, idByPath, prepared, moved, final, i);
    }
    if !Targets(rs, id) {
      if Sources(rs, id) {
        var i :| 0 <= i < |rs| && rs[i].beforeId == id;
        assert RenameOk(base, target, rs[i]);
        assert RelocatedAt(prepared, rs, moved, i);
      } else {
        assert SameAt(prepared, moved, id);
        assert PreparedAt(base, target, rs, prepared, id);
      }
    }
  }

  /** A replay of a delta of that shape succeeds, and this is what it leaves. */
  lemma ReplayClosed(base: Snapshot, target: Snapshot, loaded: u64, sequence: u64, delta: DeltaSnapshot)
    requires UniqueKeys(base) && UniqueKeys(target) && DeltaShape(base, target, delta)
    ensures var o := Replay(Load(base, loaded), sequence, delta);
      && o.status == Success
      && o.state.idByPath == MovedPaths(base, loaded, delta)
      && o.state.lastSnapshotId == target.snapshotId && o.state.lastSequence == sequence
      && o.state.hostIdentifier == base.hostIdentifier
      && forall id :: ReplayedAt(IndexById(base.entries), IndexById(target.entries), delta.renamed,
                                 o.state.idByPath, o.state.entriesById, id)
  {
    var baseById, targetById, rs := IndexById(base.entries), IndexById(target.entries), delta.renamed;
    LoadClosed(base, loaded);
    PreparedClosed(base, target, loaded, delta);
    PreparedEntries(base, target, loaded, delta);
    var prepared := ModifyAll(Prepared(base, loaded, delta), delta.modified).state;
    RenamesReady(baseById, targetById, rs, prepared.entriesById);
    RenameAllClosed(prepared, rs);
    var moved := RenameAll(prepared, rs).state;
    forall i | 0 <= i < |rs| ensures rs[i].afterId in moved.entriesById {
      assert RelocatedAt(prepared.entriesById, rs, moved.entriesById, i);
    }
    ReparentAllClosed(moved, rs);
    var final := ReparentAll(moved, rs).state;
    forall id ensures ReplayedAt(baseById, targetById, rs, moved.idByPath, final.entriesById, id) {
      if Targets(rs, id) {
        assert ReparentedAt(moved.idByPath, moved.entriesById, final.entriesById, id);
      } else {
        assert SameAt(moved.entriesById, final.entriesById, id);
      }
      ReplayedEntryAt(baseById, targetById, rs, moved.idByPath, prepared.entriesById, moved.entriesById, final.entriesById, id);
    }
  }

  // ---- The paths after a replay ----

  lemma RenamePathsDistinct(base: Snapshot, target: Snapshot, delta: DeltaSnapshot)
    requires UniqueKeys(base) && UniqueKeys(target) && DeltaShape(base, target, delta)
    ensures forall i, j :: 0 <= i < j < |delta.renamed| ==>
      && delta.renamed[i].oldPath != delta.renamed[j].oldPath
      && delta.renamed[i].newPath != delta.renamed[j].newPath
  {
    var baseById, targetById, rs := IndexById(base.entries), IndexById(target.entries), delta.renamed;
    forall i, j | 0 <= i < j < |rs|
      ensures rs[i].oldPath != rs[j].oldPath && rs[i].newPath != rs[j].newPath
    {
      assert RenameOk(baseById, targetById, rs[i]) && RenameOk(baseById, targetById, rs[j]);
      SamePathSameEntry(base.entries, baseById[rs[i].beforeId], baseById[rs[j].beforeId]);
      SamePathSameEntry(target.entries, targetById[rs[i].afterId], targetById[rs[j].afterId]);
    }
  }

  lemma SamePathSameEntry(es: seq<FileEntry>, e: FileEntry, f: FileEntry)
    requires UniquePaths(es) && e in es && f in es
    ensures e.path == f.path ==> e == f
  {}

  /** Away from the renamed paths, the prepared index is already the target's. */
  lemma PreparedPathAt(base: Snapshot, target: Snapshot, sequence: u64, delta: DeltaSnapshot, p: string)
    requires UniqueKeys(base) && UniqueKeys(target) && DeltaShape(base, target, delta)
    requires !IsOldPath(delta.renamed, p)
    requires forall i :: 0 <= i < |delta.renamed| ==> delta.renamed[i].newPath != p
    ensures var prepared, wanted := Prepared(base, sequence, delta).idByPath, IndexByPath(target.entries);
      (p in prepared <==> p in wanted) && (p in wanted ==> prepared[p] == wanted[p])
  {
    var baseById, targetById, rs := IndexById(base.entries), IndexById(target.entries), delta.renamed;
    PreparedClosed(base, target, sequence, delta);
    forall i | 0 <= i < |rs| ensures RenameOk(baseById, targetById, rs[i]) {}
    if p in PathsOf(target.entries) {
      var e :| e in target.entries && e.path == p;
      IndexFinds(target.entries, e);
      PathFinds(target.entries, e);
      assert !Targets(rs, e.id);
      if e.id in baseById {
        KeptPath(base, target, delta, e);
      } else {
        assert e in delta.added;
        PathFinds(delta.added, e);
      }
    } else {
      assert p !in IndexByPath(target.entries);
      VacatedPath(base, target, delta, p);
    }
  }

  /** The path of a shared entry that stays is neither removed nor taken by an added entry. */
  lemma KeptPath(base: Snapshot, target: Snapshot, delta: DeltaSnapshot, e: FileEntry)
    requires UniqueKeys(base) && UniqueKeys(target) && DeltaShape(base, target, delta)
    requires e in target.entries && e.id in IndexById(base.entries) && !Targets(delta.renamed, e.id)
    ensures e.path in IndexByPath(base.entries) && IndexByPath(base.entries)[e.path] == e.id
    ensures e.path !in PathsOf(delta.removed) && e.path !in PathsOf(delta.added)
  {
    var baseById, targetById, rs := IndexById(base.entries), IndexById(target.entries), delta.renamed;
    IndexFinds(target.entries, e);
    var f := baseById[e.id];
    if f.path != e.path { SourcesIntro(rs, Rename(f, e)); }
    PathFinds(base.entries, f);
    forall g | g in delta.removed ensures g.path != e.path {
      if g.path == e.path { SamePathSameEntry(base.entries, f, g); }
    }
    forall g | g in delta.added ensures g.path != e.path {
      if g.path == e.path { SamePathSameEntry(target.entries, e, g); }
    }
  }

  /** The base path of a rename's source, and of a shared entry that moved, is an old path. */
  lemma SourcePath(base: Snapshot, target: Snapshot, delta: DeltaSnapshot, id: u64)
    requires DeltaShape(base, target, delta) && id in IndexById(base.entries)
    ensures var baseById, targetById := IndexById(base.entries), IndexById(target.entries);
      Sources(delta.renamed, id) || (id in targetById && targetById[id].path != baseById[id].path)
      ==> IsOldPath(delta.renamed, baseById[id].path)
  {
    var baseById, targetById, rs := IndexById(base.entries), IndexById(target.entries), delta.renamed;
    forall i | 0 <= i < |rs| && rs[i].beforeId == id
      ensures IsOldPath(rs, baseById[id].path)
    {
      assert RenameOk(baseById, targetById, rs[i]);
    }
    if id in targetById && targetById[id].path != baseById[id].path {
      SourcesIntro(rs, Rename(baseById[id], targetById[id]));
    }
  }

  lemma BaseEntryGoes(base: Snapshot, target: Snapshot, delta: DeltaSnapshot, f: FileEntry)
    requires UniqueKeys(base) && UniqueKeys(target) && DeltaShape(base, target, delta)
    requires f in base.entries && !IsOldPath(delta.renamed, f.path)
    ensures f in delta.removed || f.path in PathsOf(target.entries)
  {
    IndexFinds(base.entries, f);
    SourcePath(base, target, delta, f.id);
  }

  /** A path the target does not have and no rename leaves is removed if the base had it. */
  lemma VacatedPath(base: Snapshot, target: Snapshot, delta: DeltaSnapshot, p: string)
    requires UniqueKeys(base) && UniqueKeys(target) && DeltaShape(base, target, delta)
    requires p !in PathsOf(target.entries) && !IsOldPath(delta.renamed, p)
    ensures p !in PathsOf(delta.added)
    ensures p in PathsOf(base.entries) ==> p in PathsOf(delta.removed)
  {
    if p in PathsOf(base.entries) {
      var f :| f in base.entries && f.path == p;
      BaseEntryGoes(base, target, delta, f);
    }
  }

  lemma MovedPathAt(base: Snapshot, target: Snapshot, sequence: u64, delta: DeltaSnapshot, p: string)
    requires UniqueKeys(base) && UniqueKeys(target) && DeltaShape(base, target, delta)
    requires forall i :: 0 <= i < |delta.renamed| ==> Survives(IndexByPath(target.entries), delta.renamed, i)
    ensures SameAt(IndexByPath(target.entries), MovePlain(Prepared(base, sequence, delta).idByPath, delta.renamed), p)
  {
    var rs, prepared := delta.renamed, Prepared(base, sequence, delta).idByPath;
    RenamePathsDistinct(base, target, delta);
    if j :| PutLast(rs, p, j) {
      MovePut(prepared, rs, p, j);
      assert RenameOk(IndexById(base.entries), IndexById(target.entries), rs[j]);
      PathFinds(target.entries, IndexById(target.entries)[rs[j].afterId]);
    } else {
      MoveErased(prepared, rs, p);
      if IsOldPath(rs, p) {
        OldPathIsFree(IndexByPath(target.entries), rs, p);
      } else {
        forall i | 0 <= i < |rs| ensures rs[i].newPath != p {
          if rs[i].newPath == p { assert PutLast(rs, p, i); }
        }
        PreparedPathAt(base, target, sequence, delta, p);
      }
    }
  }

  /** An old path that no rename puts last is not a path of the target. */
  lemma OldPathIsFree(idByPath: map<string, u64>, rs: seq<RenamedEntry>, p: string)
    requires forall i, j :: 0 <= i < j < |rs| ==> rs[i].oldPath != rs[j].oldPath
    requires forall i :: 0 <= i < |rs| ==> Survives(idByPath, rs, i)
    requires IsOldPath(rs, p)
    ensures p !in idByPath || exists j :: PutLast(rs, p, j)
  {
    var i :| 0 <= i < |rs| && rs[i].oldPath == p;
    assert Survives(idByPath, rs, i);
    if p in idByPath {
      var j :| i <= j < |rs| && rs[j].newPath == rs[i].oldPath;
      assert PutLast(rs, p, j);
    }
  }

  lemma SurvivesIfRight(base: Snapshot, target: Snapshot, sequence: u64, delta: DeltaSnapshot, i: nat)
    requires UniqueKeys(base) && UniqueKeys(target) && DeltaShape(base, target, delta)
    requires MovePlain(Prepared(base, sequence, delta).idByPath, delta.renamed) == IndexByPath(target.entries)
    requires i < |delta.renamed|
    ensures Survives(IndexByPath(target.entries), delta.renamed, i)
  {
    var rs, p := delta.renamed, delta.renamed[i].oldPath;
    if j :| PutLast(rs, p, j) {
      assert i <= j;
    } else {
      MoveErased(Prepared(base, sequence, delta).idByPath, rs, p);
    }
  }

  lemma RightIfSurvives(base: Snapshot, target: Snapshot, sequence: u64, delta: DeltaSnapshot)
    requires UniqueKeys(base) && UniqueKeys(target) && DeltaShape(base, target, delta)
    requires forall i :: 0 <= i < |delta.renamed| ==> Survives(IndexByPath(target.entries), delta.renamed, i)
    ensures MovePlain(Prepared(base, sequence, delta).idByPath, delta.renamed) == IndexByPath(target.entries)
  {
    var moved := MovePlain(Prepared(base, sequence, delta).idByPath, delta.renamed);
    forall p ensures SameAt(IndexByPath(target.entries), moved, p) { MovedPathAt(base, target, sequence, delta, p); }
    SameEverywhere(IndexByPath(target.entries), moved);
  }

  /** The path index comes out right exactly when no put is erased afterwards. */
  lemma MovedPathsRight(base: Snapshot, target: Snapshot, sequence: u64, delta: DeltaSnapshot)
    requires UniqueKeys(base) && UniqueKeys(target) && DeltaShape(base, target, delta)
    requires forall i :: 0 <= i < |delta.renamed| ==> Paths.Normalize(delta.renamed[i].newPath) == delta.renamed[i].newPath
    ensures (MovedPaths(base, sequence, delta) == IndexByPath(target.entries))
      <==> (forall i :: 0 <= i < |delta.renamed| ==> Survives(IndexByPath(target.entries), delta.renamed, i))
  {
    MovesArePlain(Prepared(base, sequence, delta).idByPath, delta.renamed);
    if MovedPaths(base, sequence, delta) == IndexByPath(target.entries) {
      forall i | 0 <= i < |delta.renamed| ensures Survives(IndexByPath(target.entries), delta.renamed, i) {
        SurvivesIfRight(base, target, sequence, delta, i);
      }
    } else if forall i :: 0 <= i < |delta.renamed| ==> Survives(IndexByPath(target.entries), delta.renamed, i) {
      RightIfSurvives(base, target, sequence, delta);
    }
  }

  // ---- The theorem ----

  /** The state holds exactly the maps that loading the target would give. */
  ghost predicate ShowsTarget(state: HostState, target: Snapshot) {
    state.entriesById == IndexById(target.entries) && state.idByPath == IndexByPath(target.entries)
  }

  lemma StableIfShown(base: map<u64, FileEntry>, target: map<u64, FileEntry>, rs: seq<RenamedEntry>,
                      idByPath: map<string, u64>, id: u64)
    requires RenamesOk(base, target, rs)
    requires ReplayedAt(base, target, rs, idByPath, target, id)
    ensures Stable(base, target, id)
  {
    if id in base && id in target {
      forall i | 0 <= i < |rs| && rs[i].afterId == id
        ensures base[id].kind == target[id].kind && base[id].path != target[id].path
      {
        assert RenameOk(base, target, rs[i]);
      }
    }
  }

  lemma LandsIfShown(base: map<u64, FileEntry>, target: map<u64, FileEntry>, rs: seq<RenamedEntry>,
                     idByPath: map<string, u64>, i: nat)
    requires RenamesOk(base, target, rs) && i < |rs|
    requires ReplayedAt(base, target, rs, idByPath, target, rs[i].afterId)
    ensures Lands(base, target, idByPath, rs[i])
  {
    assert RenameOk(base, target, rs[i]);
  }

  lemma ShownIfReplayable(base: map<u64, FileEntry>, target: map<u64, FileEntry>, rs: seq<RenamedEntry>,
                          idByPath: map<string, u64>, entries: map<u64, FileEntry>, id: u64)
    requires RenamesOk(base, target, rs)
    requires ReplayedAt(base, target, rs, idByPath, entries, id)
    requires Stable(base, target, id)
    requires forall k :: k in target ==> target[k].id == k
    requires forall k :: k in base ==> base[k].id == k
    requires forall i :: 0 <= i < |rs| ==> Lands(base, target, idByPath, rs[i])
    ensures SameAt(target, entries, id)
  {
    if Targets(rs, id) {
      var i :| 0 <= i < |rs| && rs[i].afterId == id;
      assert RenameOk(base, target, rs[i]) && Lands(base, target, idByPath, rs[i]);
      ArrivedIsTarget(base, target, idByPath, rs[i]);
    } else if id in base && id in target && base[id].path != target[id].path {
      SourcesIntro(rs, Rename(base[id], target[id]));
    }
  }

  lemma ArrivedIsTarget(base: map<u64, FileEntry>, target: map<u64, FileEntry>, idByPath: map<string, u64>, r: RenamedEntry)
    requires RenameOk(base, target, r) && Lands(base, target, idByPath, r)
    requires Stable(base, target, r.afterId)
    requires target[r.afterId].id == r.afterId
    ensures Arrived(base, target, idByPath, r) == target[r.afterId]
  {}

  lemma LandsIsNormal(base: map<u64, FileEntry>, target: map<u64, FileEntry>, idByPath: map<string, u64>, rs: seq<RenamedEntry>)
    requires forall i :: 0 <= i < |rs| ==> Lands(base, target, idByPath, rs[i])
    ensures forall i :: 0 <= i < |rs| ==> Paths.Normalize(rs[i].newPath) == rs[i].newPath
  {
    hide Paths.Normalize;
    forall i | 0 <= i < |rs| ensures Paths.Normalize(rs[i].newPath) == rs[i].newPath {
      assert Lands(base, target, idByPath, rs[i]);
    }
  }

  lemma ReplayableIfShown(base: Snapshot, target: Snapshot, loaded: u64, delta: DeltaSnapshot)
    requires UniqueKeys(base) && UniqueKeys(target) && DeltaShape(base, target, delta)
    requires MovedPaths(base, loaded, delta) == IndexByPath(target.entries)
    requires forall id :: ReplayedAt(IndexById(base.entries), IndexById(target.entries), delta.renamed,
                                     IndexByPath(target.entries), IndexById(target.entries), id)
    ensures Replayable(base, target, delta)
  {
    hide Stable, Lands, Survives, MovedPaths, ReplayedAt, IndexById, IndexByPath, Paths.Normalize;
    var baseById, targetById, rs := IndexById(base.entries), IndexById(target.entries), delta.renamed;
    var wanted := IndexByPath(target.entries);
    forall id ensures Stable(baseById, targetById, id) {
      assert ReplayedAt(baseById, targetById, rs, wanted, targetById, id);
      StableIfShown(baseById, targetById, rs, wanted, id);
    }
    forall i | 0 <= i < |rs| ensures Lands(baseById, targetById, wanted, rs[i]) {
      assert ReplayedAt(baseById, targetById, rs, wanted, targetById, rs[i].afterId);
      LandsIfShown(baseById, targetById, rs, wanted, i);
    }
    LandsIsNormal(baseById, targetById, wanted, rs);
    MovedPathsRight(base, target, loaded, delta);
  }

  lemma EntriesIfReplayable(base: Snapshot, target: Snapshot, delta: DeltaSnapshot, entries: map<u64, FileEntry>)
    requires UniqueKeys(base) && UniqueKeys(target) && DeltaShape(base, target, delta)
    requires Replayable(base, target, delta)
    requires forall id :: ReplayedAt(IndexById(base.entries), IndexById(target.entries), delta.renamed,
                                     IndexByPath(target.entries), entries, id)
    ensures entries == IndexById(target.entries)
  {
    var baseById, targetById, rs := IndexById(base.entries), IndexById(target.entries), delta.renamed;
    forall id ensures SameAt(targetById, entries, id) {
      assert ReplayedAt(baseById, targetById, rs, IndexByPath(target.entries), entries, id);
      assert Stable(baseById, targetById, id);
      ShownIfReplayable(baseById, targetById, rs, IndexByPath(target.entries), entries, id);
    }
    SameEverywhere(targetById, entries);
  }

  /** Main result: replaying the delta on the loaded base always succeeds, and it shows the
      target exactly when the pair is replayable. */
  lemma ReplayShowsTargetIff(base: Snapshot, target: Snapshot, loaded: u64, sequence: u64, delta: DeltaSnapshot)
    requires UniqueKeys(base) && UniqueKeys(target) && DeltaShape(base, target, delta)
    ensures var o := Replay(Load(base, loaded), sequence, delta);
      && o.status == Success
      && (ShowsTarget(o.state, target) <==> Replayable(base, target, delta))
  {
    ReplayClosed(base, target, loaded, sequence, delta);
    var state := Replay(Load(base, loaded), sequence, delta).state;
    if ShowsTarget(state, target) {
      ReplayableIfShown(base, target, loaded, delta);
    }
    if Replayable(base, target, delta) {
      LandsIsNormal(IndexById(base.entries), IndexById(target.entries), IndexByPath(target.entries), delta.renamed);
      MovedPathsRight(base, target, loaded, delta);
      EntriesIfReplayable(base, target, delta, state.entriesById);
    }
  }
}
