/** Consequences of the replay theorem: whole chains of deltas, undoing, what a listing shows,
    and families of ordinary edits that a replay gets wrong. */
module ReplayRuns {
  import opened Domain
  import opened Sorting
  import opened Status
  import opened DeltaEngine
  import opened DeltaLaws
  import opened DeltaInverse
  import opened Materializer
  import opened ReplayTheorem
  import Paths

  /** The theorem for what `compute` returns. */
  lemma ReplayOfCompute(base: Snapshot, target: Snapshot, heuristic: bool, hash: Hash,
                        loaded: u64, sequence: u64, delta: DeltaSnapshot)
    requires UniqueKeys(base) && UniqueKeys(target)
    requires IsDelta(base, target, heuristic, hash, delta)
    ensures var o := Replay(Load(base, loaded), sequence, delta);
      && o.status == Success
      && ((o.state.entriesById == Load(target, sequence).entriesById && o.state.idByPath == Load(target, sequence).idByPath)
          <==> Replayable(base, target, delta))
      && o.state.lastSequence == sequence && o.state.lastSnapshotId == target.snapshotId
  {
    ComputeShape(base, target, heuristic, hash, delta);
    ReplayShowsTargetIff(base, target, loaded, sequence, delta);
    ReplayClosed(base, target, loaded, sequence, delta);
    LoadClosed(target, sequence);
  }

  /** A replay looks at the maps and the last snapshot id only. */
  ghost predicate SameTree(s: HostState, t: HostState) {
    s.entriesById == t.entriesById && s.idByPath == t.idByPath && s.lastSnapshotId == t.lastSnapshotId
  }

  lemma {:induction false} IndexAllSameTree(s: HostState, t: HostState, es: seq<FileEntry>)
    requires SameTree(s, t)
    ensures SameTree(IndexAll(s, es), IndexAll(t, es))
  {
    if es != [] { IndexAllSameTree(s, t, es[..|es| - 1]); }
  }

  lemma {:induction false} RemoveAllSameTree(s: HostState, t: HostState, es: seq<FileEntry>)
    requires SameTree(s, t)
    ensures SameTree(RemoveAll(s, es), RemoveAll(t, es))
  {
    if es != [] { RemoveAllSameTree(s, t, es[..|es| - 1]); }
  }

  lemma {:induction false} ModifyAllSameTree(s: HostState, t: HostState, ms: seq<ModifiedEntry>)
    requires SameTree(s, t)
    ensures ModifyAll(s, ms).status == ModifyAll(t, ms).status && SameTree(ModifyAll(s, ms).state, ModifyAll(t, ms).state)
  {
    if ms != [] { ModifyAllSameTree(s, t, ms[..|ms| - 1]); }
  }

  lemma {:induction false} RenameAllSameTree(s: HostState, t: HostState, rs: seq<RenamedEntry>)
    requires SameTree(s, t)
    ensures RenameAll(s, rs).status == RenameAll(t, rs).status && SameTree(RenameAll(s, rs).state, RenameAll(t, rs).state)
  {
    hide Paths.Normalize;
    if rs != [] { RenameAllSameTree(s, t, rs[..|rs| - 1]); }
  }

  lemma {:induction false} ReparentAllSameTree(s: HostState, t: HostState, rs: seq<RenamedEntry>)
    requires SameTree(s, t)
    ensures ReparentAll(s, rs).status == ReparentAll(t, rs).status && SameTree(ReparentAll(s, rs).state, ReparentAll(t, rs).state)
  {
    hide Paths.Filename, ParentIdOf;
    if rs != [] { ReparentAllSameTree(s, t, rs[..|rs| - 1]); }
  }

  lemma ReplaySameTree(s: HostState, t: HostState, sequence: u64, delta: DeltaSnapshot)
    requires SameTree(s, t)
    ensures Replay(s, sequence, delta).status == Replay(t, sequence, delta).status
    ensures SameTree(Replay(s, sequence, delta).state, Replay(t, sequence, delta).state)
  {
    RemoveAllSameTree(s, t, delta.removed);
    IndexAllSameTree(RemoveAll(s, delta.removed), RemoveAll(t, delta.removed), delta.added);
    var s1, t1 := IndexAll(RemoveAll(s, delta.removed), delta.added), IndexAll(RemoveAll(t, delta.removed), delta.added);
    ModifyAllSameTree(s1, t1, delta.modified);
    var s2, t2 := ModifyAll(s1, delta.modified).state, ModifyAll(t1, delta.modified).state;
    RenameAllSameTree(s2, t2, delta.renamed);
    ReparentAllSameTree(RenameAll(s2, delta.renamed).state, RenameAll(t2, delta.renamed).state, delta.renamed);
  }

  // ---- Chains of deltas ----

  ghost predicate IsChain(snapshots: seq<Snapshot>, deltas: seq<DeltaSnapshot>) {
    && |snapshots| == |deltas| + 1
    && (forall i :: 0 <= i < |snapshots| ==> UniqueKeys(snapshots[i]))
    && (forall i :: 0 <= i < |deltas| ==>
         DeltaShape(snapshots[i], snapshots[i + 1], deltas[i]) && Replayable(snapshots[i], snapshots[i + 1], deltas[i]))
  }

  function ReplayChain(s: HostState, sequence: u64, deltas: seq<DeltaSnapshot>): Outcome {
    if deltas == [] then Outcome(Success, s)
    else
      var o := ReplayChain(s, sequence, deltas[..|deltas| - 1]);
      if o.status.Failure? then o else Replay(o.state, sequence, deltas[|deltas| - 1])
  }

  /** Any number of replayable deltas, applied one after the other to the first snapshot,
      shows the last one. */
  lemma {:induction false} ChainShowsLast(snapshots: seq<Snapshot>, deltas: seq<DeltaSnapshot>, loaded: u64, sequence: u64)
    requires IsChain(snapshots, deltas)
    ensures var o := ReplayChain(Load(snapshots[0], loaded), sequence, deltas);
      && o.status == Success
      && SameTree(o.state, Load(snapshots[|deltas|], sequence))
  {
    var n := |deltas|;
    if n == 0 {
      LoadClosed(snapshots[0], sequence);
      LoadClosed(snapshots[0], loaded);
    } else {
      assert forall i :: 0 <= i < n ==> snapshots[..n][i] == snapshots[i];
      ChainShowsLast(snapshots[..n], deltas[..n - 1], loaded, sequence);
      var before := ReplayChain(Load(snapshots[0], loaded), sequence, deltas[..n - 1]).state;
      ReplaySameTree(before, Load(snapshots[n - 1], sequence), sequence, deltas[n - 1]);
      ReplayIsLoad(snapshots[n - 1], snapshots[n], deltas[n - 1], sequence, sequence);
    }
  }

  /** Replaying a delta and then its inverse brings the base back exactly when, the delta being
      replayable, its inverse is replayable as well. */
  lemma ReplayThenUndo(base: Snapshot, target: Snapshot, heuristic: bool, hash: Hash,
                       delta: DeltaSnapshot, inverse: DeltaSnapshot, loaded: u64, sequence: u64)
    requires UniqueKeys(base) && UniqueKeys(target)
    requires IsDelta(base, target, heuristic, hash, delta) && IsInverse(delta, inverse)
    requires Replayable(base, target, delta)
    ensures var o := Replay(Replay(Load(base, loaded), sequence, delta).state, sequence, inverse);
      o.status == Success && (ShowsTarget(o.state, base) <==> Replayable(target, base, inverse))
  {
    InverseIsDelta(base, target, heuristic, hash, delta, inverse);
    ComputeShape(base, target, heuristic, hash, delta);
    ComputeShape(target, base, heuristic, hash, inverse);
    ReplayIsLoad(base, target, delta, loaded, sequence);
    ReplaySameTree(Replay(Load(base, loaded), sequence, delta).state, Load(target, sequence), sequence, inverse);
    ReplayShowsTargetIff(target, base, sequence, sequence, inverse);
  }

  lemma ReplayIsLoad(base: Snapshot, target: Snapshot, delta: DeltaSnapshot, loaded: u64, sequence: u64)
    requires UniqueKeys(base) && UniqueKeys(target) && DeltaShape(base, target, delta)
    requires Replayable(base, target, delta)
    ensures var o := Replay(Load(base, loaded), sequence, delta);
      o.status == Success && SameTree(o.state, Load(target, sequence))
  {
    ReplayShowsTargetIff(base, target, loaded, sequence, delta);
    ReplayClosed(base, target, loaded, sequence, delta);
    LoadClosed(target, sequence);
  }

  // ---- The two maps index each other ----

  ghost predicate MutuallyInverse(entries: map<u64, FileEntry>, paths: map<string, u64>) {
    && (forall id :: id in entries ==>
         entries[id].id == id && entries[id].path in paths && paths[entries[id].path] == id)
    && (forall p :: p in paths ==> paths[p] in entries && entries[paths[p]].path == p)
  }

  lemma IndexesMutuallyInverse(es: seq<FileEntry>)
    requires UniqueIds(es) && UniquePaths(es)
    ensures MutuallyInverse(IndexById(es), IndexByPath(es))
  {
    forall id | id in IndexById(es)
      ensures IndexById(es)[id].path in IndexByPath(es) && IndexByPath(es)[IndexById(es)[id].path] == id
    {
      PathFinds(es, IndexById(es)[id]);
    }
    forall p | p in IndexByPath(es)
      ensures IndexByPath(es)[p] in IndexById(es) && IndexById(es)[IndexByPath(es)[p]].path == p
    {
      var e :| e in es && e.path == p;
      PathFinds(es, e);
      IndexFinds(es, e);
    }
  }

  /** After a replay of a replayable pair, each map is the index of the other. */
  lemma ReplayMutuallyInverse(base: Snapshot, target: Snapshot, delta: DeltaSnapshot, loaded: u64, sequence: u64)
    requires UniqueKeys(base) && UniqueKeys(target) && DeltaShape(base, target, delta)
    requires Replayable(base, target, delta)
    ensures var s := Replay(Load(base, loaded), sequence, delta).state; MutuallyInverse(s.entriesById, s.idByPath)
  {
    ReplayShowsTargetIff(base, target, loaded, sequence, delta);
    IndexesMutuallyInverse(target.entries);
  }

  // ---- Listings ----

  /** Names and parents agree with the paths, as the builder makes them. */
  ghost predicate PathShaped(s: Snapshot) {
    forall e :: e in s.entries ==>
      && e.id != 0
      && e.name == Paths.Filename(e.path)
      && e.parentId == ParentIdOf(IndexByPath(s.entries), e.path)
  }

  /** In a state that shows a path-shaped snapshot, the entries listed under a directory are
      those whose parent path is the directory's path. */
  lemma ListingFollowsPaths(snapshot: Snapshot, directory: FileEntry, e: FileEntry)
    requires UniqueKeys(snapshot) && PathShaped(snapshot)
    requires directory in snapshot.entries && e in snapshot.entries
    ensures e.parentId == directory.id <==> Paths.Parent(e.path) == directory.path && e.path != directory.path && directory.path != ""
  {
    IndexesMutuallyInverse(snapshot.entries);
    IndexFinds(snapshot.entries, directory);
    PathFinds(snapshot.entries, directory);
  }

  // ---- A sufficient condition that does not look at the order of the renames ----

  /** Both snapshots name and hang their entries by path, shared ids keep their type, those that
      stay keep their parent, renames between two ids keep the metadata, and no path that a
      rename leaves is used again. */
  ghost predicate Coherent(base: Snapshot, target: Snapshot, delta: DeltaSnapshot) {
    var b, t := IndexById(base.entries), IndexById(target.entries);
    && PathShaped(base) && PathShaped(target)
    && (forall e :: e in target.entries ==> Paths.Normalize(e.path) == e.path)
    && (forall id :: id in b && id in t ==> b[id].kind == t[id].kind)
    && (forall id :: id in b && id in t && b[id].path == t[id].path ==> b[id].parentId == t[id].parentId)
    && (forall r :: r in delta.renamed && r.beforeId != r.afterId && r.beforeId in b && r.afterId in t ==>
         b[r.beforeId].metadata == t[r.afterId].metadata)
    && (forall r :: r in delta.renamed ==> r.oldPath !in PathsOf(target.entries))
  }

  lemma CoherentReplays(base: Snapshot, target: Snapshot, heuristic: bool, hash: Hash,
                        delta: DeltaSnapshot, loaded: u64, sequence: u64)
    requires UniqueKeys(base) && UniqueKeys(target)
    requires IsDelta(base, target, heuristic, hash, delta)
    requires Coherent(base, target, delta)
    ensures Replayable(base, target, delta)
    ensures var o := Replay(Load(base, loaded), sequence, delta);
      o.status == Success && SameTree(o.state, Load(target, sequence))
  {
    ComputeShape(base, target, heuristic, hash, delta);
    var b, t, rs := IndexById(base.entries), IndexById(target.entries), delta.renamed;
    forall i | 0 <= i < |rs|
      ensures Lands(b, t, IndexByPath(target.entries), rs[i]) && Survives(IndexByPath(target.entries), rs, i)
    {
      assert rs[i] in rs && RenameOk(b, t, rs[i]);
      assert t[rs[i].afterId] in target.entries;
    }
    forall id ensures Stable(b, t, id) {
      if id in b && id in t { assert b[id] in base.entries && t[id] in target.entries; }
    }
    ReplayIsLoad(base, target, delta, loaded, sequence);
  }

  // ---- Edits that a replay gets wrong ----

  lemma RenameListed(base: Snapshot, target: Snapshot, delta: DeltaSnapshot, id: u64) returns (i: nat)
    requires DeltaShape(base, target, delta)
    requires id in IndexById(base.entries) && id in IndexById(target.entries)
    requires IndexById(base.entries)[id].path != IndexById(target.entries)[id].path
    ensures i < |delta.renamed| && delta.renamed[i] == Rename(IndexById(base.entries)[id], IndexById(target.entries)[id])
  {
    var r := Rename(IndexById(base.entries)[id], IndexById(target.entries)[id]);
    assert r in delta.renamed;
    i :| 0 <= i < |delta.renamed| && delta.renamed[i] == r;
  }

  lemma AddedIsNoRenameEnd(base: Snapshot, target: Snapshot, delta: DeltaSnapshot, newcomer: FileEntry, j: nat)
    requires UniqueKeys(target) && DeltaShape(base, target, delta)
    requires newcomer in delta.added && j < |delta.renamed|
    ensures delta.renamed[j].newPath != newcomer.path
  {
    assert RenameOk(IndexById(base.entries), IndexById(target.entries), delta.renamed[j]);
    SamePathSameEntry(target.entries, newcomer, IndexById(target.entries)[delta.renamed[j].afterId]);
  }

  /** A file is moved away and a new file takes its place: the new file loses its path. */
  lemma ReplacedFileIsLost(base: Snapshot, target: Snapshot, delta: DeltaSnapshot, moved: u64, newcomer: FileEntry)
    requires UniqueKeys(base) && UniqueKeys(target) && DeltaShape(base, target, delta)
    requires moved in IndexById(base.entries) && moved in IndexById(target.entries)
    requires IndexById(base.entries)[moved].path == newcomer.path != IndexById(target.entries)[moved].path
    requires newcomer in delta.added
    ensures !Replayable(base, target, delta)
  {
    var i := RenameListed(base, target, delta, moved);
    AddedInTarget(base, target, delta, newcomer);
    hide DeltaShape;
    forall j | i <= j < |delta.renamed| ensures delta.renamed[j].newPath != delta.renamed[i].oldPath {
      AddedIsNoRenameEnd(base, target, delta, newcomer, j);
    }
    assert !Survives(IndexByPath(target.entries), delta.renamed, i);
  }

  lemma AddedInTarget(base: Snapshot, target: Snapshot, delta: DeltaSnapshot, e: FileEntry)
    requires UniqueKeys(target) && DeltaShape(base, target, delta) && e in delta.added
    ensures e in target.entries && e.path in IndexByPath(target.entries)
  {
    PathFinds(target.entries, e);
  }

  lemma ListedInOrder(rs: seq<RenamedEntry>, i: nat, k: nat)
    requires SortedBy(ByRename, rs) && i < |rs| && k < |rs|
    requires StringLess(rs[k].oldPath, rs[i].oldPath)
    ensures k < i
  {
    StringLessIrreflexive(rs[k].oldPath);
    var less := ByRename;
    assert less(rs[k], rs[i]);
  }

  /** One entry moves onto the path that another one leaves, and its old path sorts first:
      the second move erases what the first has put. Every swap is of this kind. */
  lemma TakenPathIsLost(base: Snapshot, target: Snapshot, delta: DeltaSnapshot, first: u64, second: u64)
    requires UniqueKeys(base) && UniqueKeys(target) && DeltaShape(base, target, delta)
    requires first in IndexById(base.entries) && first in IndexById(target.entries)
    requires second in IndexById(base.entries) && second in IndexById(target.entries)
    requires var b, t := IndexById(base.entries), IndexById(target.entries);
      t[first].path == b[second].path && t[second].path != b[second].path && StringLess(b[first].path, b[second].path)
    ensures !Replayable(base, target, delta)
  {
    var b, t, rs := IndexById(base.entries), IndexById(target.entries), delta.renamed;
    StringLessIrreflexive(b[first].path);
    var i := RenameListed(base, target, delta, second);
    var k := RenameListed(base, target, delta, first);
    ListedInOrder(rs, i, k);
    PathFinds(target.entries, t[first]);
    RenamePathsDistinct(base, target, delta);
    assert rs[i].oldPath == rs[k].newPath;
    assert !Survives(IndexByPath(target.entries), rs, i);
  }

  /** A root directory with two files of the given names. */
  function TwoFiles(id: u64, name2: string, name3: string): Snapshot {
    var meta := FileMetadata(0, 1, 1, 1, 0, 0, 0, None);
    Snapshot(CURRENT_SCHEMA, id, 1, "h", 1, [
      FileEntry(1, 0, "/", "", DIRECTORY, meta),
      FileEntry(2, 1, "/" + name2, name2, FILE, meta),
      FileEntry(3, 1, "/" + name3, name3, FILE, meta)])
  }

  lemma TwoFilesIndexed(id: u64, name2: string, name3: string)
    requires name2 != name3 && name2 != "" && name3 != ""
    ensures UniqueKeys(TwoFiles(id, name2, name3))
    ensures var m := IndexById(TwoFiles(id, name2, name3).entries);
      2 in m && m[2].path == "/" + name2 && 3 in m && m[3].path == "/" + name3
  {
    var es := TwoFiles(id, name2, name3).entries;
    assert es[1].path[1..] == name2 && es[2].path[1..] == name3;
    assert |es[0].path| == 1;
    IndexFinds(es, es[1]);
    IndexFinds(es, es[2]);
  }

  /** A concrete swap of two file names, on which the replay and the target disagree. */
  lemma SwapIsLost(heuristic: bool, hash: Hash, delta: DeltaSnapshot, loaded: u64, sequence: u64)
    requires IsDelta(TwoFiles(1, "a", "b"), TwoFiles(2, "b", "a"), heuristic, hash, delta)
    ensures !ShowsTarget(Replay(Load(TwoFiles(1, "a", "b"), loaded), sequence, delta).state, TwoFiles(2, "b", "a"))
  {
    var a, b := "/" + "a", "/" + "b";
    assert a[1] == 'a' && b[1] == 'b';
    assert a[1..][0] < b[1..][0] && StringLess(a[1..], b[1..]) && StringLess(a, b);
    var base, target := TwoFiles(1, "a", "b"), TwoFiles(2, "b", "a");
    TwoFilesIndexed(1, "a", "b");
    TwoFilesIndexed(2, "b", "a");
    ComputeShape(base, target, heuristic, hash, delta);
    TakenPathIsLost(base, target, delta, 2, 3);
    ReplayShowsTargetIff(base, target, loaded, sequence, delta);
  }
}
