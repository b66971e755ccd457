/** From scans to the gateway: builds have the shape that a replay works on, and of two builds in
    which no path passes to another file, the replay of the delta shows the second. */
module BuildReplay {
  import opened Domain
  import opened Sorting
  import opened Builder
  import opened BuildTheorem
  import opened DeltaEngine
  import opened DeltaLaws
  import opened DeltaOrder
  import opened Graph
  import opened Materializer
  import opened ReplayRuns
  import opened ReplayTheorem
  import opened Status
  import opened TreeTheorem
  import opened Validators
  import Paths
  import Text

  // ---- A build is path-shaped ----

  lemma {:induction false} IndexIsIdAtPath(es: seq<FileEntry>, path: string)
    ensures if path in IndexByPath(es) then IdAtPath(es, path) == IndexByPath(es)[path] else IdAtPath(es, path) == 0
  {
    if es != [] { IndexIsIdAtPath(es[..|es| - 1], path); }
  }

  lemma AbsoluteHasParent(path: string)
    requires Paths.IsAbsolute(path)
    ensures Paths.Parent(path) != ""
  {
    assert Paths.Filename(path) != path by { assert path[0] == '/'; }
  }

  /** In a tree of paths no path is shorter than the root's. */
  lemma {:induction false} RootIsShortest(es: seq<FileEntry>, root: string, e: FileEntry)
    requires PathTree(es, root) && e in es
    ensures |root| <= |e.path|
    decreases |e.path|
  {
    hide Paths.Parent;
    if e.path != root {
      assert UnderDirectory(es, e.path);
      var d :| d in es && d.path == Paths.Parent(e.path) && d.kind == DIRECTORY;
      Paths.ParentIsShorter(e.path);
      RootIsShortest(es, root, d);
    }
  }

  /** So the parent of the root lies outside of the tree. */
  lemma RootIsTop(es: seq<FileEntry>, root: string)
    requires PathTree(es, root)
    ensures Paths.Parent(root) == root || Paths.Parent(root) !in PathsOf(es)
  {
    hide Paths.Parent, PathTree;
    if Paths.Parent(root) != root && Paths.Parent(root) in PathsOf(es) {
      var e :| e in es && e.path == Paths.Parent(root);
      RootIsShortest(es, root, e);
      Paths.ParentIsShorter(root);
    }
  }

  /** A tree hung by path has the parents that replaying a rename recomputes. */
  lemma TreeParents(s: Snapshot, root: string, e: FileEntry)
    requires Keyed(s) && HangsByPath(s, root) && PathTree(s.entries, root)
    requires e in s.entries && Paths.IsAbsolute(e.path)
    ensures e.parentId == ParentIdOf(IndexByPath(s.entries), e.path)
  {
    hide Paths.Parent, Paths.IsAbsolute;
    RootIsTop(s.entries, root);
    IndexIsIdAtPath(s.entries, Paths.Parent(e.path));
    AbsoluteHasParent(e.path);
    assert LinkedByPath(s.entries, root, e);
    if e.path != root { assert UnderDirectory(s.entries, e.path); }
  }

  /** The names of a scan are empty or the file names of the paths, as the scanner makes them. */
  ghost predicate NamedByPath(raws: seq<RawEntry>) {
    forall raw :: raw in raws ==> raw.name == "" || raw.name == Paths.Filename(Paths.Normalize(raw.path))
  }

  lemma PathsOkAbsolute(s: Snapshot, e: FileEntry)
    requires PathsOk(s) && e in s.entries
    ensures Paths.IsAbsolute(e.path)
  {
    hide Paths.Normalize, Paths.HasTraversal;
    var i :| 0 <= i < |s.entries| && s.entries[i] == e;
    assert !PathBad(s, i);
  }

  /** Main result: an accepted build has the parents that replaying a rename recomputes, and its
      names as well exactly when they are the file names, as for every scan named by path. */
  lemma BuildIsPathShaped(hash: Hash, digest: Digest, scan: RawScan, options: BuildOptions, r: BuildResult)
    requires Probing(hash, scan.entries) && IsBuild(hash, digest, scan, options, r)
    requires HeaderOk(r.snapshot) && IdentityOk(r.snapshot) && GraphOk(r.snapshot) && PathsOk(r.snapshot)
    ensures PathShaped(r.snapshot) <==> forall e :: e in r.snapshot.entries ==> e.name == Paths.Filename(e.path)
    ensures NamedByPath(scan.entries) ==> PathShaped(r.snapshot)
  {
    hide Paths.Normalize, Paths.Filename, Paths.Parent, Paths.IsAbsolute, Permutation, HeaderOk, IdentityOk, GraphOk, PathsOk;
    hide HangsByPath, PathTree, RootPath, SamePlaces, BuildFrom, ProbesEnd, FromScan, ParentIdOf;
    var s, root := r.snapshot, RootPath(r.snapshot.entries, Paths.Normalize(scan.rootPath));
    BuildAcceptedIff(hash, digest, scan, options, r);
    BuildIsKeyed(hash, digest, scan, options, r);
    var raws :| IsBuildVia(hash, digest, scan, options, raws, r);
    assert ProbesEnd(hash, raws);
    BuildHangsByPath(hash, digest, scan, options, raws, r);
    forall e | e in s.entries ensures e.parentId == ParentIdOf(IndexByPath(s.entries), e.path) {
      PathsOkAbsolute(s, e);
      TreeParents(s, root, e);
    }
    if NamedByPath(scan.entries) {
      forall e | e in s.entries ensures e.name == Paths.Filename(e.path) { NamedAs(scan.entries, e); }
    }
  }

  lemma NamedAs(raws: seq<RawEntry>, e: FileEntry)
    requires NamedByPath(raws) && FromScan(raws, e)
    ensures e.name == Paths.Filename(e.path)
  {
    hide Paths.Normalize, Paths.Filename;
    var raw :| raw in raws && e.(parentId := 0) == MakeEntry(raw, e.id);
  }

  // ---- From one snapshot to the next ----

  /** A path keeps its entry, unless that entry is gone and what is there now is no directory. */
  ghost predicate OwnersKept(base: Snapshot, target: Snapshot) {
    forall e, f :: e in base.entries && f in target.entries && e.path == f.path ==>
      e.id == f.id || (f.kind != DIRECTORY && e.id !in Ids(target.entries))
  }

  ghost predicate KindsKept(base: Snapshot, target: Snapshot) {
    forall e, f :: e in base.entries && f in target.entries && e.id == f.id ==> e.kind == f.kind
  }

  /** Entries that the heuristic may pair have the same metadata, and the old path stays free. */
  ghost predicate HeuristicIsSafe(base: Snapshot, target: Snapshot, hash: Hash) {
    forall e, f ::
      (e in base.entries && f in target.entries && e.id !in Ids(target.entries) && f.id !in Ids(base.entries)
       && MakeFingerprint(hash, e) == MakeFingerprint(hash, f)) ==>
        e.metadata == f.metadata && e.path !in PathsOf(target.entries)
  }

  /** An unmoved entry keeps its parent: its parent path is a directory on both sides. */
  lemma ParentKept(base: Snapshot, target: Snapshot, root: string, path: string)
    requires UniqueKeys(base) && UniqueKeys(target) && OwnersKept(base, target)
    requires PathTree(base.entries, root) && PathTree(target.entries, root)
    requires path in PathsOf(base.entries) && path in PathsOf(target.entries)
    ensures ParentIdOf(IndexByPath(base.entries), path) == ParentIdOf(IndexByPath(target.entries), path)
  {
    hide Paths.Parent;
    RootIsTop(base.entries, root);
    RootIsTop(target.entries, root);
    if path != root {
      assert UnderDirectory(base.entries, path) && UnderDirectory(target.entries, path);
      var d :| d in base.entries && d.path == Paths.Parent(path) && d.kind == DIRECTORY;
      var g :| g in target.entries && g.path == Paths.Parent(path) && g.kind == DIRECTORY;
      PathFinds(base.entries, d);
      PathFinds(target.entries, g);
    }
  }

  /** A path that a rename leaves is free in the target. */
  lemma OldPathFree(base: Snapshot, target: Snapshot, heuristic: bool, hash: Hash, delta: DeltaSnapshot, r: RenamedEntry)
    requires UniqueKeys(base) && UniqueKeys(target) && IsDelta(base, target, heuristic, hash, delta)
    requires OwnersKept(base, target) && (heuristic ==> HeuristicIsSafe(base, target, hash))
    requires r in delta.renamed
    ensures r.oldPath !in PathsOf(target.entries)
  {
    hide IsDelta, MakeFingerprint, OwnersKept, UniqueKeys, PathsOf, Ids;
    if r.beforeId != r.afterId {
      var e, f := HeuristicRename(base, target, heuristic, hash, delta, r);
    } else {
      ComputeShape(base, target, heuristic, hash, delta);
      assert RenameOk(IndexById(base.entries), IndexById(target.entries), r);
      hide DeltaShape, HeuristicIsSafe;
      MovedAway(base, target, r.beforeId);
    }
  }

  /** An entry that moved has left its path, and nothing else has taken it. */
  lemma MovedAway(base: Snapshot, target: Snapshot, id: u64)
    requires UniqueKeys(target) && OwnersKept(base, target)
    requires id in IndexById(base.entries) && id in IndexById(target.entries)
    requires IndexById(base.entries)[id].path != IndexById(target.entries)[id].path
    ensures IndexById(base.entries)[id].path !in PathsOf(target.entries)
  {
    hide IndexById;
    var e, moved := IndexById(base.entries)[id], IndexById(target.entries)[id];
    assert e in base.entries && moved in target.entries && moved.id == e.id;
    forall f | f in target.entries ensures f.path != e.path { SameIdSame(target.entries, f, moved); }
  }

  lemma SameIdSame(es: seq<FileEntry>, e: FileEntry, f: FileEntry)
    requires UniqueIds(es) && e in es && f in es
    ensures e.id == f.id ==> e == f
  {}

  /** Path-shaped snapshots under the same root in which no path passes on are coherent. */
  lemma KeptIsCoherent(base: Snapshot, target: Snapshot, root: string, heuristic: bool, hash: Hash, delta: DeltaSnapshot)
    requires UniqueKeys(base) && UniqueKeys(target) && IsDelta(base, target, heuristic, hash, delta)
    requires PathShaped(base) && PathShaped(target)
    requires PathTree(base.entries, root) && PathTree(target.entries, root)
    requires forall e :: e in target.entries ==> Paths.Normalize(e.path) == e.path
    requires KindsKept(base, target) && OwnersKept(base, target) && (heuristic ==> HeuristicIsSafe(base, target, hash))
    ensures Coherent(base, target, delta)
  {
    hide IsDelta, MakeFingerprint, PathTree, Paths.Normalize, Paths.Filename, ParentIdOf, OwnersKept, HeuristicIsSafe;
    hide UniqueIds, UniquePaths, PathsOf;
    var b, t := IndexById(base.entries), IndexById(target.entries);
    forall id | id in b && id in t && b[id].path == t[id].path ensures b[id].parentId == t[id].parentId {
      HasItsPath(base.entries, b[id]);
      HasItsPath(target.entries, t[id]);
      ParentKept(base, target, root, b[id].path);
    }
    forall r | r in delta.renamed ensures r.oldPath !in PathsOf(target.entries) {
      OldPathFree(base, target, heuristic, hash, delta, r);
    }
    forall r | r in delta.renamed && r.beforeId != r.afterId && r.beforeId in b && r.afterId in t
      ensures b[r.beforeId].metadata == t[r.afterId].metadata
    {
      var e, f := HeuristicRename(base, target, heuristic, hash, delta, r);
      IndexFinds(base.entries, e);
      IndexFinds(target.entries, f);
      PairedAlike(base, target, hash, e, f);
    }
  }

  lemma HasItsPath(es: seq<FileEntry>, e: FileEntry)
    requires e in es
    ensures e.path in PathsOf(es)
  {}

  lemma PairedAlike(base: Snapshot, target: Snapshot, hash: Hash, e: FileEntry, f: FileEntry)
    requires HeuristicIsSafe(base, target, hash) && MakeFingerprint(hash, e) == MakeFingerprint(hash, f)
    requires e in base.entries && e.id !in Ids(target.entries) && f in target.entries && f.id !in Ids(base.entries)
    ensures e.metadata == f.metadata
  {}

  // ---- In terms of the scans ----

  /** What identifies a scanned entry: its type with its device and inode, or with its path. */
  function KeyOf(raw: RawEntry): string {
    BaseKey(raw, Paths.Normalize(raw.path))
  }

  function PlainId(hash: Hash, raw: RawEntry): u64 {
    CandidateId(hash, raw, Paths.Normalize(raw.path), 0)
  }

  ghost predicate NoCollisions(hash: Hash, raws: seq<RawEntry>) {
    forall x, y :: x in raws && y in raws && PlainId(hash, x) == PlainId(hash, y) ==> KeyOf(x) == KeyOf(y)
  }

  ghost predicate NoHardLinks(raws: seq<RawEntry>) {
    forall x, y :: x in raws && y in raws && KeyOf(x) == KeyOf(y) ==> Paths.Normalize(x.path) == Paths.Normalize(y.path)
  }

  /** The entry has the id that the first probe finds for its source. */
  ghost predicate FromPlain(hash: Hash, raws: seq<RawEntry>, e: FileEntry) {
    exists raw :: raw in raws && e.(parentId := 0) == MakeEntry(raw, PlainId(hash, raw))
  }

  ghost predicate PlainOk(hash: Hash, all: seq<RawEntry>, g: Gathered) {
    g.usedIds.Keys == Ids(g.entries) && forall e :: e in g.entries ==> FromPlain(hash, all, e)
  }

  lemma PlainApart(hash: Hash, all: seq<RawEntry>, e: FileEntry, raw: RawEntry)
    requires NoCollisions(hash, all) && NoHardLinks(all) && FromPlain(hash, all, e) && raw in all
    requires e.path != Paths.Normalize(raw.path)
    ensures e.id != PlainId(hash, raw)
  {
    hide Paths.Normalize, Paths.Filename, CandidateId, BaseKey;
    var source :| source in all && e.(parentId := 0) == MakeEntry(source, PlainId(hash, source));
    assert e.id == PlainId(hash, source) && e.path == Paths.Normalize(source.path);
  }

  lemma PlainFresh(hash: Hash, all: seq<RawEntry>, g: Gathered, raw: RawEntry)
    requires NoCollisions(hash, all) && NoHardLinks(all) && PlainOk(hash, all, g) && raw in all
    requires Paths.Normalize(raw.path) !in PathsOf(g.entries)
    ensures PlainId(hash, raw) !in g.usedIds.Keys
    ensures Probes(hash, raw, Paths.Normalize(raw.path), g.usedIds.Keys) == 0
  {
    hide Paths.Normalize, Paths.Filename, CandidateId, BaseKey, Probes;
    forall e | e in g.entries ensures e.id != PlainId(hash, raw) { PlainApart(hash, all, e, raw); }
    var m := FirstFreshBelow(hash, raw, Paths.Normalize(raw.path), g.usedIds.Keys, 0);
  }

  lemma PlainStep(hash: Hash, all: seq<RawEntry>, g: Gathered, raw: RawEntry)
    requires NoCollisions(hash, all) && NoHardLinks(all) && PlainOk(hash, all, g) && raw in all
    ensures PlainOk(hash, all, GatherOne(hash, g, raw))
    ensures Paths.Normalize(raw.path) in PathsOf(g.entries) || ProbeEnds(hash, raw, Paths.Normalize(raw.path), g.usedIds.Keys)
  {
    hide Paths.Normalize, Paths.Filename, CandidateId, CandidateKey, BaseKey, Probes, NoCollisions, NoHardLinks, PathsOf, Ids, MakeEntry;
    if Paths.Normalize(raw.path) !in PathsOf(g.entries) {
      PlainFresh(hash, all, g, raw);
      var e := MakeEntry(raw, PlainId(hash, raw));
      KeysAppend(g.entries, e);
      MadeWith(raw, PlainId(hash, raw));
      assert FromPlain(hash, all, e);
    }
  }

  lemma MadeWith(raw: RawEntry, id: u64)
    ensures MakeEntry(raw, id).id == id && MakeEntry(raw, id).parentId == 0
  {}

  /** Without collisions and hard links every entry gets the id of its first probe, and no probe
      runs on. */
  lemma {:induction false} PlainGather(hash: Hash, raws: seq<RawEntry>, all: seq<RawEntry>)
    requires NoCollisions(hash, all) && NoHardLinks(all) && forall raw :: raw in raws ==> raw in all
    ensures PlainOk(hash, all, Gather(hash, raws))
    ensures ProbesEnd(hash, raws)
  {
    hide GatherOne, NoCollisions, NoHardLinks, FromPlain, ProbeEnds, Paths.Normalize;
    if raws != [] {
      var n := |raws| - 1;
      var front := raws[..n];
      PlainGather(hash, front, all);
      PlainStep(hash, all, Gather(hash, front), raws[n]);
      forall i | 0 <= i < |raws| ensures ProbeEndsAt(hash, raws, i) {
        if i < n { assert ProbeEndsAt(hash, front, i) && front[..i] == raws[..i]; }
      }
    }
  }

  lemma PlainProbing(hash: Hash, scanned: seq<RawEntry>)
    requires NoCollisions(hash, scanned) && NoHardLinks(scanned)
    ensures Probing(hash, scanned)
  {
    hide NoCollisions, NoHardLinks, ProbesEnd, Permutation, SortedBy;
    forall raws | SortedBy(ByRawPath, raws) && Permutation(raws, scanned) ensures ProbesEnd(hash, raws) {
      PermutationMembers(raws, scanned);
      PlainGather(hash, raws, scanned);
    }
  }

  lemma PlainBuild(hash: Hash, digest: Digest, scan: RawScan, options: BuildOptions, r: BuildResult)
    requires NoCollisions(hash, scan.entries) && NoHardLinks(scan.entries) && IsBuild(hash, digest, scan, options, r)
    ensures forall e :: e in r.snapshot.entries ==> FromPlain(hash, scan.entries, e)
  {
    hide NoCollisions, NoHardLinks, ProbesEnd, Permutation, BuildFrom, HangsByPath, Gather, MakeEntry, PlainId;
    var raws :| IsBuildVia(hash, digest, scan, options, raws, r);
    PermutationMembers(raws, scan.entries) by { assert Permutation(raws, scan.entries); }
    PlainGather(hash, raws, scan.entries);
    BuildHangsByPath(hash, digest, scan, options, raws, r);
    var es, fs := Gather(hash, raws).entries, r.snapshot.entries;
    forall e | e in fs ensures FromPlain(hash, scan.entries, e) {
      var i :| 0 <= i < |fs| && fs[i] == e;
      assert es[i] in es && FromPlain(hash, scan.entries, es[i]);
      var raw :| raw in scan.entries && es[i].(parentId := 0) == MakeEntry(raw, PlainId(hash, raw));
      assert e.(parentId := 0) == es[i].(parentId := 0);
    }
  }

  /** The key starts with the type, up to its first bar. */
  lemma KeyHasKind(x: RawEntry, y: RawEntry)
    requires KeyOf(x) == KeyOf(y)
    ensures x.kind == y.kind
  {
    hide KeyOf;
    KeyShape(x);
    KeyShape(y);
    Text.DecimalInjective(x.kind, y.kind);
  }

  lemma KeyShape(raw: RawEntry)
    ensures var a, key := Text.Decimal(raw.kind), KeyOf(raw);
      |key| > |a| && key[..|a|] == a && key[|a|] == '|' && forall i :: 0 <= i < |a| ==> key[i] != '|'
  {
    hide Paths.Normalize;
  }

  /** A scan of a rooted tree with absolute paths, names by path and no hard links. */
  ghost predicate CleanScan(scan: RawScan) {
    && scan.hostIdentifier != "" && ScanIsTree(scan)
    && NamedByPath(scan.entries) && NoHardLinks(scan.entries)
    && forall raw :: raw in scan.entries ==> Paths.IsAbsolute(Paths.Normalize(raw.path)) && raw.kind <= SPECIAL
  }

  /** A path is scanned as the same file again, unless that file is gone and what is at the path
      now is no directory. */
  ghost predicate PathsKept(first: seq<RawEntry>, second: seq<RawEntry>) {
    forall x, y :: x in first && y in second && Paths.Normalize(x.path) == Paths.Normalize(y.path) ==>
      KeyOf(x) == KeyOf(y) || (y.kind != DIRECTORY && forall z :: z in second ==> KeyOf(z) != KeyOf(x))
  }

  /** The key is not scanned, except perhaps where two entries are scanned at one path. */
  ghost predicate Missing(raws: seq<RawEntry>, x: RawEntry) {
    forall z :: z in raws && KeyOf(z) == KeyOf(x) ==>
      exists other :: other in raws && Paths.Normalize(other.path) == Paths.Normalize(z.path) && KeyOf(other) != KeyOf(z)
  }

  predicate HasInode(raw: RawEntry) {
    raw.metadata.deviceId != 0 && raw.metadata.fileId != 0
  }

  /** Two entries without inodes that look alike to the heuristic, one gone and one new, have the same
      metadata, and the path of the one that is gone is not scanned again. With inodes the
      heuristic pairs nothing. */
  ghost predicate PairsSafely(hash: Hash, first: seq<RawEntry>, second: seq<RawEntry>) {
    forall x, y ::
      (x in first && y in second && !HasInode(x) && Missing(second, x) && Missing(first, y)
       && MakeFingerprint(hash, MakeEntry(x, 0)) == MakeFingerprint(hash, MakeEntry(y, 0))) ==>
        x.metadata == y.metadata && forall z :: z in second ==> Paths.Normalize(z.path) != Paths.Normalize(x.path)
  }

  /** Entries with inodes and equal fingerprints have equal keys. */
  lemma InodesIdentify(hash: Hash, x: RawEntry, y: RawEntry)
    requires HasInode(x) && MakeFingerprint(hash, MakeEntry(x, 0)) == MakeFingerprint(hash, MakeEntry(y, 0))
    ensures KeyOf(x) == KeyOf(y)
  {
    hide Paths.Normalize, Paths.Filename;
  }

  /** An entry whose id is not in the build has a key that is missing from the scan. */
  lemma LostIsMissing(hash: Hash, raws: seq<RawEntry>, s: Snapshot, x: RawEntry)
    requires forall e :: e in s.entries ==> FromPlain(hash, raws, e)
    requires forall raw :: raw in raws ==> Paths.Normalize(raw.path) in PathsOf(s.entries)
    requires PlainId(hash, x) !in Ids(s.entries)
    ensures Missing(raws, x)
  {
    hide Paths.Normalize, PlainId, KeyOf, FromPlain;
    forall z | z in raws && KeyOf(z) == KeyOf(x)
      ensures exists other :: other in raws && Paths.Normalize(other.path) == Paths.Normalize(z.path) && KeyOf(other) != KeyOf(z)
    {
      var g :| g in s.entries && g.path == Paths.Normalize(z.path);
      var other := SourceOf(hash, raws, g);
      assert KeyOf(other) == KeyOf(x) ==> PlainId(hash, other) == PlainId(hash, x) by {
        if KeyOf(other) == KeyOf(x) { SameKeySameId(hash, other, x); }
      }
    }
  }

  lemma SameFingerprint(hash: Hash, e: FileEntry, x: RawEntry)
    requires e.(parentId := 0) == MakeEntry(x, e.id)
    ensures MakeFingerprint(hash, e) == MakeFingerprint(hash, MakeEntry(x, 0)) && e.metadata == x.metadata
  {
    hide Paths.Normalize, Paths.Filename;
  }

  lemma PairedHaveNoInode(hash: Hash, x: RawEntry, y: RawEntry)
    requires MakeFingerprint(hash, MakeEntry(x, 0)) == MakeFingerprint(hash, MakeEntry(y, 0))
    requires PlainId(hash, x) != PlainId(hash, y)
    ensures !HasInode(x)
  {
    hide MakeFingerprint, MakeEntry, KeyOf, PlainId;
    if HasInode(x) {
      InodesIdentify(hash, x, y);
      SameKeySameId(hash, x, y);
    }
  }

  lemma OldPathNotScanned(hash: Hash, second: seq<RawEntry>, target: Snapshot, path: string)
    requires forall e :: e in target.entries ==> FromPlain(hash, second, e)
    requires forall z :: z in second ==> Paths.Normalize(z.path) != path
    ensures path !in PathsOf(target.entries)
  {
    hide Paths.Normalize, PlainId;
    forall g | g in target.entries ensures g.path != path { var z := SourceOf(hash, second, g); }
  }

  lemma IdNotAmong(es: seq<FileEntry>, id: u64, f: FileEntry)
    requires id !in Ids(es) && f in es
    ensures f.id != id
  {}

  lemma SafePair(hash: Hash, first: seq<RawEntry>, second: seq<RawEntry>, x: RawEntry, y: RawEntry)
    requires PairsSafely(hash, first, second) && x in first && y in second && !HasInode(x)
    requires Missing(second, x) && Missing(first, y)
    requires MakeFingerprint(hash, MakeEntry(x, 0)) == MakeFingerprint(hash, MakeEntry(y, 0))
    ensures x.metadata == y.metadata && forall z :: z in second ==> Paths.Normalize(z.path) != Paths.Normalize(x.path)
  {
    hide Missing, MakeFingerprint, MakeEntry, Paths.Normalize;
  }

  lemma SafeFromScans(hash: Hash, first: seq<RawEntry>, second: seq<RawEntry>, base: Snapshot, target: Snapshot)
    requires PairsSafely(hash, first, second)
    requires forall e :: e in base.entries ==> FromPlain(hash, first, e)
    requires forall e :: e in target.entries ==> FromPlain(hash, second, e)
    requires forall raw :: raw in first ==> Paths.Normalize(raw.path) in PathsOf(base.entries)
    requires forall raw :: raw in second ==> Paths.Normalize(raw.path) in PathsOf(target.entries)
    ensures HeuristicIsSafe(base, target, hash)
  {
    hide Paths.Normalize, PlainId, KeyOf, FromPlain, Missing, MakeFingerprint, PairsSafely, MakeEntry;
    forall e, f | (e in base.entries && f in target.entries && e.id !in Ids(target.entries) && f.id !in Ids(base.entries)
                   && MakeFingerprint(hash, e) == MakeFingerprint(hash, f))
      ensures e.metadata == f.metadata && e.path !in PathsOf(target.entries)
    {
      var x := SourceOf(hash, first, e);
      var y := SourceOf(hash, second, f);
      LostIsMissing(hash, second, target, x);
      LostIsMissing(hash, first, base, y);
      SameFingerprint(hash, e, x);
      SameFingerprint(hash, f, y);
      IdNotAmong(target.entries, e.id, f);
      PairedHaveNoInode(hash, x, y);
      SafePair(hash, first, second, x, y);
      OldPathNotScanned(hash, second, target, e.path);
    }
  }

  lemma KeptFromScans(hash: Hash, first: seq<RawEntry>, second: seq<RawEntry>, base: Snapshot, target: Snapshot)
    requires NoCollisions(hash, first + second) && PathsKept(first, second)
    requires forall e :: e in base.entries ==> FromPlain(hash, first, e)
    requires forall e :: e in target.entries ==> FromPlain(hash, second, e)
    ensures KindsKept(base, target) && OwnersKept(base, target)
  {
    hide Paths.Normalize, Paths.Filename, PlainId, KeyOf;
    forall e, f | e in base.entries && f in target.entries && e.id == f.id ensures e.kind == f.kind {
      var x := SourceOf(hash, first, e);
      var y := SourceOf(hash, second, f);
      assert x in first + second && y in first + second;
      KeyHasKind(x, y);
    }
    forall e, f | e in base.entries && f in target.entries && e.path == f.path
      ensures e.id == f.id || (f.kind != DIRECTORY && e.id !in Ids(target.entries))
    {
      var x := SourceOf(hash, first, e);
      var y := SourceOf(hash, second, f);
      if KeyOf(x) == KeyOf(y) {
        SameKeySameId(hash, x, y);
      } else {
        GoneIsGone(hash, first, second, target, x);
      }
    }
  }

  lemma GoneIsGone(hash: Hash, first: seq<RawEntry>, second: seq<RawEntry>, target: Snapshot, x: RawEntry)
    requires NoCollisions(hash, first + second) && x in first && forall z :: z in second ==> KeyOf(z) != KeyOf(x)
    requires forall e :: e in target.entries ==> FromPlain(hash, second, e)
    ensures PlainId(hash, x) !in Ids(target.entries)
  {
    hide Paths.Normalize, Paths.Filename, PlainId, KeyOf;
    forall g | g in target.entries ensures g.id != PlainId(hash, x) {
      var z := SourceOf(hash, second, g);
      assert x in first + second && z in first + second;
    }
  }

  lemma SourceOf(hash: Hash, raws: seq<RawEntry>, e: FileEntry) returns (raw: RawEntry)
    requires FromPlain(hash, raws, e)
    ensures raw in raws && e.path == Paths.Normalize(raw.path) && e.kind == raw.kind && e.id == PlainId(hash, raw)
    ensures e.(parentId := 0) == MakeEntry(raw, e.id)
  {
    hide Paths.Normalize, Paths.Filename, PlainId;
    raw :| raw in raws && e.(parentId := 0) == MakeEntry(raw, PlainId(hash, raw));
  }

  lemma SameKeySameId(hash: Hash, x: RawEntry, y: RawEntry)
    requires KeyOf(x) == KeyOf(y)
    ensures PlainId(hash, x) == PlainId(hash, y)
  {
    hide Paths.Normalize, BaseKey;
  }

  /** A clean scan builds into an accepted, path-shaped tree of normal paths. */
  lemma CleanBuild(hash: Hash, digest: Digest, scan: RawScan, options: BuildOptions, r: BuildResult)
    requires CleanScan(scan) && NoCollisions(hash, scan.entries) && IsBuild(hash, digest, scan, options, r)
    ensures HeaderOk(r.snapshot) && IdentityOk(r.snapshot) && GraphOk(r.snapshot) && PathsOk(r.snapshot)
    ensures UniqueKeys(r.snapshot) && PathShaped(r.snapshot)
    ensures PathTree(r.snapshot.entries, Paths.Normalize(scan.rootPath))
    ensures forall e :: e in r.snapshot.entries ==> FromPlain(hash, scan.entries, e) && Paths.Normalize(e.path) == e.path
    ensures forall raw :: raw in scan.entries ==> Paths.Normalize(raw.path) in PathsOf(r.snapshot.entries)
  {
    hide Paths.Normalize, Paths.Filename, Paths.Parent, Paths.IsAbsolute, IsBuild, HeaderOk, IdentityOk, GraphOk, PathsOk, PathTree;
    hide FromPlain, FromScan, NoCollisions, NoHardLinks, ScanIsTree, Probing, PathShaped, NamedByPath;
    PlainProbing(hash, scan.entries);
    PlainBuild(hash, digest, scan, options, r);
    BuildIsKeyed(hash, digest, scan, options, r);
    ScannedTreeIsAccepted(hash, digest, scan, options, r);
    forall e | e in r.snapshot.entries
      ensures Paths.IsAbsolute(e.path) && e.kind <= SPECIAL && Paths.Normalize(e.path) == e.path
    {
      var raw := ScannedAs(scan.entries, e);
      Paths.NormalizeIdempotent(raw.path);
    }
    BuildAcceptedIff(hash, digest, scan, options, r);
    BuildIsPathShaped(hash, digest, scan, options, r);
  }

  lemma FewerNoCollisions(hash: Hash, some: seq<RawEntry>, all: seq<RawEntry>)
    requires NoCollisions(hash, all) && forall raw :: raw in some ==> raw in all
    ensures NoCollisions(hash, some)
  {
    hide PlainId, KeyOf;
  }

  /** The second scan follows the first cleanly: both are clean, of one root, no two keys collide
      under the hash, no path passes to another file that a rename or a child could trip over, and
      what the heuristic may take for a rename is one. */
  ghost predicate FollowsCleanly(hash: Hash, first: RawScan, second: RawScan) {
    && CleanScan(first) && CleanScan(second) && Paths.Normalize(first.rootPath) == Paths.Normalize(second.rootPath)
    && NoCollisions(hash, first.entries + second.entries)
    && PathsKept(first.entries, second.entries) && PairsSafely(hash, first.entries, second.entries)
  }

  /** Main result: when the second scan follows the first cleanly, the delta between their builds
      replays, with the heuristic on or off: loading the first and replaying the delta gives the
      tree that loading the second gives. */
  lemma ScansReplay(hash: Hash, digest: Digest, first: RawScan, second: RawScan, options1: BuildOptions, options2: BuildOptions,
                    r1: BuildResult, r2: BuildResult, heuristic: bool, delta: DeltaSnapshot, loaded: u64, sequence: u64)
    requires FollowsCleanly(hash, first, second)
    requires IsBuild(hash, digest, first, options1, r1) && IsBuild(hash, digest, second, options2, r2)
    requires IsDelta(r1.snapshot, r2.snapshot, heuristic, hash, delta)
    ensures Replayable(r1.snapshot, r2.snapshot, delta)
    ensures var o := Replay(Load(r1.snapshot, loaded), sequence, delta);
      o.status == Success && SameTree(o.state, Load(r2.snapshot, sequence))
  {
    hide Paths.Normalize, CleanScan, NoCollisions, PathsKept, PairsSafely, IsBuild, HeuristicIsSafe, IsDelta, Replay, Load, PathTree;
    hide HeaderOk, IdentityOk, GraphOk, PathsOk, FromPlain, UniqueKeys, Coherent, Replayable, SameTree, PathShaped, PathsOf;
    FewerNoCollisions(hash, first.entries, first.entries + second.entries);
    FewerNoCollisions(hash, second.entries, first.entries + second.entries);
    CleanBuild(hash, digest, first, options1, r1);
    CleanBuild(hash, digest, second, options2, r2);
    KeptFromScans(hash, first.entries, second.entries, r1.snapshot, r2.snapshot);
    SafeFromScans(hash, first.entries, second.entries, r1.snapshot, r2.snapshot);
    KeptIsCoherent(r1.snapshot, r2.snapshot, Paths.Normalize(first.rootPath), heuristic, hash, delta);
    CoherentReplays(r1.snapshot, r2.snapshot, heuristic, hash, delta, loaded, sequence);
  }
}
