/** Builder into validator: exactly which scans are built into snapshots the validator accepts. */
module BuildTheorem {
  import opened Domain
  import opened Sorting
  import opened Builder
  import opened Graph
  import opened TreeTheorem
  import opened Validators
  import Paths

  // ---- Trees of paths ----

  ghost predicate DirectoryAt(es: seq<FileEntry>, path: string) {
    exists d :: d in es && d.path == path && d.kind == DIRECTORY
  }

  /** The root path is a directory and so is the parent path of every other entry. */
  ghost predicate PathTree(es: seq<FileEntry>, root: string) {
    && DirectoryAt(es, root)
    && (forall e :: e in es && e.path != root ==> UnderDirectory(es, e.path))
  }

  ghost predicate UnderDirectory(es: seq<FileEntry>, path: string) {
    Paths.Parent(path) != path && DirectoryAt(es, Paths.Parent(path))
  }

  /** Every entry has the id at its parent path as parent, and the root has none. */
  ghost predicate HangsByPath(s: Snapshot, root: string) {
    && s.rootEntryId == IdAtPath(s.entries, root)
    && (forall e :: e in s.entries ==> LinkedByPath(s.entries, root, e))
  }

  ghost predicate LinkedByPath(es: seq<FileEntry>, root: string, e: FileEntry) {
    e.parentId == if e.path == root then 0 else IdAtPath(es, Paths.Parent(e.path))
  }

  ghost predicate Keyed(s: Snapshot) {
    UniqueKeys(s) && forall e :: e in s.entries ==> e.id != 0
  }

  lemma {:induction false} IdAtPathHas(es: seq<FileEntry>, path: string) returns (e: FileEntry)
    requires IdAtPath(es, path) != 0
    ensures e in es && e.path == path && e.id == IdAtPath(es, path)
  {
    var n := |es| - 1;
    if es[n].path == path { e := es[n]; } else { e := IdAtPathHas(es[..n], path); }
  }

  lemma IdAtPathOf(es: seq<FileEntry>, e: FileEntry)
    requires UniquePaths(es) && e in es
    ensures IdAtPath(es, e.path) == e.id
  {
    var i :| 0 <= i < |es| && es[i] == e;
    IdAtPathFinds(es, i);
  }

  lemma ParentOfTreeEntry(s: Snapshot, root: string, e: FileEntry)
    requires Keyed(s) && HangsByPath(s, root) && RootedTree(s)
    requires e in s.entries && e.path != root
    ensures UnderDirectory(s.entries, e.path)
  {
    hide RootedTree, Paths.Parent, HangsUnder, ChildrenIndex, Cyclic;
    TreeHasNoCycle(s);
    var r := RootOf(s, root);
    assert LinkedByPath(s.entries, root, e);
    assert e.id != s.rootEntryId by { if e.id == r.id { SameIdSameEntry(s.entries, e, r); } }
    var p := ParentInTree(s, e);
    var q := IdAtPathHas(s.entries, Paths.Parent(e.path));
    SameIdSameEntry(s.entries, p, q);
    if Paths.Parent(e.path) == e.path {
      IdAtPathOf(s.entries, e);
      EntryIsKid(s.entries, e);
      SelfLoop(s, e.id);
    }
  }

  lemma ParentInTree(s: Snapshot, e: FileEntry) returns (p: FileEntry)
    requires RootedTree(s) && e in s.entries && e.id != s.rootEntryId
    ensures p in s.entries && p.id == e.parentId != 0 && p.kind == DIRECTORY
  {
    assert HangsUnder(s.entries, e);
    p :| p in s.entries && p.id == e.parentId && p.kind == DIRECTORY;
  }

  lemma RootOf(s: Snapshot, root: string) returns (r: FileEntry)
    requires Keyed(s) && HangsByPath(s, root) && RootedTree(s)
    ensures r in s.entries && r.path == root && r.id == s.rootEntryId && r.kind == DIRECTORY
  {
    hide HangsUnder, ChildrenIndex;
    var t :| t in s.entries && t.id == s.rootEntryId && t.kind == DIRECTORY && t.parentId == 0;
    r := IdAtPathHas(s.entries, root);
    SameIdSameEntry(s.entries, r, t);
  }

  lemma SelfLoop(s: Snapshot, id: u64)
    requires id in Kids(ChildrenIndex(s.entries), id) && id in Ids(s.entries)
    ensures Cyclic(s.entries)
  {
    var c := [id, id];
    assert Edge(ChildrenIndex(s.entries), Ids(s.entries), c[0], c[0 + 1]);
    assert IsCycle(ChildrenIndex(s.entries), Ids(s.entries), c);
  }

  /** Parent paths get shorter, so the climb from an entry ends at the root. */
  lemma {:induction false} ReachedFromRoot(s: Snapshot, root: string, e: FileEntry)
    requires Keyed(s) && HangsByPath(s, root) && PathTree(s.entries, root) && e in s.entries
    ensures Reaches(ChildrenIndex(s.entries), s.rootEntryId, e.id)
    decreases |e.path|
  {
    hide Paths.Parent, ChildrenIndex, Reaches;
    if e.path == root {
      IdAtPathOf(s.entries, e);
      ReachesSelf(ChildrenIndex(s.entries), e.id);
    } else {
      assert UnderDirectory(s.entries, e.path) && LinkedByPath(s.entries, root, e);
      var d :| d in s.entries && d.path == Paths.Parent(e.path) && d.kind == DIRECTORY;
      IdAtPathOf(s.entries, d);
      Paths.ParentIsShorter(e.path);
      ReachedFromRoot(s, root, d);
      EntryIsKid(s.entries, e);
      ReachesStep(ChildrenIndex(s.entries), s.rootEntryId, d.id, e.id);
    }
  }

  lemma PathTreeIsRooted(s: Snapshot, root: string)
    requires Keyed(s) && HangsByPath(s, root) && PathTree(s.entries, root)
    ensures RootedTree(s)
  {
    hide Paths.Parent, ChildrenIndex, Reaches;
    var r :| r in s.entries && r.path == root && r.kind == DIRECTORY;
    IdAtPathOf(s.entries, r);
    assert LinkedByPath(s.entries, root, r);
    forall e | e in s.entries ensures Reaches(ChildrenIndex(s.entries), s.rootEntryId, e.id) {
      ReachedFromRoot(s, root, e);
    }
    forall e | e in s.entries && e.id != s.rootEntryId ensures HangsUnder(s.entries, e) {
      assert e.path != root;
      assert UnderDirectory(s.entries, e.path) && LinkedByPath(s.entries, root, e);
      var d :| d in s.entries && d.path == Paths.Parent(e.path) && d.kind == DIRECTORY;
      IdAtPathOf(s.entries, d);
    }
  }

  lemma RootedIffPathTree(s: Snapshot, root: string)
    requires Keyed(s) && HangsByPath(s, root)
    ensures RootedTree(s) <==> PathTree(s.entries, root)
  {
    hide RootedTree, HangsByPath, Keyed, UnderDirectory;
    if RootedTree(s) {
      var r := RootOf(s, root);
      forall e | e in s.entries && e.path != root ensures UnderDirectory(s.entries, e.path) {
        ParentOfTreeEntry(s, root, e);
      }
    }
    if PathTree(s.entries, root) { PathTreeIsRooted(s, root); }
  }

  // ---- What a build has ----

  /** The path of the entry that becomes the root: the scanned root, or else the first entry. */
  function RootPath(es: seq<FileEntry>, root: string): string {
    if es == [] || IdAtPath(es, root) != 0 then root else es[0].path
  }

  ghost predicate SamePlaces(es: seq<FileEntry>, fs: seq<FileEntry>) {
    |es| == |fs| && forall i :: 0 <= i < |es| ==> fs[i] == es[i].(parentId := fs[i].parentId)
  }

  lemma {:induction false} IdAtPathSame(es: seq<FileEntry>, fs: seq<FileEntry>, path: string)
    requires SamePlaces(es, fs)
    ensures IdAtPath(es, path) == IdAtPath(fs, path)
  {
    if es != [] { IdAtPathSame(es[..|es| - 1], fs[..|fs| - 1], path); }
  }

  lemma SamePlacesKeyed(es: seq<FileEntry>, fs: seq<FileEntry>)
    requires SamePlaces(es, fs) && UniqueIds(es) && UniquePaths(es)
    requires forall e :: e in es ==> e.id != 0
    ensures UniqueIds(fs) && UniquePaths(fs) && forall e :: e in fs ==> e.id != 0
  {
    forall i | 0 <= i < |fs| ensures fs[i].id != 0 { assert es[i] in es; }
  }

  /** The build's entries: gathered, and hung by path under the root path in use. */
  lemma BuildHangsByPath(hash: Hash, digest: Digest, scan: RawScan, options: BuildOptions,
                         raws: seq<RawEntry>, r: BuildResult)
    requires ProbesEnd(hash, raws) && r == BuildFrom(hash, digest, scan, options, raws)
    ensures SamePlaces(Gather(hash, raws).entries, r.snapshot.entries)
    ensures Keyed(r.snapshot)
    ensures HangsByPath(r.snapshot, RootPath(r.snapshot.entries, Paths.Normalize(scan.rootPath)))
  {
    hide Paths.Normalize, Paths.Parent, Gather, ProbesEnd, GatherOk;
    GatherIsOk(hash, raws);
    var es, root := Gather(hash, raws).entries, Paths.Normalize(scan.rootPath);
    GatheredEntries(raws, Gather(hash, raws));
    var fs := r.snapshot.entries;
    SamePlacesKeyed(es, fs);
    forall path ensures IdAtPath(es, path) == IdAtPath(fs, path) { IdAtPathSame(es, fs, path); }
    HangsWhenLinked(es, root, r.snapshot);
  }

  lemma GatheredEntries(raws: seq<RawEntry>, g: Gathered)
    requires GatherOk(raws, g)
    ensures UniqueIds(g.entries) && UniquePaths(g.entries) && forall e :: e in g.entries ==> e.id != 0
  {}

  /** The fallback takes the first entry when no entry is at the root path. */
  lemma HangsWhenLinked(es: seq<FileEntry>, root: string, s: Snapshot)
    requires UniquePaths(es) && forall e :: e in es ==> e.id != 0
    requires forall path :: IdAtPath(es, path) == IdAtPath(s.entries, path)
    requires var fallback := IdAtPath(es, root) == 0 && es != [];
      && s.entries == (if fallback then LinkAll(es, root)[0 := LinkAll(es, root)[0].(parentId := 0)] else LinkAll(es, root))
      && s.rootEntryId == (if fallback then es[0].id else IdAtPath(es, root))
    ensures HangsByPath(s, RootPath(s.entries, root))
  {
    hide Paths.Parent, IdAtPath;
    var used := RootPath(s.entries, root);
    if es != [] { IdAtPathFinds(es, 0); }
    forall i | 0 <= i < |s.entries| ensures LinkedByPath(s.entries, used, s.entries[i]) {
      IdAtPathFinds(es, i);
      assert es[i] in es;
    }
  }

  // ---- Main results ----

  /** Header, identity and graph passes accept a built snapshot exactly when the scan names a
      host and the built paths form a tree under the root in use. */
  lemma BuildAcceptedIff(hash: Hash, digest: Digest, scan: RawScan, options: BuildOptions, r: BuildResult)
    requires Probing(hash, scan.entries) && IsBuild(hash, digest, scan, options, r)
    ensures HeaderOk(r.snapshot) && IdentityOk(r.snapshot) && GraphOk(r.snapshot) <==>
      scan.hostIdentifier != "" && PathTree(r.snapshot.entries, RootPath(r.snapshot.entries, Paths.Normalize(scan.rootPath)))
  {
    hide ProbesEnd, HangsByPath, PathTree, RootedTree, HeaderOk, IdentityOk, GraphOk, Keyed, SamePlaces, Paths.Normalize, Permutation, RootPath;
    var raws :| IsBuildVia(hash, digest, scan, options, raws, r);
    assert ProbesEnd(hash, raws);
    BuildHangsByPath(hash, digest, scan, options, raws, r);
    RootedIffPathTree(r.snapshot, RootPath(r.snapshot.entries, Paths.Normalize(scan.rootPath)));
    AcceptedIffTree(r.snapshot);
  }

  /** Ids are distinct and not 0, and paths are distinct, whatever was scanned. */
  lemma BuildIsKeyed(hash: Hash, digest: Digest, scan: RawScan, options: BuildOptions, r: BuildResult)
    requires Probing(hash, scan.entries) && IsBuild(hash, digest, scan, options, r)
    ensures UniqueKeys(r.snapshot) && forall e :: e in r.snapshot.entries ==> e.id != 0
    ensures forall e :: e in r.snapshot.entries ==> FromScan(scan.entries, e)
    ensures forall raw :: raw in scan.entries ==> Paths.Normalize(raw.path) in PathsOf(r.snapshot.entries)
  {
    hide ProbesEnd, HangsByPath, FromScan, Paths.Normalize, Permutation, BuildFrom, MakeEntry;
    var raws :| IsBuildVia(hash, digest, scan, options, raws, r);
    assert ProbesEnd(hash, raws);
    BuildHangsByPath(hash, digest, scan, options, raws, r);
    GatherIsOk(hash, raws);
    hide GatherOk;
    var es, fs := Gather(hash, raws).entries, r.snapshot.entries;
    forall e | e in fs ensures FromScan(scan.entries, e) {
      var i :| 0 <= i < |fs| && fs[i] == e;
      GatheredFrom(raws, Gather(hash, raws), i);
      FromPermuted(raws, scan.entries, es[i], e.parentId);
    }
    forall raw | raw in scan.entries ensures Paths.Normalize(raw.path) in PathsOf(fs) {
      PermutationMembers(raws, scan.entries);
      var i := GatheredAt(raws, Gather(hash, raws), raw);
      assert fs[i] in fs && fs[i].path == es[i].path;
    }
  }

  lemma GatheredFrom(raws: seq<RawEntry>, g: Gathered, i: nat)
    requires GatherOk(raws, g) && i < |g.entries|
    ensures FromScan(raws, g.entries[i])
  {
    assert g.entries[i] in g.entries;
  }

  lemma GatheredAt(raws: seq<RawEntry>, g: Gathered, raw: RawEntry) returns (i: nat)
    requires GatherOk(raws, g) && raw in raws
    ensures i < |g.entries| && g.entries[i].path == Paths.Normalize(raw.path)
  {
    var e :| e in g.entries && e.path == Paths.Normalize(raw.path);
    i :| i < |g.entries| && g.entries[i] == e;
  }

  lemma FromPermuted(raws: seq<RawEntry>, scanned: seq<RawEntry>, e: FileEntry, parentId: u64)
    requires FromScan(raws, e) && Permutation(raws, scanned)
    ensures FromScan(scanned, e.(parentId := parentId))
  {
    PermutationMembers(raws, scanned);
    var raw :| raw in raws && e.(parentId := 0) == MakeEntry(raw, e.id);
    assert raw in scanned && e.(parentId := parentId).(parentId := 0) == MakeEntry(raw, e.id);
  }

  // ---- In terms of the scan ----

  /** Something was scanned at a path, and everything scanned there is a directory. */
  ghost predicate ScannedDirectory(raws: seq<RawEntry>, path: string) {
    && (exists raw :: raw in raws && Paths.Normalize(raw.path) == path)
    && (forall raw :: raw in raws && Paths.Normalize(raw.path) == path ==> raw.kind == DIRECTORY)
  }

  /** The root is a directory and every other entry has a directory parent in the scan. */
  ghost predicate ScanIsTree(scan: RawScan) {
    var root := Paths.Normalize(scan.rootPath);
    && ScannedDirectory(scan.entries, root)
    && (forall raw :: raw in scan.entries && Paths.Normalize(raw.path) != root ==> ScannedUnder(scan.entries, Paths.Normalize(raw.path)))
  }

  ghost predicate ScannedUnder(raws: seq<RawEntry>, path: string) {
    Paths.Parent(path) != path && ScannedDirectory(raws, Paths.Parent(path))
  }

  lemma ScannedIsBuilt(raws: seq<RawEntry>, es: seq<FileEntry>, path: string)
    requires forall e :: e in es ==> FromScan(raws, e)
    requires forall raw :: raw in raws ==> Paths.Normalize(raw.path) in PathsOf(es)
    requires ScannedDirectory(raws, path)
    ensures DirectoryAt(es, path)
  {
    hide Paths.Normalize, Paths.Filename;
    var raw :| raw in raws && Paths.Normalize(raw.path) == path;
    var e :| e in es && e.path == path;
    var source :| source in raws && e.(parentId := 0) == MakeEntry(source, e.id);
  }

  /** Main result: such a scan builds into a snapshot that the header, identity and graph passes
      accept, and that the path pass accepts when the scanned paths are absolute. */
  lemma ScannedTreeIsAccepted(hash: Hash, digest: Digest, scan: RawScan, options: BuildOptions, r: BuildResult)
    requires Probing(hash, scan.entries) && IsBuild(hash, digest, scan, options, r)
    requires scan.hostIdentifier != "" && ScanIsTree(scan)
    ensures HeaderOk(r.snapshot) && IdentityOk(r.snapshot) && GraphOk(r.snapshot)
    ensures RootPath(r.snapshot.entries, Paths.Normalize(scan.rootPath)) == Paths.Normalize(scan.rootPath)
    ensures PathsOk(r.snapshot) <==> forall e :: e in r.snapshot.entries ==> Paths.IsAbsolute(e.path) && e.kind <= SPECIAL
  {
    var es, root := r.snapshot.entries, Paths.Normalize(scan.rootPath);
    BuildIsKeyed(hash, digest, scan, options, r);
    hide ProbesEnd, IsBuild, HeaderOk, IdentityOk, GraphOk, FromScan, Paths.Normalize, PathsOk, PathsOf, UniqueKeys, ScannedDirectory, ScannedUnder;
    ScannedIsBuilt(scan.entries, es, root);
    RootIsFound(es, root);
    forall e | e in es && e.path != root ensures UnderDirectory(es, e.path) {
      var raw := ScannedAs(scan.entries, e);
      assert ScannedUnder(scan.entries, e.path);
      ParentScanned(scan.entries, e.path);
      ScannedIsBuilt(scan.entries, es, Paths.Parent(e.path));
    }
    BuildAcceptedIff(hash, digest, scan, options, r);
    PathsOkIff(scan.entries, r.snapshot);
  }

  lemma ParentScanned(raws: seq<RawEntry>, path: string)
    requires ScannedUnder(raws, path)
    ensures Paths.Parent(path) != path && ScannedDirectory(raws, Paths.Parent(path))
  {}

  lemma ScannedAs(raws: seq<RawEntry>, e: FileEntry) returns (raw: RawEntry)
    requires FromScan(raws, e)
    ensures raw in raws && e.path == Paths.Normalize(raw.path) && e.kind == raw.kind
  {
    raw :| raw in raws && e.(parentId := 0) == MakeEntry(raw, e.id);
  }

  lemma RootIsFound(es: seq<FileEntry>, root: string)
    requires DirectoryAt(es, root) && forall e :: e in es ==> e.id != 0
    ensures RootPath(es, root) == root
  {
    var d :| d in es && d.path == root && d.kind == DIRECTORY;
    AtPathNotZero(es, d);
  }

  lemma {:induction false} AtPathNotZero(es: seq<FileEntry>, d: FileEntry)
    requires d in es && forall e :: e in es ==> e.id != 0
    ensures IdAtPath(es, d.path) != 0
  {
    var n := |es| - 1;
    assert es[n] in es;
    if es[n].path != d.path { AtPathNotZero(es[..n], d); }
  }

  /** The paths a build stores are normalised, so the path pass only looks for absolute ones. */
  lemma PathsOkIff(raws: seq<RawEntry>, s: Snapshot)
    requires UniqueKeys(s) && forall e :: e in s.entries ==> FromScan(raws, e)
    ensures PathsOk(s) <==> forall e :: e in s.entries ==> Paths.IsAbsolute(e.path) && e.kind <= SPECIAL
  {
    hide Paths.Normalize, Paths.HasTraversal, FromScan;
    forall i | 0 <= i < |s.entries|
      ensures PathBad(s, i) <==> !(Paths.IsAbsolute(s.entries[i].path) && s.entries[i].kind <= SPECIAL)
    {
      var raw := ScannedAs(raws, s.entries[i]);
      Paths.NormalizeIdempotent(raw.path);
      if Paths.IsAbsolute(s.entries[i].path) { Paths.NormalizeAbsolute(s.entries[i].path); }
    }
    assert forall i :: 0 <= i < |s.entries| ==> s.entries[i] in s.entries;
  }

  // ---- What a build reports ----

  function Duplicates(ds: seq<Diagnostic>): nat {
    if ds == [] then 0 else Duplicates(ds[..|ds| - 1]) + if ds[|ds| - 1].DuplicatePath? then 1 else 0
  }

  lemma {:induction false} DuplicatesConcat(ds: seq<Diagnostic>, more: seq<Diagnostic>)
    ensures Duplicates(ds + more) == Duplicates(ds) + Duplicates(more)
  {
    if more == [] {
      assert ds + more == ds;
    } else {
      DuplicatesConcat(ds, more[..|more| - 1]);
      assert (ds + more)[..|ds + more| - 1] == ds + more[..|more| - 1];
    }
  }

  lemma {:induction false} NoDuplicatesAmong(ds: seq<Diagnostic>)
    requires forall d :: d in ds ==> !d.DuplicatePath?
    ensures Duplicates(ds) == 0
  {
    if ds != [] {
      assert ds[|ds| - 1] in ds;
      NoDuplicatesAmong(ds[..|ds| - 1]);
    }
  }

  /** The first loop reports only repeated paths and id collisions, and loses no entry unreported. */
  lemma {:induction false} GatherReports(hash: Hash, raws: seq<RawEntry>)
    ensures var g := Gather(hash, raws); |g.entries| + Duplicates(g.diagnostics) == |raws|
    ensures forall d :: d in Gather(hash, raws).diagnostics ==> d.DuplicatePath? || d.StableIdCollision?
  {
    hide Paths.Normalize, CandidateId, CandidateKey, Probes, PathsOf;
    if raws != [] {
      var g, raw := Gather(hash, raws[..|raws| - 1]), raws[|raws| - 1];
      GatherReports(hash, raws[..|raws| - 1]);
      var path := Paths.Normalize(raw.path);
      var collisions := Collisions(path, Probes(hash, raw, path, g.usedIds.Keys));
      NoDuplicatesAmong(collisions);
      DuplicatesConcat(g.diagnostics, collisions);
      DuplicatesConcat(g.diagnostics, [DuplicatePath(path)]);
      assert Duplicates([DuplicatePath(path)]) == 1;
    }
  }

  /** The second loop reports exactly the entries besides the root whose parent path is not there. */
  lemma {:induction false} MissingParentsHas(es: seq<FileEntry>, root: string, n: nat)
    requires n <= |es|
    ensures forall d :: d in MissingParents(es, root, n) <==> d.ParentPathMissing? && OrphanAmong(es, root, n, d.path)
  {
    hide Paths.Parent;
    if n > 0 {
      MissingParentsHas(es, root, n - 1);
      forall d
        ensures d in MissingParents(es, root, n) <==> d.ParentPathMissing? && OrphanAmong(es, root, n, d.path)
      {
        if d.ParentPathMissing? && OrphanAmong(es, root, n, d.path) {
          var i :| 0 <= i < n && es[i].path == d.path;
          if i < n - 1 { assert OrphanAmong(es, root, n - 1, d.path); }
        }
        if d in MissingParents(es, root, n - 1) {
          var i :| 0 <= i < n - 1 && es[i].path == d.path;
        }
      }
    }
  }

  ghost predicate OrphanAmong(es: seq<FileEntry>, root: string, n: nat, path: string)
    requires n <= |es|
  {
    path != root && Paths.Parent(path) !in PathsOf(es) && exists i :: 0 <= i < n && es[i].path == path
  }

  /** Main result: every scanned entry is built or reported as a duplicate; a missing parent is
      reported for exactly the entries besides the root path whose parent path was not built; and
      a missing root exactly when entries were built but none at the root path. */
  lemma BuildReports(hash: Hash, digest: Digest, scan: RawScan, options: BuildOptions, r: BuildResult)
    requires Probing(hash, scan.entries) && IsBuild(hash, digest, scan, options, r)
    ensures |r.snapshot.entries| + Duplicates(r.diagnostics) == |scan.entries|
    ensures var es, root := r.snapshot.entries, Paths.Normalize(scan.rootPath);
      && (forall p :: ParentPathMissing(p) in r.diagnostics <==> OrphanAmong(es, root, |es|, p))
      && (forall p :: RootEntryMissing(p) in r.diagnostics <==> p == root && es != [] && root !in PathsOf(es))
  {
    hide ProbesEnd, Permutation, Paths.Normalize, Paths.Parent, LinkAll, HangsByPath, GatherOk, Gather, Named;
    var raws :| IsBuildVia(hash, digest, scan, options, raws, r);
    assert Permutation(raws, scan.entries);
    PermutationMembers(raws, scan.entries);
    assert ProbesEnd(hash, raws);
    BuildHangsByPath(hash, digest, scan, options, raws, r);
    GatherReports(hash, raws);
    GatherIsOk(hash, raws);
    GatheredEntries(raws, Gather(hash, raws));
    BuildReportsFrom(hash, digest, scan, options, raws, r);
  }

  lemma SamePaths(es: seq<FileEntry>, fs: seq<FileEntry>)
    requires SamePlaces(es, fs)
    ensures PathsOf(es) == PathsOf(fs)
  {
    forall p ensures p in PathsOf(es) <==> p in PathsOf(fs) {
      if p in PathsOf(es) {
        var i :| 0 <= i < |es| && es[i].path == p;
        assert fs[i] in fs;
      }
      if p in PathsOf(fs) {
        var i :| 0 <= i < |fs| && fs[i].path == p;
        assert es[i] in es;
      }
    }
  }

  lemma BuildReportsFrom(hash: Hash, digest: Digest, scan: RawScan, options: BuildOptions, raws: seq<RawEntry>, r: BuildResult)
    requires r == BuildFrom(hash, digest, scan, options, raws) && |raws| == |scan.entries|
    requires var es := Gather(hash, raws).entries;
      UniquePaths(es) && (forall e :: e in es ==> e.id != 0) && SamePlaces(es, r.snapshot.entries)
    ensures |r.snapshot.entries| + Duplicates(r.diagnostics) == |scan.entries|
    ensures var es, root := r.snapshot.entries, Paths.Normalize(scan.rootPath);
      && (forall p :: ParentPathMissing(p) in r.diagnostics <==> OrphanAmong(es, root, |es|, p))
      && (forall p :: RootEntryMissing(p) in r.diagnostics <==> p == root && es != [] && root !in PathsOf(es))
  {
    hide Paths.Normalize, Gather, PathsOf, IdAtPath, MissingParents, OrphanAmong, Duplicates, UniquePaths, BuildFrom;
    var g, fs, root := Gather(hash, raws), r.snapshot.entries, Paths.Normalize(scan.rootPath);
    var missing := MissingParents(g.entries, root, |g.entries|);
    var last := if IdAtPath(g.entries, root) == 0 && g.entries != [] then [RootEntryMissing(root)] else [];
    GatherReports(hash, raws);
    MissingParentsHas(g.entries, root, |g.entries|);
    RootFoundIff(g.entries, root);
    SamePaths(g.entries, fs);
    DiagnosticsOfBuild(hash, digest, scan, options, raws);
    ReportsAddUp(g.diagnostics, missing, last);
    forall p
      ensures ParentPathMissing(p) in r.diagnostics <==> OrphanAmong(fs, root, |fs|, p)
      ensures RootEntryMissing(p) in r.diagnostics <==> p == root && fs != [] && root !in PathsOf(fs)
    {
      SameOrphans(g.entries, fs, root, p);
      WhichReport(g.diagnostics, missing, last, p);
    }
  }

  lemma WhichReport(gathered: seq<Diagnostic>, missing: seq<Diagnostic>, last: seq<Diagnostic>, p: string)
    requires forall d :: d in gathered ==> d.DuplicatePath? || d.StableIdCollision?
    requires forall d :: d in missing ==> d.ParentPathMissing?
    requires forall d :: d in last ==> d.RootEntryMissing?
    ensures ParentPathMissing(p) in gathered + missing + last <==> ParentPathMissing(p) in missing
    ensures RootEntryMissing(p) in gathered + missing + last <==> RootEntryMissing(p) in last
  {}

  lemma DiagnosticsOfBuild(hash: Hash, digest: Digest, scan: RawScan, options: BuildOptions, raws: seq<RawEntry>)
    ensures var g, root := Gather(hash, raws), Paths.Normalize(scan.rootPath);
      BuildFrom(hash, digest, scan, options, raws).diagnostics == g.diagnostics + MissingParents(g.entries, root, |g.entries|)
        + if IdAtPath(g.entries, root) == 0 && g.entries != [] then [RootEntryMissing(root)] else []
  {
    hide Paths.Normalize, Gather, Named, IdAtPath, MissingParents;
  }

  /** Only the first loop reports duplicates. */
  lemma ReportsAddUp(gathered: seq<Diagnostic>, missing: seq<Diagnostic>, last: seq<Diagnostic>)
    requires forall d :: d in missing ==> d.ParentPathMissing?
    requires forall d :: d in last ==> d.RootEntryMissing?
    ensures Duplicates(gathered + missing + last) == Duplicates(gathered)
  {
    NoDuplicatesAmong(missing);
    NoDuplicatesAmong(last);
    DuplicatesConcat(gathered, missing);
    DuplicatesConcat(gathered + missing, last);
  }

  lemma SameOrphans(es: seq<FileEntry>, fs: seq<FileEntry>, root: string, p: string)
    requires SamePlaces(es, fs) && PathsOf(es) == PathsOf(fs)
    ensures OrphanAmong(es, root, |es|, p) <==> OrphanAmong(fs, root, |fs|, p)
  {
    hide PathsOf, Paths.Parent;
    forall i | 0 <= i < |es| ensures es[i].path == fs[i].path {}
  }

  lemma RootFoundIff(es: seq<FileEntry>, root: string)
    requires UniquePaths(es) && forall e :: e in es ==> e.id != 0
    ensures IdAtPath(es, root) == 0 <==> root !in PathsOf(es)
  {
    if root in PathsOf(es) {
      var e :| e in es && e.path == root;
      IdAtPathOf(es, e);
    } else {
      IdAtPathNone(es, root);
    }
  }

  // ---- Parents in terms of the paths ----

  /** Main result: in a build, whatever was scanned, an entry hangs under the entry whose path its own
      path extends by one name; the entry in use as root, and one whose path no entry precedes
      like that, has no parent. */
  lemma BuiltUnderParent(hash: Hash, digest: Digest, scan: RawScan, options: BuildOptions, r: BuildResult,
                         dir: string, name: string, e: FileEntry)
    requires Probing(hash, scan.entries) && IsBuild(hash, digest, scan, options, r) && e in r.snapshot.entries
    requires name != "" && Paths.SlashFree(name)
    ensures e.id == r.snapshot.rootEntryId ==> e.parentId == 0
    ensures e.id != r.snapshot.rootEntryId && dir != "" && dir[|dir| - 1] != '/' && e.path == dir + "/" + name ==>
      && (forall d :: d in r.snapshot.entries && d.path == dir ==> e.parentId == d.id)
      && (dir !in PathsOf(r.snapshot.entries) ==> e.parentId == 0)
    ensures e.id != r.snapshot.rootEntryId && e.path == "/" + name ==>
      && (forall d :: d in r.snapshot.entries && d.path == "/" ==> e.parentId == d.id)
      && ("/" !in PathsOf(r.snapshot.entries) ==> e.parentId == 0)
  {
    hide Paths.Normalize, Paths.Parent, Paths.SlashFree, Permutation, BuildFrom, ProbesEnd, RootPath, IdAtPath, PathsOf, SamePlaces;
    var raws :| IsBuildVia(hash, digest, scan, options, raws, r);
    assert ProbesEnd(hash, raws);
    BuildHangsByPath(hash, digest, scan, options, raws, r);
    var es, root := r.snapshot.entries, RootPath(r.snapshot.entries, Paths.Normalize(scan.rootPath));
    assert LinkedByPath(es, root, e);
    IdAtPathOf(es, e);
    RootIsByPath(es, root, e, r.snapshot.rootEntryId);
    Paths.ParentOf(dir, name);
    ParentFoundAt(es, dir);
    ParentFoundAt(es, "/");
  }

  lemma ParentFoundAt(es: seq<FileEntry>, path: string)
    requires UniquePaths(es)
    ensures forall d :: d in es && d.path == path ==> IdAtPath(es, path) == d.id
    ensures path !in PathsOf(es) ==> IdAtPath(es, path) == 0
  {
    hide IdAtPath;
    forall d | d in es && d.path == path ensures IdAtPath(es, path) == d.id { IdAtPathOf(es, d); }
    if path !in PathsOf(es) { IdAtPathNone(es, path); }
  }

  /** The entry with the root's id is the one at the root's path. */
  lemma RootIsByPath(es: seq<FileEntry>, root: string, e: FileEntry, rootId: u64)
    requires UniqueIds(es) && UniquePaths(es) && (forall x :: x in es ==> x.id != 0) && e in es && rootId == IdAtPath(es, root)
    ensures e.id == rootId <==> e.path == root
  {
    IdAtPathOf(es, e);
    if e.id == rootId {
      var f := IdAtPathHas(es, root);
      SameIdSameEntry(es, e, f);
    }
  }

  /** Which entry is the root: the one at the scanned root, or else the first. */
  lemma BuiltRoot(hash: Hash, digest: Digest, scan: RawScan, options: BuildOptions, r: BuildResult)
    requires Probing(hash, scan.entries) && IsBuild(hash, digest, scan, options, r)
    ensures forall d :: d in r.snapshot.entries && d.path == Paths.Normalize(scan.rootPath) ==> r.snapshot.rootEntryId == d.id
    ensures Paths.Normalize(scan.rootPath) !in PathsOf(r.snapshot.entries) ==>
      r.snapshot.rootEntryId == if r.snapshot.entries == [] then 0 else r.snapshot.entries[0].id
  {
    hide Paths.Normalize, Paths.Parent, Permutation, BuildFrom, ProbesEnd, PathsOf, SamePlaces;
    var raws :| IsBuildVia(hash, digest, scan, options, raws, r);
    assert ProbesEnd(hash, raws);
    BuildHangsByPath(hash, digest, scan, options, raws, r);
    var es, root := r.snapshot.entries, Paths.Normalize(scan.rootPath);
    ParentFoundAt(es, root);
    forall d | d in es && d.path == root ensures r.snapshot.rootEntryId == d.id { assert d.id != 0; }
    if root !in PathsOf(es) && es != [] { ParentFoundAt(es, es[0].path); assert es[0] in es; }
  }
}
