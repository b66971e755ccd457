/** The snapshot builder: sorts a raw scan by path, gives every entry a stable id by probing
    a hash, and hangs each entry under the entry at its parent path. */
module Builder {
  import opened Domain
  import opened Sorting
  import Paths
  import Text

  datatype RawEntry = RawEntry(path: string, name: string, kind: u8, metadata: FileMetadata)

  datatype RawScan = RawScan(hostIdentifier: string, rootPath: string, scannedAt: i64, entries: seq<RawEntry>)

  datatype BuildOptions = BuildOptions(snapshotId: u64, createdAt: i64)

  datatype Diagnostic =
    | RootEntryMissing(path: string)
    | ParentPathMissing(path: string)
    | DuplicatePath(path: string)
    | StableIdCollision(path: string)

  datatype BuildResult = BuildResult(snapshot: Snapshot, diagnostics: seq<Diagnostic>)

  /** The hash over the printed snapshot that names a snapshot without a given id. */
  type Digest = Snapshot -> u64

  // ---- Stable ids ----

  function BaseKey(raw: RawEntry, path: string): string {
    Text.Decimal(raw.kind) + "|"
    + if raw.metadata.deviceId != 0 && raw.metadata.fileId != 0
      then Text.Decimal(raw.metadata.deviceId) + "|" + Text.Decimal(raw.metadata.fileId)
      else path
  }

  /** The key of the `k`-th probe; the salt is a 32-bit counter. */
  function CandidateKey(raw: RawEntry, path: string, k: nat): string {
    if k == 0 then BaseKey(raw, path)
    else SaltedKey(raw, path, k % 0x1_0000_0000)
  }

  function CandidateId(hash: Hash, raw: RawEntry, path: string, k: nat): u64 {
    var id := hash(CandidateKey(raw, path, k));
    if id == 0 then 1 else id
  }

  ghost predicate IsFirstFresh(hash: Hash, raw: RawEntry, path: string, used: set<u64>, k: nat) {
    && CandidateId(hash, raw, path, k) !in used
    && forall j: nat :: j < k ==> CandidateId(hash, raw, path, j) in used
  }

  /** Some probe finds an id that is not in use; without this the program loops forever. */
  ghost predicate ProbeEnds(hash: Hash, raw: RawEntry, path: string, used: set<u64>) {
    exists k: nat :: CandidateId(hash, raw, path, k) !in used
  }

  /** How many probes meet an id in use. */
  ghost function Probes(hash: Hash, raw: RawEntry, path: string, used: set<u64>): nat {
    if exists k: nat :: IsFirstFresh(hash, raw, path, used, k)
    then var k: nat :| IsFirstFresh(hash, raw, path, used, k); k
    else 0
  }

  lemma {:induction false} FirstFreshBelow(hash: Hash, raw: RawEntry, path: string, used: set<u64>, k: nat) returns (m: nat)
    requires CandidateId(hash, raw, path, k) !in used
    ensures m <= k && IsFirstFresh(hash, raw, path, used, m) && Probes(hash, raw, path, used) == m
  {
    hide CandidateId;
    if j: nat :| j < k && CandidateId(hash, raw, path, j) !in used {
      m := FirstFreshBelow(hash, raw, path, used, j);
    } else {
      m := k;
      assert IsFirstFresh(hash, raw, path, used, m);
      var p := Probes(hash, raw, path, used);
      assert IsFirstFresh(hash, raw, path, used, p);
      assert !(p < m) && !(m < p);
    }
  }

  function SaltedKey(raw: RawEntry, path: string, salt: nat): string {
    BaseKey(raw, path) + "|path=" + path + "|salt=" + Text.Decimal(salt)
  }

  method GenerateStableId(hash: Hash, raw: RawEntry, path: string, usedIds: map<u64, string>, diagnostics: seq<Diagnostic>)
    returns (id: u64, usedIds': map<u64, string>, diagnostics': seq<Diagnostic>)
    requires ProbeEnds(hash, raw, path, usedIds.Keys)
    ensures var k := Probes(hash, raw, path, usedIds.Keys);
      && id == CandidateId(hash, raw, path, k) && id !in usedIds && id != 0
      && usedIds' == usedIds[id := CandidateKey(raw, path, k)]
      && diagnostics' == diagnostics + Collisions(path, k)
  {
    hide BaseKey, SaltedKey, IsFirstFresh, Probes;
    ghost var w: nat :| CandidateId(hash, raw, path, w) !in usedIds.Keys;
    ghost var last := FirstFreshBelow(hash, raw, path, usedIds.Keys, w);
    var candidateKey := BaseKey(raw, path);
    var salt: u32 := 0;
    diagnostics' := diagnostics;
    ghost var k: nat := 0;
    while true
      invariant k <= last && salt == k % 0x1_0000_0000
      invariant candidateKey == CandidateKey(raw, path, k)
      invariant diagnostics' == diagnostics + Collisions(path, k)
      decreases last - k
    {
      id := hash(candidateKey);
      if id == 0 {
        id := 1;
      }
      StopsWhenFresh(hash, raw, path, usedIds.Keys, last, k);
      if id !in usedIds {
        usedIds' := usedIds[id := candidateKey];
        return;
      }
      salt := (salt + 1) % 0x1_0000_0000;
      candidateKey := SaltedKey(raw, path, salt);
      diagnostics' := diagnostics' + [StableIdCollision(path)];
      k := k + 1;
    }
  }

  lemma StopsWhenFresh(hash: Hash, raw: RawEntry, path: string, used: set<u64>, last: nat, k: nat)
    requires IsFirstFresh(hash, raw, path, used, last) && k <= last
    ensures CandidateId(hash, raw, path, k) !in used <==> k == last
  {}

  function Collisions(path: string, n: nat): seq<Diagnostic> {
    seq(n, _ => StableIdCollision(path))
  }

  // ---- The first loop: deduplication and ids ----

  datatype Gathered = Gathered(entries: seq<FileEntry>, usedIds: map<u64, string>, diagnostics: seq<Diagnostic>)

  ghost function Gather(hash: Hash, raws: seq<RawEntry>): Gathered {
    if raws == [] then Gathered([], map[], [])
    else GatherOne(hash, Gather(hash, raws[..|raws| - 1]), raws[|raws| - 1])
  }

  ghost function GatherOne(hash: Hash, g: Gathered, raw: RawEntry): Gathered {
    var path := Paths.Normalize(raw.path);
    if path in PathsOf(g.entries) then g.(diagnostics := g.diagnostics + [DuplicatePath(path)])
    else
      var k := Probes(hash, raw, path, g.usedIds.Keys);
      var id := CandidateId(hash, raw, path, k);
      Gathered(
        g.entries + [MakeEntry(raw, id)],
        g.usedIds[id := CandidateKey(raw, path, k)],
        g.diagnostics + Collisions(path, k))
  }

  function MakeEntry(raw: RawEntry, id: u64): FileEntry {
    var path := Paths.Normalize(raw.path);
    FileEntry(id, 0, path, if raw.name == "" then Paths.Filename(path) else raw.name, raw.kind, raw.metadata)
  }

  /** Every probe of the first loop ends, when the entries are gathered in this order. */
  ghost predicate ProbesEnd(hash: Hash, raws: seq<RawEntry>) {
    forall i {:trigger ProbeEndsAt(hash, raws, i)} :: 0 <= i < |raws| ==> ProbeEndsAt(hash, raws, i)
  }

  /** The i-th entry is a duplicate, or its probe ends on the ids that are then in use. */
  ghost predicate ProbeEndsAt(hash: Hash, raws: seq<RawEntry>, i: nat)
    requires i < |raws|
  {
    var g, path := Gather(hash, raws[..i]), Paths.Normalize(raws[i].path);
    path in PathsOf(g.entries) || ProbeEnds(hash, raws[i], path, g.usedIds.Keys)
  }

  /** The build of a scan ends, in whatever order equal paths are sorted. */
  ghost predicate Probing(hash: Hash, scanned: seq<RawEntry>) {
    forall raws :: SortedBy(ByRawPath, raws) && Permutation(raws, scanned) ==> ProbesEnd(hash, raws)
  }

  /** The first `n` raw entries are gathered into entries with distinct ids and paths. */
  ghost predicate GatherOk(raws: seq<RawEntry>, g: Gathered) {
    && UniqueIds(g.entries) && UniquePaths(g.entries)
    && g.usedIds.Keys == Ids(g.entries) && |g.usedIds| == |g.entries| <= |raws|
    && (forall e :: e in g.entries ==> e.id != 0 && FromScan(raws, e))
    && (forall raw :: raw in raws ==> Paths.Normalize(raw.path) in PathsOf(g.entries))
  }

  ghost predicate FromScan(raws: seq<RawEntry>, e: FileEntry) {
    exists raw :: raw in raws && e.(parentId := 0) == MakeEntry(raw, e.id)
  }

  lemma UniqueAppend(es: seq<FileEntry>, e: FileEntry)
    requires UniqueIds(es) && UniquePaths(es) && e.id !in Ids(es) && e.path !in PathsOf(es)
    ensures UniqueIds(es + [e]) && UniquePaths(es + [e])
  {
    forall i | 0 <= i < |es| ensures es[i].id != e.id && es[i].path != e.path {
      assert es[i] in es && es[i].id in Ids(es) && es[i].path in PathsOf(es);
    }
  }

  lemma KeysAppend(es: seq<FileEntry>, e: FileEntry)
    ensures Ids(es + [e]) == Ids(es) + {e.id} && PathsOf(es + [e]) == PathsOf(es) + {e.path}
  {
    assert forall x :: x in es + [e] <==> x in es || x == e;
    assert e in es + [e];
  }

  lemma FromMore(raws: seq<RawEntry>, raw: RawEntry, e: FileEntry)
    requires FromScan(raws, e)
    ensures FromScan(raws + [raw], e)
  {
    var source :| source in raws && e.(parentId := 0) == MakeEntry(source, e.id);
    assert source in raws + [raw];
  }

  lemma FromLast(raws: seq<RawEntry>, raw: RawEntry, id: u64)
    ensures FromScan(raws + [raw], MakeEntry(raw, id))
  {
    assert raw in raws + [raw];
  }

  lemma GatherOneOk(hash: Hash, raws: seq<RawEntry>, g: Gathered, raw: RawEntry)
    requires GatherOk(raws, g)
    requires Paths.Normalize(raw.path) in PathsOf(g.entries) || ProbeEnds(hash, raw, Paths.Normalize(raw.path), g.usedIds.Keys)
    ensures GatherOk(raws + [raw], GatherOne(hash, g, raw))
  {
    hide Paths.Normalize, Paths.Filename, CandidateId, CandidateKey, FromScan, UniqueIds, UniquePaths, Ids, PathsOf, Probes;
    var path := Paths.Normalize(raw.path);
    forall e | e in g.entries ensures FromScan(raws + [raw], e) { FromMore(raws, raw, e); }
    if path !in PathsOf(g.entries) {
      var w: nat :| CandidateId(hash, raw, path, w) !in g.usedIds.Keys;
      var k := FirstFreshBelow(hash, raw, path, g.usedIds.Keys, w);
      CandidateNotZero(hash, raw, path, k);
      var id := CandidateId(hash, raw, path, k);
      UniqueAppend(g.entries, MakeEntry(raw, id));
      KeysAppend(g.entries, MakeEntry(raw, id));
      FromLast(raws, raw, id);
    }
  }

  lemma CandidateNotZero(hash: Hash, raw: RawEntry, path: string, k: nat)
    ensures CandidateId(hash, raw, path, k) != 0
  {}

  lemma ProbesEndBefore(hash: Hash, raws: seq<RawEntry>, n: nat)
    requires ProbesEnd(hash, raws) && n <= |raws|
    ensures ProbesEnd(hash, raws[..n])
  {
    hide Gather, ProbeEnds, Paths.Normalize;
    forall i | 0 <= i < n ensures ProbeEndsAt(hash, raws[..n], i) {
      assert ProbeEndsAt(hash, raws, i) && raws[..n][..i] == raws[..i];
    }
  }

  lemma {:induction false} GatherIsOk(hash: Hash, raws: seq<RawEntry>)
    requires ProbesEnd(hash, raws)
    ensures GatherOk(raws, Gather(hash, raws))
  {
    hide GatherOne, GatherOk, ProbeEnds, Paths.Normalize, PathsOf, ProbesEnd;
    if raws == [] {
      NothingGathered();
    } else {
      var n := |raws| - 1;
      ProbesEndBefore(hash, raws, n);
      GatherIsOk(hash, raws[..n]);
      assert ProbeEndsAt(hash, raws, n) by { ProbesEndAt(hash, raws, n); }
      GatherOneOk(hash, raws[..n], Gather(hash, raws[..n]), raws[n]);
      assert raws == raws[..n] + [raws[n]];
    }
  }

  lemma ProbesEndAt(hash: Hash, raws: seq<RawEntry>, i: nat)
    requires ProbesEnd(hash, raws) && i < |raws|
    ensures ProbeEndsAt(hash, raws, i)
  {}

  /** No set of ids smaller than the scan uses up all the probes of an entry. */
  ghost predicate Roomy(hash: Hash, raws: seq<RawEntry>) {
    forall raw, used: set<u64> {:trigger ProbeEnds(hash, raw, Paths.Normalize(raw.path), used)} ::
      raw in raws && |used| < |raws| ==> ProbeEnds(hash, raw, Paths.Normalize(raw.path), used)
  }

  /** A hash with enough values is enough for every probe to end. */
  lemma RoomyHashEnds(hash: Hash, raws: seq<RawEntry>)
    requires Roomy(hash, raws)
    ensures ProbesEnd(hash, raws)
  {
    hide ProbeEnds, Paths.Normalize, PathsOf, GatherOk, Gather;
    forall i | 0 <= i < |raws| ensures ProbeEndsAt(hash, raws, i) { RoomyEndsUpTo(hash, raws, i + 1); }
  }

  lemma {:induction false} RoomyEndsUpTo(hash: Hash, raws: seq<RawEntry>, n: nat)
    requires n <= |raws|
    requires Roomy(hash, raws)
    ensures forall i {:trigger ProbeEndsAt(hash, raws, i)} :: 0 <= i < n ==> ProbeEndsAt(hash, raws, i)
  {
    hide ProbeEnds, Paths.Normalize, PathsOf, GatherOk, Gather;
    if n > 0 {
      RoomyEndsUpTo(hash, raws, n - 1);
      var front := raws[..n - 1];
      forall i | 0 <= i < n - 1 ensures ProbeEndsAt(hash, front, i) {
        assert ProbeEndsAt(hash, raws, i) && front[..i] == raws[..i];
      }
      GatherIsOk(hash, front);
      GatheredCount(front, Gather(hash, front));
      assert ProbeEnds(hash, raws[n - 1], Paths.Normalize(raws[n - 1].path), Gather(hash, front).usedIds.Keys);
    }
  }

  lemma NothingGathered()
    ensures GatherOk([], Gathered([], map[], []))
  {}

  lemma GatheredCount(raws: seq<RawEntry>, g: Gathered)
    requires GatherOk(raws, g)
    ensures |g.usedIds.Keys| <= |raws|
  {}

  /** Where each path is found, as `path_to_index` records it. */
  ghost predicate IndexOk(index: map<string, nat>, es: seq<FileEntry>) {
    && index.Keys == PathsOf(es)
    && forall p :: p in index ==> index[p] < |es| && es[index[p]].path == p
  }

  method GatherEntries(hash: Hash, raws: seq<RawEntry>)
    returns (entries: seq<FileEntry>, index: map<string, nat>, diagnostics: seq<Diagnostic>)
    requires ProbesEnd(hash, raws)
    ensures entries == Gather(hash, raws).entries && diagnostics == Gather(hash, raws).diagnostics
    ensures IndexOk(index, entries)
  {
    hide Paths.Normalize, Paths.Filename, ProbeEnds, GatherOk, CandidateId, CandidateKey;
    entries, index, diagnostics := [], map[], [];
    var usedIds: map<u64, string> := map[];
    for i := 0 to |raws|
      invariant Gather(hash, raws[..i]) == Gathered(entries, usedIds, diagnostics)
      invariant IndexOk(index, entries)
    {
      assert raws[..i + 1][..i] == raws[..i] && raws[..i + 1][i] == raws[i];
      var path := Paths.Normalize(raws[i].path);
      if path in index {
        diagnostics := diagnostics + [DuplicatePath(path)];
        continue;
      }
      assert ProbeEndsAt(hash, raws, i);
      var id;
      id, usedIds, diagnostics := GenerateStableId(hash, raws[i], path, usedIds, diagnostics);
      index := index[path := |entries|];
      entries := entries + [MakeEntry(raws[i], id)];
    }
    assert raws[..|raws|] == raws;
  }

  // ---- The second loop: parents and the root ----

  /** The id of the entry at a path; 0 when there is none. */
  function IdAtPath(es: seq<FileEntry>, path: string): u64 {
    if es == [] then 0
    else if es[|es| - 1].path == path then es[|es| - 1].id
    else IdAtPath(es[..|es| - 1], path)
  }

  lemma {:induction false} IdAtPathFinds(es: seq<FileEntry>, i: nat)
    requires UniquePaths(es) && i < |es|
    ensures IdAtPath(es, es[i].path) == es[i].id
  {
    var n := |es| - 1;
    if i < n {
      assert es[i].path != es[n].path;
      IdAtPathFinds(es[..n], i);
    }
  }

  lemma {:induction false} IdAtPathNone(es: seq<FileEntry>, path: string)
    requires path !in PathsOf(es)
    ensures IdAtPath(es, path) == 0
  {
    if es != [] {
      assert es[|es| - 1] in es;
      IdAtPathNone(es[..|es| - 1], path);
    }
  }

  function Linked(es: seq<FileEntry>, root: string, e: FileEntry): FileEntry {
    e.(parentId := if e.path == root then 0 else IdAtPath(es, Paths.Parent(e.path)))
  }

  function LinkAll(es: seq<FileEntry>, root: string): seq<FileEntry> {
    seq(|es|, i requires 0 <= i < |es| => Linked(es, root, es[i]))
  }

  function MissingParents(es: seq<FileEntry>, root: string, n: nat): seq<Diagnostic>
    requires n <= |es|
  {
    if n == 0 then []
    else
      var e := es[n - 1];
      MissingParents(es, root, n - 1)
      + if e.path != root && Paths.Parent(e.path) !in PathsOf(es) then [ParentPathMissing(e.path)] else []
  }

  /** The value the loop finds in the index is the id at the path. */
  lemma IndexFindsPath(index: map<string, nat>, es: seq<FileEntry>, path: string)
    requires UniquePaths(es) && IndexOk(index, es)
    ensures path in index <==> path in PathsOf(es)
    ensures path !in index ==> IdAtPath(es, path) == 0
    ensures path in index ==> index[path] < |es| && IdAtPath(es, path) == es[index[path]].id
  {
    if path in index { IdAtPathFinds(es, index[path]); } else { IdAtPathNone(es, path); }
  }

  /** The entries after the loop has linked the first `n`. */
  ghost predicate LinkedUpTo(es: seq<FileEntry>, root: string, entries: seq<FileEntry>, n: nat) {
    && |entries| == |es|
    && (forall j :: 0 <= j < n && j < |es| ==> entries[j] == Linked(es, root, es[j]))
    && (forall j :: n <= j < |es| ==> entries[j] == es[j])
  }

  lemma IdsAreKept(es: seq<FileEntry>, root: string, entries: seq<FileEntry>, n: nat, j: nat)
    requires LinkedUpTo(es, root, entries, n) && j < |es|
    ensures entries[j].id == es[j].id && entries[j].path == es[j].path
  {}

  lemma LinkStep(es: seq<FileEntry>, root: string, entries: seq<FileEntry>, n: nat, parentId: u64)
    requires LinkedUpTo(es, root, entries, n) && n < |es|
    requires parentId == if es[n].path == root then 0 else IdAtPath(es, Paths.Parent(es[n].path))
    ensures entries[n] == es[n] && LinkedUpTo(es, root, entries[n := es[n].(parentId := parentId)], n + 1)
  {}

  method LinkEntries(es: seq<FileEntry>, index: map<string, nat>, root: string)
    returns (entries: seq<FileEntry>, rootEntryId: u64, diagnostics: seq<Diagnostic>)
    requires UniquePaths(es) && IndexOk(index, es)
    ensures entries == LinkAll(es, root) && rootEntryId == IdAtPath(es, root)
    ensures diagnostics == MissingParents(es, root, |es|)
  {
    hide Paths.Parent, LinkedUpTo, PathsOf, IndexOk, UniquePaths;
    entries, rootEntryId, diagnostics := es, 0, [];
    NoneLinked(es, root);
    for i := 0 to |es|
      invariant |entries| == |es|
      invariant LinkedUpTo(es, root, entries, i)
      invariant rootEntryId == IdAtPath(es[..i], root)
      invariant diagnostics == MissingParents(es, root, i)
    {
      assert es[..i + 1][..i] == es[..i];
      IdsAreKept(es, root, entries, i, i);
      var parentPath := Paths.Parent(entries[i].path);
      IndexFindsPath(index, es, parentPath);
      LinkStep(es, root, entries, i, if es[i].path == root then 0 else IdAtPath(es, parentPath));
      if entries[i].path == root {
        rootEntryId := entries[i].id;
        entries := entries[i := entries[i].(parentId := 0)];
      } else if parentPath !in index {
        diagnostics := diagnostics + [ParentPathMissing(entries[i].path)];
        entries := entries[i := entries[i].(parentId := 0)];
      } else {
        IdsAreKept(es, root, entries, i, index[parentPath]);
        entries := entries[i := entries[i].(parentId := entries[index[parentPath]].id)];
      }
    }
    assert es[..|es|] == es;
    AllLinked(es, root, entries);
  }

  lemma NoneLinked(es: seq<FileEntry>, root: string)
    ensures LinkedUpTo(es, root, es, 0)
  {}

  lemma AllLinked(es: seq<FileEntry>, root: string, entries: seq<FileEntry>)
    requires LinkedUpTo(es, root, entries, |es|)
    ensures entries == LinkAll(es, root)
  {}

  // ---- The whole build ----

  predicate ByRawPath(a: RawEntry, b: RawEntry) {
    StringLess(a.path, b.path)
  }

  lemma ByRawPathIsOrder()
    ensures StrictWeakOrder(ByRawPath)
  {
    StringLessIsOrder();
  }

  /** The build of a scan whose entries were put in the order `raws`. */
  ghost function BuildFrom(hash: Hash, digest: Digest, scan: RawScan, options: BuildOptions, raws: seq<RawEntry>): BuildResult {
    var g := Gather(hash, raws);
    var root := Paths.Normalize(scan.rootPath);
    var linked := LinkAll(g.entries, root);
    var diagnostics := g.diagnostics + MissingParents(g.entries, root, |g.entries|);
    var found := IdAtPath(g.entries, root);
    var fallback := found == 0 && linked != [];
    var entries := if fallback then linked[0 := linked[0].(parentId := 0)] else linked;
    BuildResult(
      Named(digest, Snapshot(
        CURRENT_SCHEMA, options.snapshotId, if options.createdAt != 0 then options.createdAt else scan.scannedAt,
        scan.hostIdentifier, if fallback then linked[0].id else found, entries)),
      if fallback then diagnostics + [RootEntryMissing(root)] else diagnostics)
  }

  function Named(digest: Digest, s: Snapshot): Snapshot {
    if s.snapshotId != 0 then s
    else s.(snapshotId := if digest(s) == 0 then 1 else digest(s))
  }

  ghost predicate IsBuild(hash: Hash, digest: Digest, scan: RawScan, options: BuildOptions, r: BuildResult) {
    exists raws :: IsBuildVia(hash, digest, scan, options, raws, r)
  }

  ghost predicate IsBuildVia(hash: Hash, digest: Digest, scan: RawScan, options: BuildOptions, raws: seq<RawEntry>, r: BuildResult) {
    SortedBy(ByRawPath, raws) && Permutation(raws, scan.entries) && r == BuildFrom(hash, digest, scan, options, raws)
  }

  method Build(hash: Hash, digest: Digest, scan: RawScan, options: BuildOptions) returns (result: BuildResult)
    requires Probing(hash, scan.entries)
    ensures IsBuild(hash, digest, scan, options, result)
  {
    hide Paths.Normalize, LinkAll, Gather, ProbesEnd, GatherOk;
    ByRawPathIsOrder();
    var raws := Sort(ByRawPath, scan.entries);
    assert ProbesEnd(hash, raws);
    var gathered, index, diagnostics := GatherEntries(hash, raws);
    GatherIsOk(hash, raws);
    GatheredKeys(raws, Gather(hash, raws));
    var root := Paths.Normalize(scan.rootPath);
    var entries, rootEntryId, missing := LinkEntries(gathered, index, root);
    diagnostics := diagnostics + missing;
    if rootEntryId == 0 && entries != [] {
      rootEntryId := entries[0].id;
      entries := entries[0 := entries[0].(parentId := 0)];
      diagnostics := diagnostics + [RootEntryMissing(root)];
    }
    var createdAt := if options.createdAt != 0 then options.createdAt else scan.scannedAt;
    var snapshot := Snapshot(CURRENT_SCHEMA, options.snapshotId, createdAt, scan.hostIdentifier, rootEntryId, entries);
    if snapshot.snapshotId == 0 {
      var id := digest(snapshot);
      snapshot := snapshot.(snapshotId := if id == 0 then 1 else id);
    }
    result := BuildResult(snapshot, diagnostics);
    assert IsBuildVia(hash, digest, scan, options, raws, result);
  }

  lemma GatheredKeys(raws: seq<RawEntry>, g: Gathered)
    requires GatherOk(raws, g)
    ensures UniqueIds(g.entries) && UniquePaths(g.entries)
  {}

  /** Main result: when no two scanned paths are equal, the snapshot and the diagnostics do not
      depend on the order in which the entries were scanned. */
  lemma OrderDoesNotMatter(hash: Hash, digest: Digest, first: RawScan, second: RawScan, options: BuildOptions,
                           r1: BuildResult, r2: BuildResult)
    requires Permutation(first.entries, second.entries) && second == first.(entries := second.entries)
    requires forall i, j :: 0 <= i < j < |first.entries| ==> first.entries[i].path != first.entries[j].path
    requires IsBuild(hash, digest, first, options, r1) && IsBuild(hash, digest, second, options, r2)
    ensures r1 == r2
  {
    hide BuildFrom, Permutation;
    var raws1 :| IsBuildVia(hash, digest, first, options, raws1, r1);
    var raws2 :| IsBuildVia(hash, digest, second, options, raws2, r2);
    assert Permutation(raws1, raws2) by { PermutationChain(raws1, first.entries, second.entries, raws2); }
    PermutationMembers(raws1, first.entries) by { assert Permutation(raws1, first.entries); }
    forall x, y | x in raws1 && y in raws1 && x != y ensures ByRawPath(x, y) || ByRawPath(y, x) {
      var i :| 0 <= i < |first.entries| && first.entries[i] == x;
      var j :| 0 <= j < |first.entries| && first.entries[j] == y;
      assert x.path != y.path;
      StringLessTotal(x.path, y.path);
    }
    var less := ByRawPath;
    assert Separates(less, raws1);
    SortIsUnique(less, raws1, raws2);
    assert BuildFrom(hash, digest, first, options, raws1) == BuildFrom(hash, digest, second, options, raws1) by {
      SameScanSameBuild(hash, digest, first, second, options, raws1);
    }
  }

  lemma PermutationChain<T>(a: seq<T>, b: seq<T>, c: seq<T>, d: seq<T>)
    requires Permutation(a, b) && Permutation(b, c) && Permutation(d, c)
    ensures Permutation(a, d)
  {}

  lemma SameScanSameBuild(hash: Hash, digest: Digest, first: RawScan, second: RawScan, options: BuildOptions, raws: seq<RawEntry>)
    requires second == first.(entries := second.entries)
    ensures BuildFrom(hash, digest, first, options, raws) == BuildFrom(hash, digest, second, options, raws)
  {}
}
