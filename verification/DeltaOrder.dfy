/** What the greedy matcher and the sorts decide, on the fields of the entries: which of several
    alike entries are paired, and in which order the lists of a delta come. */
module DeltaOrder {
  import opened Domain
  import opened Sorting
  import opened DeltaEngine
  import opened DeltaLaws

  /** Device and inode, when both are known. */
  function Inode(m: FileMetadata): (u64, u64) {
    if m.deviceId != 0 && m.fileId != 0 then (m.deviceId, m.fileId) else (0, 0)
  }

  /** The same type, size and modification time, and the same inode as far as it is known. */
  predicate SameKind(e: FileEntry, f: FileEntry) {
    && e.kind == f.kind && e.metadata.sizeBytes == f.metadata.sizeBytes
    && e.metadata.modifiedAt == f.metadata.modifiedAt && Inode(e.metadata) == Inode(f.metadata)
  }

  lemma FingerprintIff(hash: Hash, e: FileEntry, f: FileEntry)
    ensures MakeFingerprint(hash, e) == MakeFingerprint(hash, f) <==> SameKind(e, f) && hash(e.name) == hash(f.name)
  {}

  // ---- Ranks follow the order ----

  lemma {:induction false} CountGrows(hash: Hash, es: seq<FileEntry>, i: nat, k: nat, f: Fingerprint)
    requires i <= k <= |es|
    ensures Count(hash, es[..i], f) <= Count(hash, es[..k], f)
    decreases k
  {
    if i < k {
      CountGrows(hash, es, i, k - 1, f);
      assert es[..k][..k - 1] == es[..k - 1];
    }
  }

  lemma RankGrows(hash: Hash, es: seq<FileEntry>, i: nat, k: nat)
    requires i < k < |es| && MakeFingerprint(hash, es[i]) == MakeFingerprint(hash, es[k])
    ensures Rank(hash, es, i) < Rank(hash, es, k)
  {
    var f := MakeFingerprint(hash, es[i]);
    assert es[..i + 1][..i] == es[..i];
    CountGrows(hash, es, i + 1, k, f);
  }

  /** With distinct paths, a place in the sorted list is a place in the order of the paths. */
  lemma PlaceIsOrder(es: seq<FileEntry>, i: nat, k: nat)
    requires SortedBy(ByPath, es) && UniquePaths(es) && i < |es| && k < |es|
    ensures i < k <==> StringLess(es[i].path, es[k].path)
  {
    StringLessIsOrder();
    var less := ByPath;
    if i < k { assert !less(es[k], es[i]); }
    if k < i { assert !less(es[i], es[k]); }
  }

  // ---- The matcher ----

  /** How the renames between two ids and the rest of a delta come about. */
  lemma Matched(base: Snapshot, target: Snapshot, heuristic: bool, hash: Hash, delta: DeltaSnapshot)
    returns (removed: seq<FileEntry>, added: seq<FileEntry>)
    requires UniqueKeys(base) && UniqueKeys(target) && IsDelta(base, target, heuristic, hash, delta)
    ensures UniqueEntries(removed) && UniqueEntries(added)
    ensures forall e :: e in removed <==> e in base.entries && e.id !in Ids(target.entries)
    ensures forall e :: e in added <==> e in target.entries && e.id !in Ids(base.entries)
    ensures heuristic ==> SortedBy(ByPath, removed) && SortedBy(ByPath, added)
    ensures forall r :: r in delta.renamed && r.beforeId != r.afterId ==> heuristic && r in Pairs(hash, removed, added)
    ensures forall e :: e in delta.removed <==> e in if heuristic then Leftover(hash, removed, added) else removed
    ensures forall e :: e in delta.added <==> e in if heuristic then Leftover(hash, added, removed) else added
  {
    hide Ids, Permutation, UniqueIds, UniquePaths, SortedBy, Pairs, Leftover, SharedRenames, SharedModified;
    removed, added :| IsDeltaVia(base, target, heuristic, hash, removed, added, delta);
    var baseById, targetById := IndexById(base.entries), IndexById(target.entries);
    UnmatchedKeys(removed, base.entries, targetById);
    UnmatchedKeys(added, target.entries, baseById);
    IndexedIffListed(base.entries);
    IndexedIffListed(target.entries);
    PermutationMembers(delta.removed, if heuristic then Leftover(hash, removed, added) else removed);
    PermutationMembers(delta.added, if heuristic then Leftover(hash, added, removed) else added);
    PermutationMembers(delta.renamed, SharedRenames(base.entries, targetById) + HeuristicPairs(heuristic, hash, removed, added));
    forall r | r in delta.renamed && r.beforeId != r.afterId ensures heuristic && r in Pairs(hash, removed, added) {
      RenameSource(base, target, heuristic, hash, removed, added, r);
    }
  }

  lemma IndexedIffListed(es: seq<FileEntry>)
    ensures forall id :: id in IndexById(es) <==> id in Ids(es)
  {}

  /** A rename between two ids comes from the heuristic, which pairs entries that look alike. */
  lemma HeuristicRename(base: Snapshot, target: Snapshot, heuristic: bool, hash: Hash, delta: DeltaSnapshot, r: RenamedEntry)
    returns (e: FileEntry, f: FileEntry)
    requires UniqueKeys(base) && UniqueKeys(target) && IsDelta(base, target, heuristic, hash, delta)
    requires r in delta.renamed && r.beforeId != r.afterId
    ensures heuristic && MakeFingerprint(hash, e) == MakeFingerprint(hash, f) && r == Rename(e, f)
    ensures SameKind(e, f) && hash(e.name) == hash(f.name)
    ensures e in base.entries && e.id !in Ids(target.entries) && f in target.entries && f.id !in Ids(base.entries)
  {
    hide MakeFingerprint, Ids, IsDelta, Pairs, SortedBy, SameKind;
    var removed, added := Matched(base, target, heuristic, hash, delta);
    var i, j := PairFrom(hash, removed, added, r);
    e, f := removed[i], added[j];
    FingerprintIff(hash, e, f);
  }

  /** Main result: of several entries that are gone and look alike, the matcher pairs those whose paths
      come first, and of several new ones as well. */
  lemma FirstByPathIsPaired(base: Snapshot, target: Snapshot, heuristic: bool, hash: Hash, delta: DeltaSnapshot, r: RenamedEntry)
    requires UniqueKeys(base) && UniqueKeys(target) && IsDelta(base, target, heuristic, hash, delta)
    requires r in delta.renamed && r.beforeId != r.afterId
    ensures forall e, x :: e in base.entries && e.id == r.beforeId && x in delta.removed && SameKind(e, x) && e.name == x.name ==>
      StringLess(r.oldPath, x.path)
    ensures forall e, x :: e in target.entries && e.id == r.afterId && x in delta.added && SameKind(e, x) && e.name == x.name ==>
      StringLess(r.newPath, x.path)
  {
    hide IsDelta, MakeFingerprint, Pairs, Leftover, SameKind, Rank, Count, Ids, SortedBy;
    var removed, added := Matched(base, target, heuristic, hash, delta);
    var i, j := PairFrom(hash, removed, added, r);
    forall e, x | e in base.entries && e.id == r.beforeId && x in delta.removed && SameKind(e, x) && e.name == x.name
      ensures StringLess(r.oldPath, x.path)
    {
      SameId(base.entries, e, removed[i]);
      PairedBeforeLeft(hash, removed, added, i, j, x);
    }
    forall e, x | e in target.entries && e.id == r.afterId && x in delta.added && SameKind(e, x) && e.name == x.name
      ensures StringLess(r.newPath, x.path)
    {
      SameId(target.entries, e, added[j]);
      MatchedBothWays(hash, removed, added, i, j);
      PairedBeforeLeft(hash, added, removed, j, i, x);
    }
  }

  lemma MatchedBothWays(hash: Hash, xs: seq<FileEntry>, ys: seq<FileEntry>, i: nat, j: nat)
    requires MatchedAt(hash, xs, ys, i, j)
    ensures MatchedAt(hash, ys, xs, j, i)
  {}

  lemma SameId(es: seq<FileEntry>, e: FileEntry, f: FileEntry)
    requires UniqueIds(es) && e in es && f in es && e.id == f.id
    ensures e == f
  {}

  /** What is paired comes before what is left over of its kind. */
  lemma PairedBeforeLeft(hash: Hash, xs: seq<FileEntry>, ys: seq<FileEntry>, i: nat, j: nat, x: FileEntry)
    requires UniqueEntries(xs) && SortedBy(ByPath, xs) && MatchedAt(hash, xs, ys, i, j)
    requires x in Leftover(hash, xs, ys) && SameKind(xs[i], x) && xs[i].name == x.name
    ensures StringLess(xs[i].path, x.path)
  {
    hide Leftover, SameKind, MakeFingerprint, SortedBy, Rank, Count;
    var k := LeftoverFrom(hash, xs, ys, x);
    FingerprintIff(hash, xs[i], xs[k]);
    PartnerExists(hash, xs, ys, i);
    PartnerExists(hash, xs, ys, k);
    if k < i { RankGrows(hash, xs, k, i); }
    PlaceIsOrder(xs, i, k);
  }

  /** Main result: the matcher leaves no alike pair, one gone and one new, unpaired. */
  lemma NoAlikeLeft(base: Snapshot, target: Snapshot, hash: Hash, delta: DeltaSnapshot, x: FileEntry, y: FileEntry)
    requires UniqueKeys(base) && UniqueKeys(target) && IsDelta(base, target, true, hash, delta)
    requires x in delta.removed && y in delta.added
    ensures !(SameKind(x, y) && x.name == y.name)
  {
    hide IsDelta, MakeFingerprint, Pairs, Leftover, SameKind, Rank, Ids, SortedBy;
    var removed, added := Matched(base, target, true, hash, delta);
    var i := LeftoverFrom(hash, removed, added, x);
    var j := LeftoverFrom(hash, added, removed, y);
    FingerprintIff(hash, x, y);
    PartnerExists(hash, removed, added, i);
    PartnerExists(hash, added, removed, j);
    PositionsByRank(hash, removed, MakeFingerprint(hash, x));
    PositionsByRank(hash, added, MakeFingerprint(hash, y));
  }

  /** Main result: alike entries are paired in the order of their paths on both sides. */
  lemma PairsKeepOrder(base: Snapshot, target: Snapshot, heuristic: bool, hash: Hash, delta: DeltaSnapshot,
                       r: RenamedEntry, s: RenamedEntry, e: FileEntry, f: FileEntry)
    requires UniqueKeys(base) && UniqueKeys(target) && IsDelta(base, target, heuristic, hash, delta)
    requires r in delta.renamed && r.beforeId != r.afterId && s in delta.renamed && s.beforeId != s.afterId
    requires e in base.entries && e.id == r.beforeId && f in base.entries && f.id == s.beforeId && SameKind(e, f) && e.name == f.name
    ensures StringLess(r.oldPath, s.oldPath) <==> StringLess(r.newPath, s.newPath)
  {
    hide IsDelta, MakeFingerprint, Pairs, SameKind, Rank, Ids, SortedBy;
    var removed, added := Matched(base, target, heuristic, hash, delta);
    var i, j := PairFrom(hash, removed, added, r);
    var k, l := PairFrom(hash, removed, added, s);
    SameId(base.entries, e, removed[i]);
    SameId(base.entries, f, removed[k]);
    FingerprintIff(hash, e, f);
    PlaceIsOrder(removed, i, k);
    PlaceIsOrder(added, j, l);
    if i < k { RankGrows(hash, removed, i, k); }
    if k < i { RankGrows(hash, removed, k, i); }
    if j < l { RankGrows(hash, added, j, l); }
    if l < j { RankGrows(hash, added, l, j); }
  }

  // ---- Entries that both sides have ----

  /** Main result: an id on both sides is a rename from the old path to the new exactly when the paths differ, and is
      modified, with the metadata of both, exactly when metadata or types differ. */
  lemma SharedAreListed(base: Snapshot, target: Snapshot, heuristic: bool, hash: Hash, delta: DeltaSnapshot, e: FileEntry, f: FileEntry)
    requires UniqueKeys(base) && UniqueKeys(target) && IsDelta(base, target, heuristic, hash, delta)
    requires e in base.entries && f in target.entries && e.id == f.id
    ensures e.path != f.path <==> RenamedEntry(e.id, e.id, e.path, f.path) in delta.renamed
    ensures e.metadata != f.metadata || e.kind != f.kind <==> ModifiedEntry(e.id, e.metadata, f.metadata) in delta.modified
    ensures e !in delta.removed && f !in delta.added
  {
    hide IsDelta, SortedBy;
    ComputeShape(base, target, heuristic, hash, delta);
    IndexFinds(base.entries, e);
    IndexFinds(target.entries, f);
    SharedShape(base, target, delta, e, f);
  }

  lemma SharedShape(base: Snapshot, target: Snapshot, delta: DeltaSnapshot, e: FileEntry, f: FileEntry)
    requires DeltaShape(base, target, delta) && e.id == f.id
    requires var b, t := IndexById(base.entries), IndexById(target.entries); e.id in b && b[e.id] == e && f.id in t && t[f.id] == f
    ensures e.path != f.path <==> RenamedEntry(e.id, e.id, e.path, f.path) in delta.renamed
    ensures e.metadata != f.metadata || e.kind != f.kind <==> ModifiedEntry(e.id, e.metadata, f.metadata) in delta.modified
    ensures e !in delta.removed && f !in delta.added
  {
    hide IndexById, UniqueEntries, SortedBy;
    var r := RenamedEntry(e.id, e.id, e.path, f.path);
    if r in delta.renamed {
      var i :| 0 <= i < |delta.renamed| && delta.renamed[i] == r;
      assert RenameOk(IndexById(base.entries), IndexById(target.entries), delta.renamed[i]);
    }
  }

  /** The ends of the delta are those of the snapshots. */
  lemma EndsAre(base: Snapshot, target: Snapshot, heuristic: bool, hash: Hash, delta: DeltaSnapshot)
    requires UniqueKeys(base) && UniqueKeys(target) && IsDelta(base, target, heuristic, hash, delta)
    ensures delta.baseSnapshotId == base.snapshotId && delta.targetSnapshotId == target.snapshotId
  {
    hide IsDelta, UniqueKeys;
    ComputeShape(base, target, heuristic, hash, delta);
  }

  // ---- The order of the lists ----

  /** Main result: added and removed entries come in the order of their paths, modified ones by id, and
      renames in the order of their old paths. */
  lemma ListsAreOrdered(base: Snapshot, target: Snapshot, heuristic: bool, hash: Hash, delta: DeltaSnapshot)
    requires UniqueKeys(base) && UniqueKeys(target) && IsDelta(base, target, heuristic, hash, delta)
    ensures forall i, j :: 0 <= i < j < |delta.added| ==> StringLess(delta.added[i].path, delta.added[j].path)
    ensures forall i, j :: 0 <= i < j < |delta.removed| ==> StringLess(delta.removed[i].path, delta.removed[j].path)
    ensures forall i, j :: 0 <= i < j < |delta.modified| ==> delta.modified[i].entryId < delta.modified[j].entryId
    ensures forall i, j :: 0 <= i < j < |delta.renamed| ==> StringLess(delta.renamed[i].oldPath, delta.renamed[j].oldPath)
  {
    ComputeShape(base, target, heuristic, hash, delta);
    var removed, added :| IsDeltaVia(base, target, heuristic, hash, removed, added, delta);
    hide DeltaShape, IsDeltaVia, UniqueKeys, UniquePaths, SortedBy, ByEntryId, ByRename;
    ShapeKeys(base, target, delta);
    SortedLists(base, target, heuristic, hash, removed, added, delta);
    forall i, j | 0 <= i < j < |delta.added| ensures StringLess(delta.added[i].path, delta.added[j].path) {
      PlaceById(delta.added, i, j);
    }
    forall i, j | 0 <= i < j < |delta.removed| ensures StringLess(delta.removed[i].path, delta.removed[j].path) {
      PlaceById(delta.removed, i, j);
    }
    forall i, j | 0 <= i < j < |delta.modified| ensures delta.modified[i].entryId < delta.modified[j].entryId {
      PlaceByEntry(delta.modified, i, j);
    }
    forall i, j | 0 <= i < j < |delta.renamed| ensures StringLess(delta.renamed[i].oldPath, delta.renamed[j].oldPath) {
      PlaceByOldPath(delta.renamed, i, j);
    }
  }

  lemma PlaceByEntry(ms: seq<ModifiedEntry>, i: nat, j: nat)
    requires SortedBy(ByEntryId, ms) && i < j < |ms| && ms[i].entryId != ms[j].entryId
    ensures ms[i].entryId < ms[j].entryId
  {
    var less := ByEntryId;
    assert !less(ms[j], ms[i]);
  }

  lemma PlaceByOldPath(rs: seq<RenamedEntry>, i: nat, j: nat)
    requires SortedBy(ByRename, rs) && i < j < |rs| && rs[i].oldPath != rs[j].oldPath
    ensures StringLess(rs[i].oldPath, rs[j].oldPath)
  {
    StringLessTotal(rs[i].oldPath, rs[j].oldPath);
    var less := ByRename;
    assert !less(rs[j], rs[i]);
  }

  lemma PlaceById(es: seq<FileEntry>, i: nat, j: nat)
    requires SortedBy(ByPathThenId, es) && UniquePaths(es) && i < j < |es|
    ensures StringLess(es[i].path, es[j].path)
  {
    StringLessTotal(es[i].path, es[j].path);
    var less := ByPathThenId;
    assert !less(es[j], es[i]);
  }

  lemma SortedLists(base: Snapshot, target: Snapshot, heuristic: bool, hash: Hash,
                    removed: seq<FileEntry>, added: seq<FileEntry>, delta: DeltaSnapshot)
    requires IsDeltaVia(base, target, heuristic, hash, removed, added, delta)
    ensures SortedBy(ByPathThenId, delta.added) && SortedBy(ByPathThenId, delta.removed)
    ensures SortedBy(ByEntryId, delta.modified) && SortedBy(ByRename, delta.renamed)
  {}

  lemma ShapeKeys(base: Snapshot, target: Snapshot, delta: DeltaSnapshot)
    requires UniqueKeys(base) && DeltaShape(base, target, delta)
    ensures UniquePaths(delta.added) && UniquePaths(delta.removed)
    ensures forall i, j :: 0 <= i < j < |delta.modified| ==> delta.modified[i].entryId != delta.modified[j].entryId
    ensures forall i, j :: 0 <= i < j < |delta.renamed| ==> delta.renamed[i].oldPath != delta.renamed[j].oldPath
  {
    var b, t, rs := IndexById(base.entries), IndexById(target.entries), delta.renamed;
    forall i, j | 0 <= i < j < |rs| ensures rs[i].oldPath != rs[j].oldPath {
      assert RenameOk(b, t, rs[i]) && RenameOk(b, t, rs[j]);
      assert b[rs[i].beforeId] in base.entries && b[rs[j].beforeId] in base.entries;
    }
  }
}
