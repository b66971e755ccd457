/** What the codes of the referential pass say about the lists of a delta. */
module DeltaReports {
  import opened Domain
  import opened DeltaValidator
  import opened Validators
  import opened Reports

  /** An id is in two of the three lists. */
  ghost predicate InTwoLists(d: DeltaSnapshot, id: u64) {
    var a, r, m := id in Ids(d.added), id in Ids(d.removed), id in ModifiedEntryIds(d.modified);
    (a && r) || (a && m) || (r && m)
  }

  lemma ListedIds(es: seq<FileEntry>)
    ensures forall id :: id in EntryIds(es) <==> id in Ids(es)
  {
    forall id | id in EntryIds(es) ensures id in Ids(es) {
      var i :| 0 <= i < |es| && EntryIds(es)[i] == id;
      assert es[i] in es;
    }
    forall id | id in Ids(es) ensures id in EntryIds(es) {
      var e :| e in es && e.id == id;
      var i := SomeEntryAt(es, e);
      assert EntryIds(es)[i] == id;
    }
  }

  lemma ConflictIff(d: DeltaSnapshot)
    ensures (exists id :: InTwoLists(d, id)) <==>
      || !NoneIn(EntryIds(d.added), EntryIds(d.removed) + ModifiedEntryIds(d.modified))
      || !NoneIn(EntryIds(d.removed), ModifiedEntryIds(d.modified))
  {
    var added, removed, modified := EntryIds(d.added), EntryIds(d.removed), ModifiedEntryIds(d.modified);
    ListedIds(d.added);
    ListedIds(d.removed);
    hide EntryIds, ModifiedEntryIds, Ids;
    if NoneIn(added, removed + modified) && NoneIn(removed, modified) {
      forall id ensures !InTwoLists(d, id) {}
    }
    if forall id :: !InTwoLists(d, id) {
      forall i | 0 <= i < |added| ensures added[i] !in removed + modified { assert !InTwoLists(d, added[i]); }
      forall i | 0 <= i < |removed| ensures removed[i] !in modified { assert !InTwoLists(d, removed[i]); }
    }
  }

  const LIST_CODES := {DeltaAddedEntryDuplicate, DeltaRemovedEntryDuplicate, DeltaModifiedEntryDuplicate,
                       DeltaRenamedEntryDuplicate, DeltaRenamePathConflict, DeltaConflictingOperations}

  ghost predicate ListFault(d: DeltaSnapshot, c: Code) {
    match c
    case DeltaAddedEntryDuplicate => exists i, j :: 0 <= i < j < |d.added| && d.added[i].id == d.added[j].id
    case DeltaRemovedEntryDuplicate => exists i, j :: 0 <= i < j < |d.removed| && d.removed[i].id == d.removed[j].id
    case DeltaModifiedEntryDuplicate => exists i, j :: 0 <= i < j < |d.modified| && d.modified[i].entryId == d.modified[j].entryId
    case DeltaRenamedEntryDuplicate =>
      || (exists i, j :: 0 <= i < j < |d.renamed| && d.renamed[i].beforeId == d.renamed[j].beforeId)
      || (exists i, j :: 0 <= i < j < |d.renamed| && d.renamed[i].afterId == d.renamed[j].afterId)
    case DeltaRenamePathConflict => exists i, j :: 0 <= i < j < |d.renamed| && d.renamed[i].newPath == d.renamed[j].newPath
    case DeltaConflictingOperations => exists id :: InTwoLists(d, id)
    case _ => false
  }

  /** The codes about the lists alone. */
  lemma ListReports(d: DeltaSnapshot, c: Code)
    ensures c in ListCodes(d) <==> ListFault(d, c)
  {
    hide EntryIds, ModifiedEntryIds, OldIds, NewIds, NewPaths, NoneIn, InTwoLists, When, Repeats, ListFault;
    var added, removed, modified := EntryIds(d.added), EntryIds(d.removed), ModifiedEntryIds(d.modified);
    InWhen(Repeats(added), DeltaAddedEntryDuplicate, c);
    InWhen(Repeats(removed), DeltaRemovedEntryDuplicate, c);
    InWhen(Repeats(modified), DeltaModifiedEntryDuplicate, c);
    InWhen(!NoneIn(added, removed + modified), DeltaConflictingOperations, c);
    InWhen(!NoneIn(removed, modified), DeltaConflictingOperations, c);
    ConflictFault(d);
    ListFaultsOnly(d, c);
    RepeatsAre(d);
  }

  lemma ConflictFault(d: DeltaSnapshot)
    ensures ListFault(d, DeltaConflictingOperations) <==>
      || !NoneIn(EntryIds(d.added), EntryIds(d.removed) + ModifiedEntryIds(d.modified))
      || !NoneIn(EntryIds(d.removed), ModifiedEntryIds(d.modified))
  {
    hide NoneIn, InTwoLists;
    ConflictIff(d);
  }

  lemma RepeatedEntries(es: seq<FileEntry>)
    ensures Repeats(EntryIds(es)) <==> exists i, j :: 0 <= i < j < |es| && es[i].id == es[j].id
  {
    var ids := EntryIds(es);
    assert forall i, j :: 0 <= i < j < |es| ==> (ids[i] == ids[j] <==> es[i].id == es[j].id);
  }

  lemma RepeatedModified(ms: seq<ModifiedEntry>)
    ensures Repeats(ModifiedEntryIds(ms)) <==> exists i, j :: 0 <= i < j < |ms| && ms[i].entryId == ms[j].entryId
  {
    var ids := ModifiedEntryIds(ms);
    assert forall i, j :: 0 <= i < j < |ms| ==> (ids[i] == ids[j] <==> ms[i].entryId == ms[j].entryId);
  }

  lemma RepeatedOlds(rs: seq<RenamedEntry>)
    ensures Repeats(OldIds(rs)) <==> exists i, j :: 0 <= i < j < |rs| && rs[i].beforeId == rs[j].beforeId
  {
    var ids := OldIds(rs);
    assert forall i, j :: 0 <= i < j < |rs| ==> (ids[i] == ids[j] <==> rs[i].beforeId == rs[j].beforeId);
  }

  lemma RepeatedNews(rs: seq<RenamedEntry>)
    ensures Repeats(NewIds(rs)) <==> exists i, j :: 0 <= i < j < |rs| && rs[i].afterId == rs[j].afterId
  {
    var ids := NewIds(rs);
    assert forall i, j :: 0 <= i < j < |rs| ==> (ids[i] == ids[j] <==> rs[i].afterId == rs[j].afterId);
  }

  lemma RepeatedPaths(rs: seq<RenamedEntry>)
    ensures Repeats(NewPaths(rs)) <==> exists i, j :: 0 <= i < j < |rs| && rs[i].newPath == rs[j].newPath
  {
    var paths := NewPaths(rs);
    assert forall i, j :: 0 <= i < j < |rs| ==> (paths[i] == paths[j] <==> rs[i].newPath == rs[j].newPath);
  }

  lemma RepeatsAre(d: DeltaSnapshot)
    ensures Repeats(EntryIds(d.added)) <==> ListFault(d, DeltaAddedEntryDuplicate)
    ensures Repeats(EntryIds(d.removed)) <==> ListFault(d, DeltaRemovedEntryDuplicate)
    ensures Repeats(ModifiedEntryIds(d.modified)) <==> ListFault(d, DeltaModifiedEntryDuplicate)
    ensures Repeats(OldIds(d.renamed)) || Repeats(NewIds(d.renamed)) <==> ListFault(d, DeltaRenamedEntryDuplicate)
    ensures Repeats(NewPaths(d.renamed)) <==> ListFault(d, DeltaRenamePathConflict)
  {
    hide EntryIds, ModifiedEntryIds, OldIds, NewIds, NewPaths, Repeats;
    RepeatedEntries(d.added);
    RepeatedEntries(d.removed);
    RepeatedModified(d.modified);
    RepeatedOlds(d.renamed);
    RepeatedNews(d.renamed);
    RepeatedPaths(d.renamed);
  }

  /** What a code says about a delta compared with the snapshots at hand. */
  ghost predicate DeltaFault(d: DeltaSnapshot, base: Option<Snapshot>, target: Option<Snapshot>, c: Code) {
    match c
    case DeltaBaseSnapshotIdZero => d.baseSnapshotId == 0
    case DeltaTargetSnapshotIdZero => d.targetSnapshotId == 0
    case DeltaBaseEqualsTarget => d.baseSnapshotId == d.targetSnapshotId != 0
    case _ => ListFault(d, c) || SideFault(d, base, target, c)
  }

  ghost predicate SideFault(d: DeltaSnapshot, base: Option<Snapshot>, target: Option<Snapshot>, c: Code) {
    match c
    case DeltaRemovedEntryMissingInBase => base.Some? && exists e :: e in d.removed && e.id !in Ids(base.value.entries)
    case DeltaModifiedEntryMissingInBase => base.Some? && exists m :: m in d.modified && m.entryId !in Ids(base.value.entries)
    case DeltaRenamedOldMissingInBase => base.Some? && exists r :: r in d.renamed && r.beforeId !in Ids(base.value.entries)
    case DeltaAddedEntryMissingInTarget => target.Some? && exists e :: e in d.added && e.id !in Ids(target.value.entries)
    case DeltaModifiedEntryMissingInTarget => target.Some? && exists m :: m in d.modified && m.entryId !in Ids(target.value.entries)
    case DeltaRenamedNewMissingInTarget => target.Some? && exists r :: r in d.renamed && r.afterId !in Ids(target.value.entries)
    case _ => false
  }

  const BASE_CODES := {DeltaRemovedEntryMissingInBase, DeltaModifiedEntryMissingInBase, DeltaRenamedOldMissingInBase}
  const TARGET_CODES := {DeltaAddedEntryMissingInTarget, DeltaModifiedEntryMissingInTarget, DeltaRenamedNewMissingInTarget}

  lemma SideFaultsOnly(d: DeltaSnapshot, base: Option<Snapshot>, target: Option<Snapshot>, c: Code)
    ensures SideFault(d, base, target, c) ==> c in BASE_CODES + TARGET_CODES
  {}

  /** Main result: what each code of the referential pass says, on the lists and the snapshots. */
  lemma CodesMean(d: DeltaSnapshot, base: Option<Snapshot>, target: Option<Snapshot>, c: Code)
    ensures c in DeltaCodes(d, base, target) <==> DeltaFault(d, base, target, c)
  {
    hide EntryIds, ModifiedEntryIds, OldIds, NewIds, Ids, When, ListCodes, SideCodes, ListFault, SideFault;
    ListReports(d, c);
    ListFaultsOnly(d, c);
    InWhen(d.baseSnapshotId == 0, DeltaBaseSnapshotIdZero, c);
    InWhen(d.targetSnapshotId == 0, DeltaTargetSnapshotIdZero, c);
    InWhen(d.baseSnapshotId == d.targetSnapshotId && d.baseSnapshotId != 0, DeltaBaseEqualsTarget, c);
    BaseSideMeans(d, base, target, c);
    TargetSideMeans(d, base, target, c);
    SideFaultsOnly(d, base, target, c);
  }

  lemma ListFaultsOnly(d: DeltaSnapshot, c: Code)
    ensures ListFault(d, c) ==> c in LIST_CODES
  {}

  lemma MissingEntries(es: seq<FileEntry>, known: set<u64>)
    ensures !AllIn(EntryIds(es), known) <==> exists e :: e in es && e.id !in known
  {
    if e :| e in es && e.id !in known {
      var i := SomeEntryAt(es, e);
      assert EntryIds(es)[i] !in known;
    }
  }

  lemma MissingModified(ms: seq<ModifiedEntry>, known: set<u64>)
    ensures !AllIn(ModifiedEntryIds(ms), known) <==> exists m :: m in ms && m.entryId !in known
  {
    if m :| m in ms && m.entryId !in known {
      var i :| 0 <= i < |ms| && ms[i] == m;
      assert ModifiedEntryIds(ms)[i] !in known;
    }
  }

  lemma MissingOlds(rs: seq<RenamedEntry>, known: set<u64>)
    ensures !AllIn(OldIds(rs), known) <==> exists r :: r in rs && r.beforeId !in known
  {
    if r :| r in rs && r.beforeId !in known {
      var i :| 0 <= i < |rs| && rs[i] == r;
      assert OldIds(rs)[i] !in known;
    }
  }

  lemma MissingNews(rs: seq<RenamedEntry>, known: set<u64>)
    ensures !AllIn(NewIds(rs), known) <==> exists r :: r in rs && r.afterId !in known
  {
    if r :| r in rs && r.afterId !in known {
      var i :| 0 <= i < |rs| && rs[i] == r;
      assert NewIds(rs)[i] !in known;
    }
  }

  lemma BaseSideMeans(d: DeltaSnapshot, base: Option<Snapshot>, target: Option<Snapshot>, c: Code)
    ensures c in SideCodes(EntryIds(d.removed), ModifiedEntryIds(d.modified), OldIds(d.renamed), base,
        DeltaRemovedEntryMissingInBase, DeltaModifiedEntryMissingInBase, DeltaRenamedOldMissingInBase) <==>
      c in BASE_CODES && SideFault(d, base, target, c)
  {
    hide EntryIds, ModifiedEntryIds, OldIds, AllIn, When, Ids;
    if base.Some? {
      var known := Ids(base.value.entries);
      MissingEntries(d.removed, known);
      MissingModified(d.modified, known);
      MissingOlds(d.renamed, known);
      InWhen(!AllIn(EntryIds(d.removed), known), DeltaRemovedEntryMissingInBase, c);
      InWhen(!AllIn(ModifiedEntryIds(d.modified), known), DeltaModifiedEntryMissingInBase, c);
      InWhen(!AllIn(OldIds(d.renamed), known), DeltaRenamedOldMissingInBase, c);
    }
  }

  lemma TargetSideMeans(d: DeltaSnapshot, base: Option<Snapshot>, target: Option<Snapshot>, c: Code)
    ensures c in SideCodes(EntryIds(d.added), ModifiedEntryIds(d.modified), NewIds(d.renamed), target,
        DeltaAddedEntryMissingInTarget, DeltaModifiedEntryMissingInTarget, DeltaRenamedNewMissingInTarget) <==>
      c in TARGET_CODES && SideFault(d, base, target, c)
  {
    hide EntryIds, ModifiedEntryIds, NewIds, AllIn, When, Ids;
    if target.Some? {
      var known := Ids(target.value.entries);
      MissingEntries(d.added, known);
      MissingModified(d.modified, known);
      MissingNews(d.renamed, known);
      InWhen(!AllIn(EntryIds(d.added), known), DeltaAddedEntryMissingInTarget, c);
      InWhen(!AllIn(ModifiedEntryIds(d.modified), known), DeltaModifiedEntryMissingInTarget, c);
      InWhen(!AllIn(NewIds(d.renamed), known), DeltaRenamedNewMissingInTarget, c);
    }
  }
}
