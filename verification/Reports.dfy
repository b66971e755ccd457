/** What the codes of a report say about the fields of a snapshot, and which fields are accepted. */
module Reports {
  import opened Domain
  import opened TreeTheorem
  import opened Validators
  import Paths

  /** Main result: each code of the header pass, on the header's fields. */
  lemma HeaderReports(s: Snapshot)
    ensures SnapshotIdZero in HeaderCodes(s) <==> s.snapshotId == 0
    ensures SnapshotSchemaInvalid in HeaderCodes(s) <==>
      s.schema.major == 0 || s.schema.minReaderMajor == 0 || s.schema.minReaderMajor > s.schema.major
    ensures SnapshotSchemaTooNew in HeaderCodes(s) <==> s.schema.major > 1
    ensures SnapshotSchemaTooOld in HeaderCodes(s) <==> s.schema.major < 1
    ensures SnapshotTimestampInvalid in HeaderCodes(s) <==> s.createdAt <= 0
    ensures SnapshotHostIdentifierEmpty in HeaderCodes(s) <==> s.hostIdentifier == ""
    ensures SnapshotRootIdZero in HeaderCodes(s) <==> s.rootEntryId == 0
  {
    hide HeaderCodes, RootCodes;
    RootReports(s, 0);
    HeaderCodeIff(s, SnapshotIdZero);
    HeaderCodeIff(s, SnapshotSchemaInvalid);
    HeaderCodeIff(s, SnapshotSchemaTooNew);
    HeaderCodeIff(s, SnapshotSchemaTooOld);
    HeaderCodeIff(s, SnapshotTimestampInvalid);
    HeaderCodeIff(s, SnapshotHostIdentifierEmpty);
    HeaderCodeIff(s, SnapshotRootIdZero);
  }

  lemma HeaderCodeIff(s: Snapshot, c: Code)
    ensures c in HeaderCodes(s) <==>
      || (c == SnapshotIdZero && s.snapshotId == 0)
      || (c == SnapshotSchemaInvalid && (s.schema.major == 0 || s.schema.minReaderMajor == 0 || s.schema.minReaderMajor > s.schema.major))
      || (c == SnapshotSchemaTooNew && s.schema.major > 1)
      || (c == SnapshotSchemaTooOld && s.schema.major < 1)
      || (c == SnapshotTimestampInvalid && s.createdAt <= 0)
      || (c == SnapshotHostIdentifierEmpty && s.hostIdentifier == "")
      || (c == SnapshotRootIdZero && s.rootEntryId == 0)
      || c in RootCodes(s, 0)
  {
    hide When, RootCodes;
    InWhen(s.snapshotId == 0, SnapshotIdZero, c);
    InWhen(!ValidSchema(s.schema), SnapshotSchemaInvalid, c);
    InWhen(s.schema.major > CURRENT_SCHEMA.major, SnapshotSchemaTooNew, c);
    InWhen(s.schema.major < CURRENT_SCHEMA.minReaderMajor, SnapshotSchemaTooOld, c);
    InWhen(s.createdAt <= 0, SnapshotTimestampInvalid, c);
    InWhen(s.hostIdentifier == "", SnapshotHostIdentifierEmpty, c);
    InWhen(s.rootEntryId == 0, SnapshotRootIdZero, c);
  }

  /** The codes about the root look at the first entry with the root id. */
  lemma {:induction false} RootReports(s: Snapshot, from: nat)
    requires from <= |s.entries| && forall j :: 0 <= j < from ==> s.entries[j].id != s.rootEntryId
    ensures SnapshotEntriesEmpty in RootCodes(s, from) <==> s.entries == []
    ensures SnapshotRootMissing in RootCodes(s, from) <==> s.entries != [] && forall e :: e in s.entries ==> e.id != s.rootEntryId
    ensures RootCodes(s, from) <= {SnapshotEntriesEmpty, SnapshotRootMissing, SnapshotRootNotDirectory, SnapshotRootParentNotZero}
    ensures forall i {:trigger s.entries[i]} :: FirstRoot(s, i) ==>
      && (SnapshotRootNotDirectory in RootCodes(s, from) <==> s.entries[i].kind != DIRECTORY)
      && (SnapshotRootParentNotZero in RootCodes(s, from) <==> s.entries[i].parentId != 0)
    decreases |s.entries| - from
  {
    if from < |s.entries| {
      if s.entries[from].id == s.rootEntryId {
        assert s.entries[from] in s.entries;
      } else {
        RootReports(s, from + 1);
      }
    }
  }

  ghost predicate FirstRoot(s: Snapshot, i: int) {
    0 <= i < |s.entries| && s.entries[i].id == s.rootEntryId && forall j :: 0 <= j < i ==> s.entries[j].id != s.rootEntryId
  }

  // ---- The passes over the entries ----

  lemma {:induction false} SomeIdentity(s: Snapshot, n: nat, c: Code)
    requires n <= |s.entries|
    ensures c in AllIdentityCodes(s, n) <==>
      exists i :: 0 <= i < n && c in IdentityCodes(s.entries[i], s.rootEntryId, Ids(s.entries[..i]))
  {
    hide IdentityCodes, Ids;
    if n > 0 { SomeIdentity(s, n - 1, c); }
  }

  lemma {:induction false} SomePath(s: Snapshot, n: nat, c: Code)
    requires n <= |s.entries|
    ensures c in AllPathCodes(s, n) <==> exists i :: 0 <= i < n && c in PathCodes(s.entries[i], PathsOf(s.entries[..i]))
  {
    hide PathCodes, PathsOf;
    if n > 0 { SomePath(s, n - 1, c); }
  }

  lemma {:induction false} SomeParent(s: Snapshot, n: nat, c: Code)
    requires n <= |s.entries|
    ensures c in AllParentCodes(s, n) <==> exists i :: 0 <= i < n && c in ParentCodes(s, i)
  {
    hide ParentCodes;
    if n > 0 { SomeParent(s, n - 1, c); }
  }

  lemma {:induction false} SomeTimestamp(s: Snapshot, n: nat, now: i64, c: Code)
    requires n <= |s.entries|
    ensures c in AllTimestampCodes(s, n, now) <==> exists i :: 0 <= i < n && c in TimestampCodes(s.entries[i].metadata, now)
  {
    hide TimestampCodes;
    if n > 0 { SomeTimestamp(s, n - 1, now, c); }
  }

  lemma SomeEntryAt(es: seq<FileEntry>, e: FileEntry) returns (i: nat)
    requires e in es
    ensures i < |es| && es[i] == e
  {
    i :| i < |es| && es[i] == e;
  }

  lemma EarlierId(es: seq<FileEntry>, i: nat)
    requires i < |es|
    ensures es[i].id in Ids(es[..i]) <==> exists j :: 0 <= j < i && es[j].id == es[i].id
  {
    if es[i].id in Ids(es[..i]) {
      var e :| e in es[..i] && e.id == es[i].id;
      var j := SomeEntryAt(es[..i], e);
      assert es[j].id == es[i].id;
    }
    if j :| 0 <= j < i && es[j].id == es[i].id { assert es[..i][j] in es[..i]; }
  }

  lemma EarlierPath(es: seq<FileEntry>, i: nat)
    requires i < |es|
    ensures es[i].path in PathsOf(es[..i]) <==> exists j :: 0 <= j < i && es[j].path == es[i].path
  {
    if es[i].path in PathsOf(es[..i]) {
      var e :| e in es[..i] && e.path == es[i].path;
      var j := SomeEntryAt(es[..i], e);
      assert es[j].path == es[i].path;
    }
    if j :| 0 <= j < i && es[j].path == es[i].path { assert es[..i][j] in es[..i]; }
  }

  lemma IdentityAt(s: Snapshot, i: nat)
    requires i < |s.entries|
    ensures var e, codes := s.entries[i], IdentityCodes(s.entries[i], s.rootEntryId, Ids(s.entries[..i]));
      && (EntryIdZero in codes <==> e.id == 0)
      && (EntryIdDuplicate in codes <==> exists j :: 0 <= j < i && s.entries[j].id == e.id)
      && (ParentIdZeroNonRoot in codes <==> e.id != s.rootEntryId && e.parentId == 0)
  {
    hide Ids;
    EarlierId(s.entries, i);
  }

  /** Main result: each code of the identity pass, on the entries. */
  lemma IdentityReports(s: Snapshot)
    ensures var codes := AllIdentityCodes(s, |s.entries|);
      && (EntryIdZero in codes <==> exists e :: e in s.entries && e.id == 0)
      && (EntryIdDuplicate in codes <==> exists i, j :: 0 <= i < j < |s.entries| && s.entries[i].id == s.entries[j].id)
      && (ParentIdZeroNonRoot in codes <==> exists e :: e in s.entries && e.id != s.rootEntryId && e.parentId == 0)
  {
    hide AllIdentityCodes, IdentityCodes, Ids;
    SomeIdentity(s, |s.entries|, EntryIdZero);
    SomeIdentity(s, |s.entries|, EntryIdDuplicate);
    SomeIdentity(s, |s.entries|, ParentIdZeroNonRoot);
    forall i | 0 <= i < |s.entries| { IdentityAt(s, i); }
  }

  /** What a code of the path pass says about an entry with a path. */
  ghost predicate PathFault(c: Code, e: FileEntry) {
    match c
    case EntryPathNotAbsolute => !(e.path != "" && e.path[0] == '/')
    case EntryPathNotNormalized => Paths.Normalize(e.path) != e.path
    case EntryPathTraversalDetected => Paths.HasTraversal(e.path)
    case EntryNameMismatch => e.parentId != 0 && e.name != Paths.Filename(e.path)
    case EntryPermissionsInvalid => e.metadata.permissions > 0xFFFF
    case EntryTypeInvalid => e.kind > 3
    case _ => false
  }

  const ENTRY_PATH_CODES := {EntryPathNotAbsolute, EntryPathNotNormalized, EntryPathTraversalDetected, EntryNameMismatch,
                             EntryPermissionsInvalid, EntryTypeInvalid}

  lemma InWhen(condition: bool, code: Code, c: Code)
    ensures c in When(condition, code) <==> condition && c == code
  {}

  lemma PathCodeIff(e: FileEntry, seen: set<string>, c: Code)
    requires e.path != ""
    ensures c in PathCodes(e, seen) <==> PathFault(c, e) || (c == GraphDuplicatePath && e.path in seen)
  {
    hide When, PathFault;
    var b1, b2, b3 := !Paths.IsAbsolute(e.path), Paths.Normalize(e.path) != e.path, Paths.HasTraversal(e.path);
    var b4, b5 := e.path in seen, e.parentId != 0 && e.name != Paths.Filename(e.path);
    var b6, b7 := e.metadata.permissions >= 0x1_0000, e.kind > SPECIAL;
    assert PathCodes(e, seen) == {} + When(b1, EntryPathNotAbsolute) + When(b2, EntryPathNotNormalized)
      + When(b3, EntryPathTraversalDetected) + When(b4, GraphDuplicatePath) + When(b5, EntryNameMismatch)
      + When(b6, EntryPermissionsInvalid) + When(b7, EntryTypeInvalid);
    PathFaultIs(e, c);
    hide PathCodes, Paths.Normalize, Paths.HasTraversal, Paths.Filename, Paths.IsAbsolute;
    InWhen(b1, EntryPathNotAbsolute, c);
    InWhen(b2, EntryPathNotNormalized, c);
    InWhen(b3, EntryPathTraversalDetected, c);
    InWhen(b4, GraphDuplicatePath, c);
    InWhen(b5, EntryNameMismatch, c);
    InWhen(b6, EntryPermissionsInvalid, c);
    InWhen(b7, EntryTypeInvalid, c);
  }

  lemma PathFaultIs(e: FileEntry, c: Code)
    requires e.path != ""
    ensures PathFault(c, e) <==>
      || (c == EntryPathNotAbsolute && !Paths.IsAbsolute(e.path))
      || (c == EntryPathNotNormalized && Paths.Normalize(e.path) != e.path)
      || (c == EntryPathTraversalDetected && Paths.HasTraversal(e.path))
      || (c == EntryNameMismatch && e.parentId != 0 && e.name != Paths.Filename(e.path))
      || (c == EntryPermissionsInvalid && e.metadata.permissions >= 0x1_0000)
      || (c == EntryTypeInvalid && e.kind > SPECIAL)
  {
    hide Paths.Normalize, Paths.HasTraversal, Paths.Filename;
  }

  lemma PathAt(s: Snapshot, i: nat, c: Code)
    requires i < |s.entries| && c in ENTRY_PATH_CODES
    ensures var e, codes := s.entries[i], PathCodes(s.entries[i], PathsOf(s.entries[..i]));
      && (EntryPathEmpty in codes <==> e.path == "")
      && (GraphDuplicatePath in codes <==> e.path != "" && exists j :: 0 <= j < i && s.entries[j].path == e.path)
      && (c in codes <==> e.path != "" && PathFault(c, e))
  {
    var e, seen := s.entries[i], PathsOf(s.entries[..i]);
    EarlierPath(s.entries, i);
    if e.path == "" {
      assert PathCodes(e, seen) == {EntryPathEmpty};
    } else {
      PathCodeIff(e, seen, EntryPathEmpty);
      PathCodeIff(e, seen, GraphDuplicatePath);
      PathCodeIff(e, seen, c);
      hide PathCodes;
    }
  }

  /** Main result: each code of the path pass, on the entries; an empty path hides the other faults. */
  lemma PathReports(s: Snapshot, c: Code)
    requires c in ENTRY_PATH_CODES
    ensures var codes := AllPathCodes(s, |s.entries|);
      && (EntryPathEmpty in codes <==> exists e :: e in s.entries && e.path == "")
      && (GraphDuplicatePath in codes <==>
            exists i, j :: 0 <= i < j < |s.entries| && s.entries[i].path == s.entries[j].path != "")
      && (c in codes <==> exists e :: e in s.entries && e.path != "" && PathFault(c, e))
  {
    hide AllPathCodes, PathCodes, PathsOf, PathFault;
    SomePath(s, |s.entries|, EntryPathEmpty);
    SomePath(s, |s.entries|, GraphDuplicatePath);
    SomePath(s, |s.entries|, c);
    forall i | 0 <= i < |s.entries| { PathAt(s, i, c); }
  }

  /** An entry other than the root that names a parent. */
  ghost predicate Hanging(s: Snapshot, e: FileEntry) {
    e in s.entries && e.id != s.rootEntryId && e.parentId != 0
  }

  lemma ParentAt(s: Snapshot, i: nat)
    requires UniqueIds(s.entries) && i < |s.entries|
    ensures var e, codes := s.entries[i], ParentCodes(s, i);
      && (ParentIdZeroNonRoot in codes <==> e.id != s.rootEntryId && e.parentId == 0)
      && (ParentMissing in codes <==> Hanging(s, e) && e.parentId !in Ids(s.entries))
      && (ParentNotDirectory in codes <==> Hanging(s, e) && exists p :: p in s.entries && p.id == e.parentId && p.kind != DIRECTORY)
  {
    hide LastById;
    var es := s.entries;
    LastByIdKeys(es);
    forall p | p in es ensures p.id in LastById(es) && LastById(es)[p.id] == p { LastFinds(es, p); }
    assert es[i] in es;
    if es[i].parentId in Ids(es) {
      var p :| p in es && p.id == es[i].parentId;
      assert LastById(es)[p.id] == p;
    }
  }

  /** Main result: the codes about parents; with distinct ids the last entry of an id is the only one. */
  lemma ParentReports(s: Snapshot)
    requires UniqueIds(s.entries)
    ensures var codes := AllParentCodes(s, |s.entries|);
      && (ParentIdZeroNonRoot in codes <==> exists e :: e in s.entries && e.id != s.rootEntryId && e.parentId == 0)
      && (ParentMissing in codes <==> exists e :: Hanging(s, e) && e.parentId !in Ids(s.entries))
      && (ParentNotDirectory in codes <==>
          exists e, p :: Hanging(s, e) && p in s.entries && p.id == e.parentId && p.kind != DIRECTORY)
  {
    hide AllParentCodes, ParentCodes, Ids, UniqueIds;
    SomeParent(s, |s.entries|, ParentIdZeroNonRoot);
    SomeParent(s, |s.entries|, ParentMissing);
    SomeParent(s, |s.entries|, ParentNotDirectory);
    forall i | 0 <= i < |s.entries| { ParentAt(s, i); }
  }

  /** Main result: the two codes about times. */
  lemma TimestampReports(s: Snapshot, now: i64)
    ensures var codes := AllTimestampCodes(s, |s.entries|, now);
      && (EntryTimestampOrderInvalid in codes <==>
          exists e :: e in s.entries && !(e.metadata.createdAt <= e.metadata.modifiedAt <= e.metadata.accessedAt))
      && (EntryTimestampInFuture in codes <==>
          exists e :: e in s.entries && (e.metadata.createdAt > now || e.metadata.modifiedAt > now || e.metadata.accessedAt > now))
  {
    SomeTimestamp(s, |s.entries|, now, EntryTimestampOrderInvalid);
    SomeTimestamp(s, |s.entries|, now, EntryTimestampInFuture);
    hide AllTimestampCodes;
    forall e | e in s.entries ensures exists i :: 0 <= i < |s.entries| && s.entries[i] == e {}
  }

  // ---- What is accepted ----

  /** Main result: the accepted snapshots, on their fields: a named header of schema 1, a rooted tree, and distinct
      paths of plain names from the root on, with one of the four types. */
  lemma AcceptedFields(s: Snapshot)
    ensures Accepted(s) <==>
      && s.snapshotId != 0 && s.schema.major == 1 && s.schema.minReaderMajor == 1 && s.hostIdentifier != ""
      && RootedTree(s) && UniquePaths(s.entries)
      && (forall e :: e in s.entries ==> Paths.PlainPath(e.path) && e.kind <= 3)
  {
    hide RootedTree, Paths.Normalize, Paths.HasTraversal, Paths.IsAbsolute, Paths.PlainPath;
    var es := s.entries;
    forall e | e in es ensures Sound(e.path) <==> Paths.PlainPath(e.path) { SoundIffPlain(e.path); }
    if PathsOk(s) {
      forall i, j | 0 <= i < j < |es| ensures es[i].path != es[j].path { assert !PathBad(s, j); }
      forall e | e in es ensures Sound(e.path) && e.kind <= 3 {
        var i := SomeEntryAt(es, e);
        assert !PathBad(s, i);
      }
    }
    if UniquePaths(es) && forall e :: e in es ==> Sound(e.path) && e.kind <= 3 {
      forall i | 0 <= i < |es| ensures !PathBad(s, i) { assert es[i] in es; }
    }
  }

  ghost predicate Sound(p: string) {
    p != "" && Paths.IsAbsolute(p) && Paths.Normalize(p) == p && !Paths.HasTraversal(p)
  }

  lemma SoundIffPlain(p: string)
    ensures Sound(p) <==> Paths.PlainPath(p)
  {
    hide Paths.Normalize, Paths.Join, Paths.HasTraversal, Paths.PlainNames;
    if Sound(p) { Paths.NormalIsPlain(p); }
    if Paths.PlainPath(p) {
      Paths.RootIsNormal();
      if p != "/" {
        var names :| Paths.PlainText(p, names);
        Paths.NormalizeKeeps(names);
        Paths.PlainHasNoTraversal(names);
      }
    }
  }
}
