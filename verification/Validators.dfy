/** The validation passes over a snapshot and over a delta. Each pass appends issues to a
    report; the contracts say which snapshots get which issues. */
module Validators {
  import opened Depth
  import opened Domain
  import opened Graph
  import Paths

  datatype Severity = Info | Warning | Error | Fatal

  datatype Code =
    | SnapshotIdZero | SnapshotSchemaInvalid | SnapshotSchemaTooNew | SnapshotSchemaTooOld
    | SnapshotTimestampInvalid | SnapshotHostIdentifierEmpty | SnapshotRootIdZero | SnapshotEntriesEmpty
    | SnapshotRootMissing | SnapshotRootNotDirectory | SnapshotRootParentNotZero
    | EntryIdZero | EntryIdDuplicate | EntryPathEmpty | EntryPathNotAbsolute | EntryPathNotNormalized
    | EntryPathTraversalDetected | EntryNameMismatch | EntryPermissionsInvalid | EntryTypeInvalid
    | EntryTimestampOrderInvalid | EntryTimestampInFuture
    | ParentIdZeroNonRoot | ParentMissing | ParentNotDirectory | GraphCycleDetected
    | GraphDisconnectedEntry | GraphDuplicatePath | GraphMaxDepthExceeded
    | DeltaBaseSnapshotIdZero | DeltaTargetSnapshotIdZero | DeltaBaseEqualsTarget
    | DeltaAddedEntryDuplicate | DeltaRemovedEntryDuplicate | DeltaModifiedEntryDuplicate
    | DeltaRenamedEntryDuplicate | DeltaRenamePathConflict | DeltaConflictingOperations
    | DeltaRemovedEntryMissingInBase | DeltaModifiedEntryMissingInBase | DeltaRenamedOldMissingInBase
    | DeltaAddedEntryMissingInTarget | DeltaModifiedEntryMissingInTarget | DeltaRenamedNewMissingInTarget

  datatype Issue = Issue(code: Code, severity: Severity, entryId: Option<u64>)

  const MAX_REASONABLE_DEPTH := 4096

  predicate HasErrors(issues: seq<Issue>) {
    exists i :: 0 <= i < |issues| && (issues[i].severity == Error || issues[i].severity == Fatal)
  }

  predicate HasCode(issues: seq<Issue>, code: Code) {
    exists i :: 0 <= i < |issues| && issues[i].code == code
  }

  /** The codes that occur in a report. */
  function Codes(issues: seq<Issue>): set<Code> {
    set i | 0 <= i < |issues| :: issues[i].code
  }

  lemma AppendedCodes(xs: seq<Issue>, ys: seq<Issue>)
    ensures Codes(xs + ys) == Codes(xs) + Codes(ys)
  {
    assert forall i :: 0 <= i < |xs| ==> (xs + ys)[i] == xs[i];
    assert forall i :: 0 <= i < |ys| ==> (xs + ys)[|xs| + i] == ys[i];
  }

  lemma CodesAre(issues: seq<Issue>, c: Code)
    ensures HasCode(issues, c) <==> c in Codes(issues)
  {}

  lemma Appended(xs: seq<Issue>, ys: seq<Issue>)
    ensures HasErrors(xs + ys) <==> HasErrors(xs) || HasErrors(ys)
    ensures forall c :: HasCode(xs + ys, c) <==> HasCode(xs, c) || HasCode(ys, c)
  {
    assert forall i :: 0 <= i < |xs| ==> (xs + ys)[i] == xs[i];
    assert forall i :: 0 <= i < |ys| ==> (xs + ys)[|xs| + i] == ys[i];
  }

  lemma AppendedOne(xs: seq<Issue>, y: Issue)
    ensures HasErrors(xs + [y]) <==> HasErrors(xs) || y.severity == Error || y.severity == Fatal
    ensures forall c :: HasCode(xs + [y], c) <==> HasCode(xs, c) || y.code == c
  {
    Appended(xs, [y]);
    assert [y][0] == y;
  }

  lemma NothingReported()
    ensures !HasErrors([]) && Codes([]) == {} && forall c :: !HasCode([], c)
  {}

  /** `ValidationCollector::add`. */
  function Add(issues: seq<Issue>, code: Code, severity: Severity, entryId: Option<u64>): (r: seq<Issue>)
    ensures HasErrors(r) <==> HasErrors(issues) || severity == Error || severity == Fatal
    ensures forall c :: HasCode(r, c) <==> HasCode(issues, c) || code == c
    ensures Codes(r) == Codes(issues) + {code}
  {
    AppendedOne(issues, Issue(code, severity, entryId));
    AppendedCodes(issues, [Issue(code, severity, entryId)]);
    assert [Issue(code, severity, entryId)][0].code == code;
    assert Codes([Issue(code, severity, entryId)]) == {code};
    issues + [Issue(code, severity, entryId)]
  }

  /** `add` behind a condition. */
  function AddIf(issues: seq<Issue>, c: bool, code: Code, severity: Severity, entryId: Option<u64>): (r: seq<Issue>)
    ensures HasErrors(r) <==> HasErrors(issues) || (c && (severity == Error || severity == Fatal))
    ensures Codes(r) == Codes(issues) + When(c, code)
  {
    if c then Add(issues, code, severity, entryId) else issues
  }

  function When(c: bool, code: Code): (r: set<Code>)
    ensures r <= {code}
  {
    if c then {code} else {}
  }

  /** The index that keeps the last entry with an id. */
  function LastById(es: seq<FileEntry>): map<u64, FileEntry> {
    if es == [] then map[] else LastById(es[..|es| - 1])[es[|es| - 1].id := es[|es| - 1]]
  }

  function ChildrenIndex(es: seq<FileEntry>): Children {
    if es == [] then map[]
    else
      var m, e := ChildrenIndex(es[..|es| - 1]), es[|es| - 1];
      if e.parentId == 0 then m else m[e.parentId := Kids(m, e.parentId) + [e.id]]
  }

  // ---- Header, identity and path passes ----

  predicate ValidSchema(h: SchemaHeader) {
    h.major != 0 && h.minReaderMajor != 0 && h.minReaderMajor <= h.major
  }

  /** The first entry with the root id is a directory without a parent. */
  predicate RootAt(s: Snapshot, i: int)
    requires 0 <= i < |s.entries|
  {
    var e := s.entries[i];
    && e.id == s.rootEntryId && e.kind == DIRECTORY && e.parentId == 0
    && forall j :: 0 <= j < i ==> s.entries[j].id != s.rootEntryId
  }

  /** What the header pass lets through. */
  predicate HeaderOk(s: Snapshot) {
    && s.snapshotId != 0 && ValidSchema(s.schema)
    && s.schema.major == CURRENT_SCHEMA.major
    && s.hostIdentifier != "" && s.rootEntryId != 0
    && exists i :: 0 <= i < |s.entries| && RootAt(s, i)
  }

  /** Which codes the header pass reports. */
  function HeaderCodes(s: Snapshot): set<Code> {
    {} + When(s.snapshotId == 0, SnapshotIdZero)
    + When(!ValidSchema(s.schema), SnapshotSchemaInvalid)
    + When(s.schema.major > CURRENT_SCHEMA.major, SnapshotSchemaTooNew)
    + When(s.schema.major < CURRENT_SCHEMA.minReaderMajor, SnapshotSchemaTooOld)
    + When(s.createdAt <= 0, SnapshotTimestampInvalid)
    + When(s.hostIdentifier == "", SnapshotHostIdentifierEmpty)
    + When(s.rootEntryId == 0, SnapshotRootIdZero)
    + RootCodes(s, 0)
  }

  /** The codes about the root, which is the first entry from `from` on with the root id. */
  function RootCodes(s: Snapshot, from: nat): set<Code>
    requires from <= |s.entries|
    decreases |s.entries| - from
  {
    if s.entries == [] then {SnapshotEntriesEmpty}
    else if from == |s.entries| then {SnapshotRootMissing}
    else if s.entries[from].id != s.rootEntryId then RootCodes(s, from + 1)
    else
      {} + When(s.entries[from].kind != DIRECTORY, SnapshotRootNotDirectory)
      + When(s.entries[from].parentId != 0, SnapshotRootParentNotZero)
  }

  method HeaderPass(s: Snapshot) returns (issues: seq<Issue>)
    ensures HasErrors(issues) <==> !HeaderOk(s)
    ensures Codes(issues) == HeaderCodes(s)
    ensures !HasCode(issues, GraphDisconnectedEntry)
  {
    hide HasErrors, HasCode, Codes, RootAt, Add, AddIf, When, RootCodes;
    NothingReported();
    issues := [];
    issues := AddIf(issues, s.snapshotId == 0, SnapshotIdZero, Error, None);
    issues := AddIf(issues, !ValidSchema(s.schema), SnapshotSchemaInvalid, Error, None);
    issues := AddIf(issues, s.schema.major > CURRENT_SCHEMA.major, SnapshotSchemaTooNew, Error, None);
    issues := AddIf(issues, s.schema.major < CURRENT_SCHEMA.minReaderMajor, SnapshotSchemaTooOld, Error, None);
    issues := AddIf(issues, s.createdAt <= 0, SnapshotTimestampInvalid, Warning, None);
    issues := AddIf(issues, s.hostIdentifier == "", SnapshotHostIdentifierEmpty, Error, None);
    issues := AddIf(issues, s.rootEntryId == 0, SnapshotRootIdZero, Error, None);
    CodesAre(issues, GraphDisconnectedEntry);
    var root := HeaderRoot(s);
    Appended(issues, root);
    AppendedCodes(issues, root);
    issues := issues + root;
  }

  /** The part of the header pass that looks the root entry up. */
  method HeaderRoot(s: Snapshot) returns (issues: seq<Issue>)
    ensures HasErrors(issues) <==> !(exists i :: 0 <= i < |s.entries| && RootAt(s, i))
    ensures Codes(issues) == RootCodes(s, 0)
    ensures !HasCode(issues, GraphDisconnectedEntry)
  {
    hide HasErrors, HasCode, Codes, Add, AddIf;
    NothingReported();
    issues := [];
    var i := 0;
    while i < |s.entries| && s.entries[i].id != s.rootEntryId
      invariant 0 <= i <= |s.entries|
      invariant forall j :: 0 <= j < i ==> s.entries[j].id != s.rootEntryId
      invariant RootCodes(s, i) == RootCodes(s, 0)
    {
      i := i + 1;
    }
    if i == |s.entries| {
      return Add(issues, if s.entries == [] then SnapshotEntriesEmpty else SnapshotRootMissing, Error, Some(s.rootEntryId));
    }
    var root := s.entries[i];
    issues := AddIf(issues, root.kind != DIRECTORY, SnapshotRootNotDirectory, Error, Some(root.id));
    issues := AddIf(issues, root.parentId != 0, SnapshotRootParentNotZero, Error, Some(root.id));
    CodesAre(issues, GraphDisconnectedEntry);
    assert RootAt(s, i) <==> !HasErrors(issues);
  }

  predicate IdentityBad(s: Snapshot, i: int)
    requires 0 <= i < |s.entries|
  {
    var e := s.entries[i];
    || e.id == 0
    || (exists j :: 0 <= j < i && s.entries[j].id == e.id)
    || (e.id != s.rootEntryId && e.parentId == 0)
  }

  /** Which codes the identity pass reports about an entry, given the ids before it. */
  function IdentityCodes(e: FileEntry, rootEntryId: u64, seen: set<u64>): set<Code> {
    {} + When(e.id == 0, EntryIdZero) + When(e.id in seen, EntryIdDuplicate)
    + When(e.id != rootEntryId && e.parentId == 0, ParentIdZeroNonRoot)
  }

  function AllIdentityCodes(s: Snapshot, n: nat): set<Code>
    requires n <= |s.entries|
  {
    if n == 0 then {}
    else AllIdentityCodes(s, n - 1) + IdentityCodes(s.entries[n - 1], s.rootEntryId, Ids(s.entries[..n - 1]))
  }

  predicate IdentityOk(s: Snapshot) {
    forall i :: 0 <= i < |s.entries| ==> !IdentityBad(s, i)
  }

  method IdentityPass(s: Snapshot) returns (issues: seq<Issue>)
    ensures HasErrors(issues) <==> !IdentityOk(s)
    ensures Codes(issues) == AllIdentityCodes(s, |s.entries|)
    ensures !HasCode(issues, GraphDisconnectedEntry)
  {
    hide HasErrors, HasCode, Codes, IdentityBad, Ids, IdentityCodes;
    NothingReported();
    issues := [];
    var ids: set<u64> := {};
    NoIds(s.entries);
    for i := 0 to |s.entries|
      invariant ids == Ids(s.entries[..i])
      invariant HasErrors(issues) <==> exists k :: 0 <= k < i && IdentityBad(s, k)
      invariant Codes(issues) == AllIdentityCodes(s, i)
      invariant !HasCode(issues, GraphDisconnectedEntry)
    {
      var more := IdentityIssues(s.entries[i], s.rootEntryId, ids);
      IdentityBadIff(s, i);
      Appended(issues, more);
      AppendedCodes(issues, more);
      issues := issues + more;
      IdsStep(s.entries, i);
      ids := ids + {s.entries[i].id};
    }
  }

  lemma NoIds(es: seq<FileEntry>)
    ensures Ids(es[..0]) == {}
  {}

  lemma IdsStep(es: seq<FileEntry>, i: nat)
    requires i < |es|
    ensures Ids(es[..i + 1]) == Ids(es[..i]) + {es[i].id}
  {
    assert es[..i + 1] == es[..i] + [es[i]];
  }

  lemma IdentityBadIff(s: Snapshot, i: nat)
    requires i < |s.entries|
    ensures var e := s.entries[i];
      IdentityBad(s, i) <==> e.id == 0 || e.id in Ids(s.entries[..i]) || (e.id != s.rootEntryId && e.parentId == 0)
  {
    var e := s.entries[i];
    if e.id in Ids(s.entries[..i]) {
      var f :| f in s.entries[..i] && f.id == e.id;
      var j :| 0 <= j < i && s.entries[j] == f;
    }
    if j :| 0 <= j < i && s.entries[j].id == e.id {
      assert s.entries[..i][j] in s.entries[..i];
    }
  }

  /** The checks of the identity pass on one entry. */
  method IdentityIssues(e: FileEntry, rootEntryId: u64, ids: set<u64>) returns (issues: seq<Issue>)
    ensures HasErrors(issues) <==> e.id == 0 || e.id in ids || (e.id != rootEntryId && e.parentId == 0)
    ensures Codes(issues) == IdentityCodes(e, rootEntryId, ids)
    ensures !HasCode(issues, GraphDisconnectedEntry)
  {
    hide HasErrors, HasCode, Codes, Add, AddIf, When;
    NothingReported();
    issues := [];
    issues := AddIf(issues, e.id == 0, EntryIdZero, Error, Some(e.id));
    issues := AddIf(issues, e.id in ids, EntryIdDuplicate, Error, Some(e.id));
    issues := AddIf(issues, e.id != rootEntryId && e.parentId == 0, ParentIdZeroNonRoot, Error, Some(e.id));
    CodesAre(issues, GraphDisconnectedEntry);
  }

  predicate PathBad(s: Snapshot, i: int)
    requires 0 <= i < |s.entries|
  {
    var e := s.entries[i];
    || e.path == ""
    || !Paths.IsAbsolute(e.path)
    || Paths.Normalize(e.path) != e.path
    || Paths.HasTraversal(e.path)
    || (exists j :: 0 <= j < i && s.entries[j].path == e.path)
    || e.kind > SPECIAL
  }

  /** Which codes the path pass reports about an entry, given the paths before it. */
  function PathCodes(e: FileEntry, seen: set<string>): set<Code> {
    if e.path == "" then {EntryPathEmpty}
    else
      {} + When(!Paths.IsAbsolute(e.path), EntryPathNotAbsolute)
      + When(Paths.Normalize(e.path) != e.path, EntryPathNotNormalized)
      + When(Paths.HasTraversal(e.path), EntryPathTraversalDetected)
      + When(e.path in seen, GraphDuplicatePath)
      + When(e.parentId != 0 && e.name != Paths.Filename(e.path), EntryNameMismatch)
      + When(e.metadata.permissions >= 0x1_0000, EntryPermissionsInvalid)
      + When(e.kind > SPECIAL, EntryTypeInvalid)
  }

  function AllPathCodes(s: Snapshot, n: nat): set<Code>
    requires n <= |s.entries|
  {
    if n == 0 then {} else AllPathCodes(s, n - 1) + PathCodes(s.entries[n - 1], PathsOf(s.entries[..n - 1]))
  }

  predicate PathsOk(s: Snapshot) {
    forall i :: 0 <= i < |s.entries| ==> !PathBad(s, i)
  }

  method PathPass(s: Snapshot) returns (issues: seq<Issue>)
    ensures HasErrors(issues) <==> !PathsOk(s)
    ensures Codes(issues) == AllPathCodes(s, |s.entries|)
    ensures !HasCode(issues, GraphDisconnectedEntry)
  {
    hide Paths.Normalize, Paths.HasTraversal, Paths.IsAbsolute, HasErrors, HasCode, Codes;
    NothingReported();
    issues := [];
    var uniquePaths: set<string> := {};
    for i := 0 to |s.entries|
      invariant uniquePaths == set j | 0 <= j < i && s.entries[j].path != "" :: s.entries[j].path
      invariant HasErrors(issues) <==> exists k :: 0 <= k < i && PathBad(s, k)
      invariant Codes(issues) == AllPathCodes(s, i)
      invariant !HasCode(issues, GraphDisconnectedEntry)
    {
      ghost var before := issues;
      var more := PathIssues(s.entries[i], uniquePaths);
      Appended(issues, more);
      AppendedCodes(issues, more);
      PathsSeen(s.entries, i, uniquePaths);
      issues := issues + more;
      if s.entries[i].path != "" {
        uniquePaths := uniquePaths + {s.entries[i].path};
      }
      assert HasErrors(issues) <==> HasErrors(before) || PathBad(s, i);
    }
  }

  /** The empty path is not recorded, and never looked up. */
  lemma PathsSeen(es: seq<FileEntry>, i: nat, uniquePaths: set<string>)
    requires i < |es| && uniquePaths == set j | 0 <= j < i && es[j].path != "" :: es[j].path
    ensures PathCodes(es[i], uniquePaths) == PathCodes(es[i], PathsOf(es[..i]))
  {
    hide Paths.Normalize, Paths.HasTraversal, Paths.IsAbsolute, Paths.Filename;
    if es[i].path != "" {
      assert es[i].path in uniquePaths <==> es[i].path in PathsOf(es[..i]) by {
        if es[i].path in uniquePaths {
          var j :| 0 <= j < i && es[j].path == es[i].path;
          assert es[..i][j] in es[..i];
        }
        if es[i].path in PathsOf(es[..i]) {
          var e :| e in es[..i] && e.path == es[i].path;
        }
      }
    }
  }

  /** The checks of the path pass on one entry. */
  method PathIssues(e: FileEntry, uniquePaths: set<string>) returns (issues: seq<Issue>)
    ensures HasErrors(issues) <==>
      e.path == "" || !Paths.IsAbsolute(e.path) || Paths.Normalize(e.path) != e.path
      || Paths.HasTraversal(e.path) || e.path in uniquePaths || e.kind > SPECIAL
    ensures Codes(issues) == PathCodes(e, uniquePaths)
    ensures !HasCode(issues, GraphDisconnectedEntry)
  {
    hide Paths.Normalize, Paths.HasTraversal, Paths.IsAbsolute, Paths.Filename, HasErrors, HasCode, Codes, Add, AddIf, When;
    NothingReported();
    issues := [];
    if e.path == "" {
      return Add(issues, EntryPathEmpty, Error, Some(e.id));
    }
    var id := Some(e.id);
    issues := AddIf(issues, !Paths.IsAbsolute(e.path), EntryPathNotAbsolute, Error, id);
    issues := AddIf(issues, Paths.Normalize(e.path) != e.path, EntryPathNotNormalized, Error, id);
    issues := AddIf(issues, Paths.HasTraversal(e.path), EntryPathTraversalDetected, Error, id);
    issues := AddIf(issues, e.path in uniquePaths, GraphDuplicatePath, Error, id);
    issues := AddIf(issues, e.parentId != 0 && e.name != Paths.Filename(e.path), EntryNameMismatch, Warning, id);
    issues := AddIf(issues, e.metadata.permissions >= 0x1_0000, EntryPermissionsInvalid, Warning, id);
    issues := AddIf(issues, e.kind > SPECIAL, EntryTypeInvalid, Error, id);
    CodesAre(issues, GraphDisconnectedEntry);
  }

  // ---- The parent-graph pass ----

  predicate ParentBad(s: Snapshot, i: int)
    requires 0 <= i < |s.entries|
  {
    var e, byId := s.entries[i], LastById(s.entries);
    e.id != s.rootEntryId
    && (e.parentId == 0 || e.parentId !in byId || byId[e.parentId].kind != DIRECTORY)
  }

  /** Which codes the graph pass reports about an entry and its parent. */
  function ParentCodes(s: Snapshot, i: nat): set<Code>
    requires i < |s.entries|
  {
    var e, byId := s.entries[i], LastById(s.entries);
    if e.id == s.rootEntryId then {}
    else if e.parentId == 0 then {ParentIdZeroNonRoot}
    else if e.parentId !in byId then {ParentMissing}
    else if byId[e.parentId].kind != DIRECTORY then {ParentNotDirectory}
    else {}
  }

  function AllParentCodes(s: Snapshot, n: nat): set<Code>
    requires n <= |s.entries|
  {
    if n == 0 then {} else AllParentCodes(s, n - 1) + ParentCodes(s, n - 1)
  }

  lemma {:induction false} ParentCodesAre(s: Snapshot, n: nat)
    requires n <= |s.entries|
    ensures AllParentCodes(s, n) <= {ParentIdZeroNonRoot, ParentMissing, ParentNotDirectory}
  {
    hide LastById;
    if n > 0 { ParentCodesAre(s, n - 1); }
  }

  ghost predicate Cyclic(es: seq<FileEntry>) {
    HasCycle(ChildrenIndex(es), Ids(es))
  }

  ghost predicate GraphOk(s: Snapshot) {
    (forall i :: 0 <= i < |s.entries| ==> !ParentBad(s, i)) && !Cyclic(s.entries)
  }

  method BuildIndexes(es: seq<FileEntry>) returns (byId: map<u64, FileEntry>, children: Children)
    ensures byId == LastById(es) && children == ChildrenIndex(es)
  {
    byId, children := map[], map[];
    for i := 0 to |es|
      invariant byId == LastById(es[..i]) && children == ChildrenIndex(es[..i])
    {
      assert es[..i + 1][..i] == es[..i];
      byId := byId[es[i].id := es[i]];
      if es[i].parentId != 0 {
        children := children[es[i].parentId := Kids(children, es[i].parentId) + [es[i].id]];
      }
    }
    assert es[..|es|] == es;
  }

  method CheckParents(s: Snapshot, byId: map<u64, FileEntry>) returns (issues: seq<Issue>)
    requires byId == LastById(s.entries)
    ensures HasErrors(issues) <==> exists i :: 0 <= i < |s.entries| && ParentBad(s, i)
    ensures Codes(issues) == AllParentCodes(s, |s.entries|)
    ensures !HasCode(issues, GraphCycleDetected) && !HasCode(issues, GraphDisconnectedEntry)
  {
    hide HasErrors, HasCode, Codes, Add, LastById;
    NothingReported();
    issues := [];
    for i := 0 to |s.entries|
      invariant HasErrors(issues) <==> exists k :: 0 <= k < i && ParentBad(s, k)
      invariant Codes(issues) == AllParentCodes(s, i)
      invariant !HasCode(issues, GraphCycleDetected) && !HasCode(issues, GraphDisconnectedEntry)
    {
      var e := s.entries[i];
      ghost var before := issues;
      if e.id != s.rootEntryId {
        if e.parentId == 0 {
          issues := Add(issues, ParentIdZeroNonRoot, Error, Some(e.id));
        } else if e.parentId !in byId {
          issues := Add(issues, ParentMissing, Error, Some(e.id));
        } else if byId[e.parentId].kind != DIRECTORY {
          issues := Add(issues, ParentNotDirectory, Error, Some(e.id));
        }
      }
      assert HasErrors(issues) <==> HasErrors(before) || ParentBad(s, i);
    }
  }

  /** The ids from which the search starts, in the order of the entries. */
  function StartIds(es: seq<FileEntry>): (r: seq<u64>)
    ensures |r| == |es| && forall i :: 0 <= i < |r| ==> r[i] == es[i].id
  {
    seq(|es|, i requires 0 <= i < |es| => es[i].id)
  }

  lemma StartIdsStep(es: seq<FileEntry>, i: nat)
    requires i < |es|
    ensures StartIds(es[..i + 1]) == StartIds(es[..i]) + [es[i].id] && es[i].id in Ids(es)
  {}

  /** The depth-first search: a cycle is reported exactly when there is one, and the depth warning
      as the report on the searches says. */
  method DetectCycles(es: seq<FileEntry>, children: Children) returns (issues: seq<Issue>)
    ensures HasCode(issues, GraphCycleDetected) <==> HasCycle(children, Ids(es))
    ensures SearchIssues(issues)
    ensures DepthReport(children, Ids(es), StartIds(es), HasCode(issues, GraphMaxDepthExceeded), MAX_REASONABLE_DEPTH)
  {
    hide SearchOk, HasErrors, HasCode, Codes, DepthReport, HasCycle, ColouredFrom, SearchIssues, Ids, StartIds;
    NothingFound();
    issues := [];
    var colors := map e | e in es :: e.id := White;
    AllWhite(es, colors);
    NothingSearched(children, colors);
    Depth.NothingReported(children, colors, MAX_REASONABLE_DEPTH);
    ghost var order: seq<u64> := [];
    for i := 0 to |es|
      invariant colors.Keys == Ids(es)
      invariant SearchOk(children, colors, [], order, !HasCode(issues, GraphCycleDetected))
      invariant AllColoured(colors, StartIds(es[..i]))
      invariant SearchIssues(issues)
      invariant ColouredFrom(children, colors, StartIds(es[..i]))
      invariant DepthReport(children, colors.Keys, StartIds(es[..i]), HasCode(issues, GraphMaxDepthExceeded), MAX_REASONABLE_DEPTH)
    {
      StartIdsStep(es, i);
      colors, issues, order := SearchEntry(children, colors, es[i].id, issues, order, StartIds(es[..i]));
    }
    assert es[..|es|] == es;
    AllAreColoured(es, colors);
    AllSearched(children, colors, order, !HasCode(issues, GraphCycleDetected));
  }

  lemma AllWhite(es: seq<FileEntry>, colors: map<u64, Color>)
    requires colors == map e | e in es :: e.id := White
    ensures colors.Keys == Ids(es) && (forall k :: k in colors ==> colors[k] == White) && StartIds(es[..0]) == []
  {}

  lemma AllAreColoured(es: seq<FileEntry>, colors: map<u64, Color>)
    requires colors.Keys == Ids(es) && AllColoured(colors, StartIds(es))
    ensures forall id :: id in colors ==> colors[id] != White
  {
    forall id | id in colors ensures colors[id] != White {
      var e :| e in es && e.id == id;
      var k :| 0 <= k < |es| && es[k] == e;
      assert StartIds(es)[k] == id;
    }
  }

  predicate AllColoured(colors: map<u64, Color>, starts: seq<u64>) {
    forall j :: 0 <= j < |starts| ==> starts[j] in colors && colors[starts[j]] != White
  }

  lemma NothingFound()
    ensures SearchIssues([]) && !HasCode([], GraphCycleDetected) && !HasCode([], GraphMaxDepthExceeded)
  {
    NothingReported();
  }

  lemma MoreFound(found: seq<Issue>, more: seq<Issue>)
    requires SearchIssues(found) && SearchIssues(more)
    ensures SearchIssues(found + more)
    ensures forall c :: HasCode(found + more, c) <==> HasCode(found, c) || HasCode(more, c)
  {
    hide HasErrors, HasCode, Codes;
    Appended(found, more);
    AppendedCodes(found, more);
  }

  /** One entry of the search: unless it is coloured already, a search starts from it. */
  method SearchEntry(children: Children, origin: map<u64, Color>, id: u64, found: seq<Issue>,
                     ghost finished: seq<u64>, ghost starts: seq<u64>)
    returns (colors: map<u64, Color>, issues: seq<Issue>, ghost order: seq<u64>)
    requires id in origin && SearchIssues(found)
    requires SearchOk(children, origin, [], finished, !HasCode(found, GraphCycleDetected))
    requires AllColoured(origin, starts) && ColouredFrom(children, origin, starts)
    requires DepthReport(children, origin.Keys, starts, HasCode(found, GraphMaxDepthExceeded), MAX_REASONABLE_DEPTH)
    ensures colors.Keys == origin.Keys && SearchIssues(issues)
    ensures SearchOk(children, colors, [], order, !HasCode(issues, GraphCycleDetected))
    ensures AllColoured(colors, starts + [id]) && ColouredFrom(children, colors, starts + [id])
    ensures DepthReport(children, colors.Keys, starts + [id], HasCode(issues, GraphMaxDepthExceeded), MAX_REASONABLE_DEPTH)
  {
    hide SearchOk, HasErrors, HasCode, Codes, DepthReport, DepthOk, ColouredFrom, SearchIssues;
    colors, issues, order := origin, found, finished;
    if origin[id] == White {
      var more;
      more, colors, order := SearchFrom(children, origin, id, finished, !HasCode(found, GraphCycleDetected));
      MoreFound(found, more);
      issues := found + more;
      SearchedReport(children, origin, finished, !HasCode(found, GraphCycleDetected), colors, order, !HasCode(issues, GraphCycleDetected),
                     starts, id, HasCode(found, GraphMaxDepthExceeded), HasCode(more, GraphMaxDepthExceeded), MAX_REASONABLE_DEPTH);
    } else {
      SkippedReport(children, colors, starts, id, HasCode(found, GraphMaxDepthExceeded), MAX_REASONABLE_DEPTH);
    }
  }

  predicate SearchIssues(issues: seq<Issue>) {
    && (HasErrors(issues) <==> HasCode(issues, GraphCycleDetected)) && !HasCode(issues, GraphDisconnectedEntry)
    && Codes(issues) <= {GraphCycleDetected, GraphMaxDepthExceeded}
  }

  /** The search from one white node, with its own stack. */
  method SearchFrom(children: Children, start: map<u64, Color>, id: u64, ghost before: seq<u64>, ghost clean: bool)
    returns (issues: seq<Issue>, colors: map<u64, Color>, ghost order: seq<u64>)
    requires id in start && start[id] == White
    requires SearchOk(children, start, [], before, clean)
    ensures colors.Keys == start.Keys
    ensures SearchOk(children, colors, [], order, clean && !HasCode(issues, GraphCycleDetected))
    ensures colors[id] != White && forall k :: k in start && start[k] != White ==> colors[k] != White
    ensures SearchIssues(issues)
    ensures DepthOk(children, id, start, colors, [], HasCode(issues, GraphMaxDepthExceeded), MAX_REASONABLE_DEPTH)
  {
    hide SearchOk, HasErrors, HasCode, Codes, Whites, Pending, Add, Kids, Advance, DepthOk;
    NothingReported();
    StartKeeps(children, start, before, clean, id);
    DepthStarts(children, start, id, MAX_REASONABLE_DEPTH);
    var stack := [Frame(id, 0)];
    colors, order, issues := start[id := Gray], before, [];
    while stack != []
      invariant colors.Keys == start.Keys
      invariant SearchOk(children, colors, stack, order, clean && !HasCode(issues, GraphCycleDetected))
      invariant colors[id] != White && forall k :: k in start && start[k] != White ==> colors[k] != White
      invariant SearchIssues(issues)
      invariant DepthOk(children, id, start, colors, stack, HasCode(issues, GraphMaxDepthExceeded), MAX_REASONABLE_DEPTH)
      decreases Whites(colors), Pending(children, stack)
    {
      colors, stack, issues, order := SearchTurn(children, colors, stack, issues, order, clean, id, start);
    }
  }

  /** One turn of the search loop: the top frame is popped, or its next child is looked at. */
  method SearchTurn(children: Children, before: map<u64, Color>, frames: seq<Frame>, found: seq<Issue>,
                    ghost finished: seq<u64>, ghost clean: bool, ghost start: u64, ghost origin: map<u64, Color>)
    returns (colors: map<u64, Color>, stack: seq<Frame>, issues: seq<Issue>, ghost order: seq<u64>)
    requires frames != [] && SearchIssues(found)
    requires DepthOk(children, start, origin, before, frames, HasCode(found, GraphMaxDepthExceeded), MAX_REASONABLE_DEPTH)
    ensures DepthOk(children, start, origin, colors, stack, HasCode(issues, GraphMaxDepthExceeded), MAX_REASONABLE_DEPTH)
    requires SearchOk(children, before, frames, finished, clean && !HasCode(found, GraphCycleDetected))
    ensures colors.Keys == before.Keys && SearchIssues(issues)
    ensures SearchOk(children, colors, stack, order, clean && !HasCode(issues, GraphCycleDetected))
    ensures forall k :: k in before && before[k] != White ==> colors[k] != White
    ensures Whites(colors) < Whites(before)
      || (Whites(colors) == Whites(before) && Pending(children, stack) < Pending(children, frames))
  {
    hide SearchOk, HasErrors, HasCode, Codes, Whites, Pending, Add, Advance, DepthOk;
    colors, stack, issues, order := before, frames, found, finished;
    var top := stack[|stack| - 1];
    var kids := Kids(children, top.id);
    if |stack| > MAX_REASONABLE_DEPTH {
      issues := Add(issues, GraphMaxDepthExceeded, Warning, Some(top.id));
    }
    ghost var sofar, warned := clean && !HasCode(issues, GraphCycleDetected), HasCode(issues, GraphMaxDepthExceeded);
    DepthWarns(children, start, origin, colors, stack, order, sofar, HasCode(found, GraphMaxDepthExceeded), MAX_REASONABLE_DEPTH);
    TopIsKnown(children, colors, stack, order, sofar);
    if top.next >= |kids| {
      PopPends(children, colors, stack);
      PopKeeps(children, colors, stack, order, sofar);
      DepthPops(children, start, origin, colors, stack, warned, MAX_REASONABLE_DEPTH);
      colors, stack, order := colors[top.id := Black], stack[..|stack| - 1], order + [top.id];
      return;
    }
    AdvancePends(children, stack);
    DepthAdvances(children, start, origin, colors, stack, warned, MAX_REASONABLE_DEPTH);
    var child := kids[top.next];
    if child !in colors || colors[child] == Black {
      SkipKeeps(children, colors, stack, order, sofar);
      stack := Advance(stack);
    } else if colors[child] == Gray {
      BackEdgeKeeps(children, colors, stack, order, sofar);
      issues := Add(issues, GraphCycleDetected, Error, Some(child));
      stack := Advance(stack);
    } else {
      PushKeeps(children, colors, stack, order, sofar);
      GrayingShrinks(colors, child);
      DepthPushes(children, start, origin, colors, stack, child, order, sofar, warned, MAX_REASONABLE_DEPTH);
      colors, stack := colors[child := Gray], Advance(stack) + [Frame(child, 0)];
    }
  }

  predicate Disconnected(issues: seq<Issue>, id: u64) {
    Issue(GraphDisconnectedEntry, Warning, Some(id)) in issues
  }

  lemma DisconnectedHasCode(issues: seq<Issue>, id: u64)
    ensures Disconnected(issues, id) ==> HasCode(issues, GraphDisconnectedEntry)
  {}

  lemma OnlyLastDisconnects(xs: seq<Issue>, ys: seq<Issue>)
    requires !HasCode(xs, GraphDisconnectedEntry)
    ensures forall id :: Disconnected(xs + ys, id) <==> Disconnected(ys, id)
  {
    forall id ensures Disconnected(xs + ys, id) <==> Disconnected(ys, id) {
      DisconnectedHasCode(xs, id);
      assert Disconnected(xs + ys, id) <==> Disconnected(xs, id) || Disconnected(ys, id);
    }
  }

  /** The whole parent-graph pass. */
  method GraphPass(s: Snapshot) returns (issues: seq<Issue>)
    ensures s.entries != [] ==> DepthReport(
      ChildrenIndex(s.entries), Ids(s.entries), StartIds(s.entries), HasCode(issues, GraphMaxDepthExceeded), 4096)
    ensures HasErrors(issues) <==> s.entries != [] && !GraphOk(s)
    ensures HasCode(issues, GraphCycleDetected) <==> s.entries != [] && Cyclic(s.entries)
    ensures Codes(issues) - {GraphCycleDetected, GraphMaxDepthExceeded, GraphDisconnectedEntry} == AllParentCodes(s, |s.entries|)
    ensures forall id :: Disconnected(issues, id) <==>
      s.rootEntryId in Ids(s.entries) && id in Ids(s.entries)
      && !Reaches(ChildrenIndex(s.entries), s.rootEntryId, id)
  {
    hide HasCycle, Reaches, ParentBad, ChildrenIndex, LastById, HasErrors, HasCode, Codes, DepthReport;
    NothingReported();
    issues := [];
    if s.entries == [] {
      return;
    }
    var byId, children := BuildIndexes(s.entries);
    LastByIdKeys(s.entries);
    issues := CheckParents(s, byId);
    ParentCodesAre(s, |s.entries|);
    CodesAre(issues, GraphMaxDepthExceeded);
    var cycles := DetectCycles(s.entries, children);
    Appended(issues, cycles);
    AppendedCodes(issues, cycles);
    issues := issues + cycles;
    OnlyLastDisconnects(issues, []);
    assert issues + [] == issues;
    if s.rootEntryId !in byId {
      return;
    }
    var reachable := FindReachable(children, s.rootEntryId);
    var lost := ReportDisconnected(byId.Keys, reachable);
    Appended(issues, lost);
    AppendedCodes(issues, lost);
    CodesAre(lost, GraphMaxDepthExceeded);
    OnlyLastDisconnects(issues, lost);
    issues := issues + lost;
  }

  lemma {:induction false} LastByIdKeys(es: seq<FileEntry>)
    ensures LastById(es).Keys == Ids(es)
  {
    if es != [] {
      LastByIdKeys(es[..|es| - 1]);
      assert forall e :: e in es <==> e in es[..|es| - 1] || e == es[|es| - 1];
    }
  }

  method ReportDisconnected(ids: set<u64>, reachable: set<u64>) returns (issues: seq<Issue>)
    ensures forall id :: Disconnected(issues, id) <==> id in ids && id !in reachable
    ensures !HasErrors(issues) && !HasCode(issues, GraphCycleDetected) && Codes(issues) <= {GraphDisconnectedEntry}
  {
    hide HasErrors, HasCode, Codes;
    NothingReported();
    issues := [];
    var todo := ids;
    while todo != {}
      invariant todo <= ids
      invariant forall id :: Disconnected(issues, id) <==> id in ids && id !in todo && id !in reachable
      invariant !HasErrors(issues) && !HasCode(issues, GraphCycleDetected) && Codes(issues) <= {GraphDisconnectedEntry}
      decreases todo
    {
      var id :| id in todo;
      todo := todo - {id};
      if id !in reachable {
        issues := Add(issues, GraphDisconnectedEntry, Warning, Some(id));
      }
    }
  }

  // ---- The timestamp pass ----

  function TimestampCodes(m: FileMetadata, now: i64): set<Code> {
    {} + When(m.createdAt > m.modifiedAt || m.modifiedAt > m.accessedAt, EntryTimestampOrderInvalid)
    + When(m.createdAt > now || m.modifiedAt > now || m.accessedAt > now, EntryTimestampInFuture)
  }

  function AllTimestampCodes(s: Snapshot, n: nat, now: i64): set<Code>
    requires n <= |s.entries|
  {
    if n == 0 then {} else AllTimestampCodes(s, n - 1, now) + TimestampCodes(s.entries[n - 1].metadata, now)
  }

  /** The pass that compares with the clock only warns. */
  method TimestampPass(s: Snapshot, now: i64) returns (issues: seq<Issue>)
    ensures !HasErrors(issues) && !HasCode(issues, GraphDisconnectedEntry)
    ensures Codes(issues) == AllTimestampCodes(s, |s.entries|, now)
  {
    hide HasErrors, HasCode, Codes;
    NothingReported();
    issues := [];
    for i := 0 to |s.entries|
      invariant !HasErrors(issues) && !HasCode(issues, GraphDisconnectedEntry)
      invariant Codes(issues) == AllTimestampCodes(s, i, now)
    {
      var m, id := s.entries[i].metadata, Some(s.entries[i].id);
      CodesAre(issues, GraphDisconnectedEntry);
      issues := AddIf(issues, m.createdAt > m.modifiedAt || m.modifiedAt > m.accessedAt, EntryTimestampOrderInvalid, Warning, id);
      issues := AddIf(issues, m.createdAt > now || m.modifiedAt > now || m.accessedAt > now, EntryTimestampInFuture, Warning, id);
      CodesAre(issues, GraphDisconnectedEntry);
    }
  }
}
