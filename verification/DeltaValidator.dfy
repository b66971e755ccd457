/** The referential-integrity pass over a delta, and why a computed delta passes it. */
module DeltaValidator {
  import opened Domain
  import opened DeltaEngine
  import opened DeltaLaws
  import opened Validators
  import Paths

  predicate Repeats<T(==)>(xs: seq<T>) {
    exists i, j :: 0 <= i < j < |xs| && xs[i] == xs[j]
  }

  function EntryIds(es: seq<FileEntry>): (r: seq<u64>)
    ensures |r| == |es| && forall i :: 0 <= i < |es| ==> r[i] == es[i].id
  {
    seq(|es|, i requires 0 <= i < |es| => es[i].id)
  }

  function ModifiedEntryIds(ms: seq<ModifiedEntry>): (r: seq<u64>)
    ensures |r| == |ms| && forall i :: 0 <= i < |ms| ==> r[i] == ms[i].entryId
  {
    seq(|ms|, i requires 0 <= i < |ms| => ms[i].entryId)
  }

  function OldIds(rs: seq<RenamedEntry>): (r: seq<u64>)
    ensures |r| == |rs| && forall i :: 0 <= i < |rs| ==> r[i] == rs[i].beforeId
  {
    seq(|rs|, i requires 0 <= i < |rs| => rs[i].beforeId)
  }

  function NewIds(rs: seq<RenamedEntry>): (r: seq<u64>)
    ensures |r| == |rs| && forall i :: 0 <= i < |rs| ==> r[i] == rs[i].afterId
  {
    seq(|rs|, i requires 0 <= i < |rs| => rs[i].afterId)
  }

  function NewPaths(rs: seq<RenamedEntry>): (r: seq<string>)
    ensures |r| == |rs| && forall i :: 0 <= i < |rs| ==> r[i] == rs[i].newPath
  {
    seq(|rs|, i requires 0 <= i < |rs| => rs[i].newPath)
  }

  predicate AllIn(ids: seq<u64>, known: set<u64>) {
    forall i :: 0 <= i < |ids| ==> ids[i] in known
  }

  predicate NoneIn(ids: seq<u64>, known: seq<u64>) {
    forall i :: 0 <= i < |ids| ==> ids[i] !in known
  }

  /** No list names an id twice, no two renames share an end or a new path, and an id is
      added, removed or modified but not two of them. */
  predicate ListsOk(d: DeltaSnapshot) {
    var added, removed, modified := EntryIds(d.added), EntryIds(d.removed), ModifiedEntryIds(d.modified);
    && !Repeats(added) && !Repeats(removed) && !Repeats(modified)
    && !Repeats(OldIds(d.renamed)) && !Repeats(NewIds(d.renamed)) && !Repeats(NewPaths(d.renamed))
    && NoneIn(added, removed) && NoneIn(added, modified) && NoneIn(removed, modified)
  }

  /** What the pass lets through; a missing snapshot is not compared against. */
  predicate DeltaOk(d: DeltaSnapshot, base: Option<Snapshot>, target: Option<Snapshot>) {
    var added, removed, modified := EntryIds(d.added), EntryIds(d.removed), ModifiedEntryIds(d.modified);
    && d.baseSnapshotId != 0 && d.targetSnapshotId != 0
    && ListsOk(d)
    && (base.Some? ==>
          AllIn(removed, Ids(base.value.entries)) && AllIn(modified, Ids(base.value.entries))
          && AllIn(OldIds(d.renamed), Ids(base.value.entries)))
    && (target.Some? ==>
          AllIn(added, Ids(target.value.entries)) && AllIn(modified, Ids(target.value.entries))
          && AllIn(NewIds(d.renamed), Ids(target.value.entries)))
  }

  lemma RepeatsStep<T>(xs: seq<T>, i: nat)
    requires i < |xs|
    ensures Repeats(xs[..i + 1]) <==> Repeats(xs[..i]) || xs[i] in xs[..i]
  {
    var p := xs[..i + 1];
    if xs[i] in xs[..i] {
      var k :| 0 <= k < i && xs[..i][k] == xs[i];
      assert p[k] == p[i];
    }
    if Repeats(xs[..i]) {
      var j, k :| 0 <= j < k < i && xs[..i][j] == xs[..i][k];
      assert p[j] == p[k];
    }
    if Repeats(p) {
      var j, k :| 0 <= j < k < |p| && p[j] == p[k];
      assert k < i ==> xs[..i][j] == xs[..i][k];
      assert k == i ==> xs[..i][j] == xs[i];
    }
  }

  /** One loop that fills an id set and reports an id it holds already. */
  method ReportRepeats(ids: seq<u64>, code: Code) returns (issues: seq<Issue>, seen: set<u64>)
    ensures HasErrors(issues) <==> Repeats(ids)
    ensures Codes(issues) == When(Repeats(ids), code)
    ensures forall id :: id in seen <==> id in ids
  {
    hide HasErrors, HasCode, Codes, When, Add, Repeats;
    NothingReported();
    issues, seen := [], {};
    NoRepeatsYet(ids);
    WhenNot(code);
    for i := 0 to |ids|
      invariant HasErrors(issues) <==> Repeats(ids[..i])
      invariant Codes(issues) == When(Repeats(ids[..i]), code)
      invariant forall id :: id in seen <==> id in ids[..i]
    {
      RepeatsStep(ids, i);
      assert ids[..i + 1] == ids[..i] + [ids[i]];
      if ids[i] in seen {
        issues := Add(issues, code, Error, Some(ids[i]));
      }
      WhenOr(Repeats(ids[..i]), ids[i] in seen, code);
      seen := seen + {ids[i]};
    }
    assert ids[..|ids|] == ids;
  }

  lemma WhenNot(code: Code)
    ensures When(false, code) == {}
  {}

  /** Adding a code that may be there already. */
  lemma WhenOr(a: bool, b: bool, code: Code)
    ensures When(a || b, code) == When(a, code) + (if b then {code} else {})
  {}

  lemma NoRepeatsYet<T>(xs: seq<T>)
    ensures !Repeats(xs[..0])
  {}

  function RenameCodes(ends: bool, paths: bool): set<Code> {
    (if ends then {DeltaRenamedEntryDuplicate} else {}) + (if paths then {DeltaRenamePathConflict} else {})
  }

  /** The rename loop: the new id is only recorded when the old one was new to its set. */
  method ReportRenameRepeats(rs: seq<RenamedEntry>) returns (issues: seq<Issue>)
    ensures HasErrors(issues) <==> Repeats(OldIds(rs)) || Repeats(NewIds(rs)) || Repeats(NewPaths(rs))
    ensures Codes(issues) == RenameCodes(Repeats(OldIds(rs)) || Repeats(NewIds(rs)), Repeats(NewPaths(rs)))
  {
    hide HasErrors, HasCode, Codes, When, Add, Repeats, OldIds, NewIds, NewPaths;
    NothingReported();
    issues := [];
    var olds, news, olds', news', paths := OldIds(rs), NewIds(rs), {}, {}, {};
    NoRepeatsYet(olds);
    NoRepeatsYet(news);
    NoRepeatsYet(NewPaths(rs));
    for i := 0 to |rs|
      invariant HasErrors(issues) <==> Repeats(olds[..i]) || Repeats(news[..i]) || Repeats(NewPaths(rs)[..i])
      invariant Codes(issues) == RenameCodes(Repeats(olds[..i]) || Repeats(news[..i]), Repeats(NewPaths(rs)[..i]))
      invariant forall id :: id in olds' <==> id in olds[..i]
      invariant forall id :: id in news' ==> id in news[..i]
      invariant !Repeats(olds[..i]) ==> forall id :: id in news[..i] ==> id in news'
      invariant forall p :: p in paths <==> p in NewPaths(rs)[..i]
    {
      RepeatsStep(olds, i);
      RepeatsStep(news, i);
      RepeatsStep(NewPaths(rs), i);
      assert olds[..i + 1] == olds[..i] + [rs[i].beforeId] && news[..i + 1] == news[..i] + [rs[i].afterId];
      assert NewPaths(rs)[..i + 1] == NewPaths(rs)[..i] + [rs[i].newPath];
      if rs[i].beforeId in olds' || rs[i].afterId in news' {
        issues := Add(issues, DeltaRenamedEntryDuplicate, Error, Some(rs[i].afterId));
      }
      if rs[i].beforeId !in olds' {
        news' := news' + {rs[i].afterId};
      }
      olds' := olds' + {rs[i].beforeId};
      if rs[i].newPath in paths {
        issues := Add(issues, DeltaRenamePathConflict, Error, Some(rs[i].afterId));
      }
      paths := paths + {rs[i].newPath};
    }
    assert olds[..|rs|] == olds && news[..|rs|] == news && NewPaths(rs)[..|rs|] == NewPaths(rs);
  }

  /** Reports every id of one set found in another. */
  method ReportConflicts(ids: set<u64>, others: set<u64>) returns (issues: seq<Issue>)
    ensures HasErrors(issues) <==> exists id :: id in ids && id in others
    ensures Codes(issues) == When(exists id :: id in ids && id in others, DeltaConflictingOperations)
  {
    hide HasErrors, HasCode, Codes, Add;
    NothingReported();
    issues := [];
    var todo := ids;
    while todo != {}
      invariant todo <= ids
      invariant HasErrors(issues) <==> exists id :: id in ids && id !in todo && id in others
      invariant Codes(issues) == When(HasErrors(issues), DeltaConflictingOperations)
      decreases todo
    {
      var id :| id in todo;
      todo := todo - {id};
      if id in others {
        issues := Add(issues, DeltaConflictingOperations, Error, Some(id));
      }
    }
  }

  method ReportMissing(ids: seq<u64>, known: set<u64>, code: Code) returns (issues: seq<Issue>)
    ensures HasErrors(issues) <==> !AllIn(ids, known)
    ensures Codes(issues) == When(!AllIn(ids, known), code)
  {
    hide HasErrors, HasCode, Codes, Add;
    NothingReported();
    issues := [];
    for i := 0 to |ids|
      invariant HasErrors(issues) <==> exists k :: 0 <= k < i && ids[k] !in known
      invariant Codes(issues) == When(HasErrors(issues), code)
    {
      if ids[i] !in known {
        issues := Add(issues, code, Error, Some(ids[i]));
      }
    }
  }

  method CheckAgainst(ids: seq<u64>, modified: seq<u64>, ends: seq<u64>, known: set<u64>,
                      code: Code, modifiedCode: Code, endCode: Code) returns (issues: seq<Issue>)
    ensures HasErrors(issues) <==> !(AllIn(ids, known) && AllIn(modified, known) && AllIn(ends, known))
    ensures Codes(issues) ==
      When(!AllIn(ids, known), code) + When(!AllIn(modified, known), modifiedCode) + When(!AllIn(ends, known), endCode)
  {
    hide HasErrors, HasCode, Codes, When, AllIn;
    var a := ReportMissing(ids, known, code);
    var b := ReportMissing(modified, known, modifiedCode);
    var c := ReportMissing(ends, known, endCode);
    Appended(a, b);
    Appended(a + b, c);
    AppendedCodes(a, b);
    AppendedCodes(a + b, c);
    issues := a + b + c;
  }

  /** Which codes come from comparing with one side. */
  function SideCodes(ids: seq<u64>, modified: seq<u64>, ends: seq<u64>, side: Option<Snapshot>,
                     code: Code, modifiedCode: Code, endCode: Code): set<Code> {
    if side.None? then {}
    else
      var known := Ids(side.value.entries);
      When(!AllIn(ids, known), code) + When(!AllIn(modified, known), modifiedCode) + When(!AllIn(ends, known), endCode)
  }

  /** Which codes the pass reports. */
  function DeltaCodes(d: DeltaSnapshot, base: Option<Snapshot>, target: Option<Snapshot>): set<Code> {
    {} + When(d.baseSnapshotId == 0, DeltaBaseSnapshotIdZero)
    + When(d.targetSnapshotId == 0, DeltaTargetSnapshotIdZero)
    + When(d.baseSnapshotId == d.targetSnapshotId && d.baseSnapshotId != 0, DeltaBaseEqualsTarget)
    + ListCodes(d)
    + SideCodes(EntryIds(d.removed), ModifiedEntryIds(d.modified), OldIds(d.renamed), base,
        DeltaRemovedEntryMissingInBase, DeltaModifiedEntryMissingInBase, DeltaRenamedOldMissingInBase)
    + SideCodes(EntryIds(d.added), ModifiedEntryIds(d.modified), NewIds(d.renamed), target,
        DeltaAddedEntryMissingInTarget, DeltaModifiedEntryMissingInTarget, DeltaRenamedNewMissingInTarget)
  }

  method DeltaPass(d: DeltaSnapshot, base: Option<Snapshot>, target: Option<Snapshot>) returns (issues: seq<Issue>)
    ensures HasErrors(issues) <==> !DeltaOk(d, base, target)
    ensures Codes(issues) == DeltaCodes(d, base, target)
  {
    hide HasErrors, HasCode, Codes, When, Add, AddIf, ListCodes, ListsOk, Repeats, AllIn, EntryIds, ModifiedEntryIds, OldIds, NewIds, NewPaths, Ids;
    NothingReported();
    issues := [];
    issues := AddIf(issues, d.baseSnapshotId == 0, DeltaBaseSnapshotIdZero, Error, None);
    issues := AddIf(issues, d.targetSnapshotId == 0, DeltaTargetSnapshotIdZero, Error, None);
    issues := AddIf(issues, d.baseSnapshotId == d.targetSnapshotId && d.baseSnapshotId != 0, DeltaBaseEqualsTarget, Warning, None);
    var lists := CheckLists(d);
    Appended(issues, lists);
    AppendedCodes(issues, lists);
    issues := issues + lists;
    if base.Some? {
      var more := CheckAgainst(EntryIds(d.removed), ModifiedEntryIds(d.modified), OldIds(d.renamed), Ids(base.value.entries),
        DeltaRemovedEntryMissingInBase, DeltaModifiedEntryMissingInBase, DeltaRenamedOldMissingInBase);
      Appended(issues, more);
      AppendedCodes(issues, more);
      issues := issues + more;
    }
    if target.Some? {
      var more := CheckAgainst(EntryIds(d.added), ModifiedEntryIds(d.modified), NewIds(d.renamed), Ids(target.value.entries),
        DeltaAddedEntryMissingInTarget, DeltaModifiedEntryMissingInTarget, DeltaRenamedNewMissingInTarget);
      Appended(issues, more);
      AppendedCodes(issues, more);
      issues := issues + more;
    }
  }

  /** Which codes the lists of a delta give rise to. */
  function ListCodes(d: DeltaSnapshot): set<Code> {
    var added, removed, modified := EntryIds(d.added), EntryIds(d.removed), ModifiedEntryIds(d.modified);
    When(Repeats(added), DeltaAddedEntryDuplicate)
    + When(Repeats(removed), DeltaRemovedEntryDuplicate)
    + When(Repeats(modified), DeltaModifiedEntryDuplicate)
    + RenameCodes(Repeats(OldIds(d.renamed)) || Repeats(NewIds(d.renamed)), Repeats(NewPaths(d.renamed)))
    + When(!NoneIn(added, removed + modified), DeltaConflictingOperations)
    + When(!NoneIn(removed, modified), DeltaConflictingOperations)
  }

  /** The checks that need no snapshot: repeats within a list, conflicts between lists. */
  method CheckLists(d: DeltaSnapshot) returns (issues: seq<Issue>)
    ensures HasErrors(issues) <==> !ListsOk(d)
    ensures Codes(issues) == ListCodes(d)
  {
    hide HasErrors, HasCode, Codes, When, Add, Repeats, EntryIds, ModifiedEntryIds, OldIds, NewIds, NewPaths;
    var added, removed, modified := EntryIds(d.added), EntryIds(d.removed), ModifiedEntryIds(d.modified);
    var a, addedIds := ReportRepeats(added, DeltaAddedEntryDuplicate);
    var b, removedIds := ReportRepeats(removed, DeltaRemovedEntryDuplicate);
    var c, modifiedIds := ReportRepeats(modified, DeltaModifiedEntryDuplicate);
    var e := ReportRenameRepeats(d.renamed);
    var f := ReportConflicts(addedIds, removedIds + modifiedIds);
    var g := ReportConflicts(removedIds, modifiedIds);
    Appended(a, b);
    Appended(a + b, c);
    Appended(a + b + c, e);
    Appended(a + b + c + e, f);
    Appended(a + b + c + e + f, g);
    AppendedCodes(a, b);
    AppendedCodes(a + b, c);
    AppendedCodes(a + b + c, e);
    AppendedCodes(a + b + c + e, f);
    AppendedCodes(a + b + c + e + f, g);
    issues := a + b + c + e + f + g;
    ConflictMeans(added, removed + modified, addedIds, removedIds + modifiedIds);
    ConflictMeans(removed, modified, removedIds, modifiedIds);
    assert NoneIn(added, removed + modified) <==> NoneIn(added, removed) && NoneIn(added, modified);
  }

  lemma ConflictMeans(xs: seq<u64>, ys: seq<u64>, s: set<u64>, t: set<u64>)
    requires forall id :: id in s <==> id in xs
    requires forall id :: id in t <==> id in ys
    ensures (exists id :: id in s && id in t) <==> !NoneIn(xs, ys)
  {
    if !NoneIn(xs, ys) {
      var i :| 0 <= i < |xs| && xs[i] in ys;
      assert xs[i] in s && xs[i] in t;
    }
  }

  /** On which side each listed id is known. */
  ghost predicate SidesOk(base: set<u64>, target: set<u64>, d: DeltaSnapshot) {
    && (forall i :: 0 <= i < |d.added| ==> d.added[i].id in target && d.added[i].id !in base)
    && (forall i :: 0 <= i < |d.removed| ==> d.removed[i].id in base && d.removed[i].id !in target)
    && (forall i :: 0 <= i < |d.modified| ==> d.modified[i].entryId in base && d.modified[i].entryId in target)
    && (forall i :: 0 <= i < |d.renamed| ==> d.renamed[i].beforeId in base && d.renamed[i].afterId in target)
  }

  lemma ShapeHasSides(base: Snapshot, target: Snapshot, delta: DeltaSnapshot)
    requires DeltaShape(base, target, delta)
    ensures SidesOk(Ids(base.entries), Ids(target.entries), delta)
  {
    var baseById, targetById := IndexById(base.entries), IndexById(target.entries);
    forall id ensures (id in Ids(base.entries) <==> id in baseById) && (id in Ids(target.entries) <==> id in targetById) {}
    hide Ids;
    forall i | 0 <= i < |delta.added|
      ensures delta.added[i].id in targetById && delta.added[i].id !in baseById
    {
      assert delta.added[i] in delta.added;
    }
    forall i | 0 <= i < |delta.removed|
      ensures delta.removed[i].id in baseById && delta.removed[i].id !in targetById
    {
      assert delta.removed[i] in delta.removed;
    }
    forall i | 0 <= i < |delta.modified|
      ensures delta.modified[i].entryId in baseById && delta.modified[i].entryId in targetById
    {
      assert delta.modified[i] in delta.modified;
    }
    forall i | 0 <= i < |delta.renamed|
      ensures delta.renamed[i].beforeId in baseById && delta.renamed[i].afterId in targetById
    {
      assert RenameOk(baseById, targetById, delta.renamed[i]);
    }
  }

  /** No list repeats an id. */
  ghost predicate NoRepeats(d: DeltaSnapshot) {
    && !Repeats(EntryIds(d.added)) && !Repeats(EntryIds(d.removed)) && !Repeats(ModifiedEntryIds(d.modified))
    && !Repeats(OldIds(d.renamed)) && !Repeats(NewIds(d.renamed))
  }

  lemma ShapeNoRepeats(base: Snapshot, target: Snapshot, delta: DeltaSnapshot)
    requires DeltaShape(base, target, delta)
    ensures NoRepeats(delta)
    ensures delta.baseSnapshotId == base.snapshotId && delta.targetSnapshotId == target.snapshotId
  {
    hide RenameOk, IndexById, Changed;
  }

  lemma SidesMakeDeltaOk(base: Snapshot, target: Snapshot, delta: DeltaSnapshot)
    requires SidesOk(Ids(base.entries), Ids(target.entries), delta)
    requires NoRepeats(delta) && !Repeats(NewPaths(delta.renamed))
    requires delta.baseSnapshotId != 0 && delta.targetSnapshotId != 0
    ensures DeltaOk(delta, Some(base), Some(target))
  {
    hide Ids, Repeats, NewPaths;
  }

  /** A delta of the engine's shape between two snapshots with unique keys passes without an error. */
  lemma ComputedDeltaPasses(base: Snapshot, target: Snapshot, delta: DeltaSnapshot)
    requires UniqueKeys(base) && UniqueKeys(target) && DeltaShape(base, target, delta)
    requires base.snapshotId != 0 && target.snapshotId != 0
    ensures DeltaOk(delta, Some(base), Some(target))
  {
    hide DeltaShape, DeltaOk, SidesOk, NoRepeats, Repeats, Ids;
    ShapeHasSides(base, target, delta);
    ShapeNoRepeats(base, target, delta);
    NewPathsDistinct(base, target, delta);
    SidesMakeDeltaOk(base, target, delta);
  }

  lemma NewPathsDistinct(base: Snapshot, target: Snapshot, delta: DeltaSnapshot)
    requires UniqueKeys(target) && DeltaShape(base, target, delta)
    ensures !Repeats(NewPaths(delta.renamed))
  {
    var baseById, targetById, rs := IndexById(base.entries), IndexById(target.entries), delta.renamed;
    forall i, j | 0 <= i < j < |rs| ensures rs[i].newPath != rs[j].newPath {
      assert RenameOk(baseById, targetById, rs[i]) && RenameOk(baseById, targetById, rs[j]);
      assert targetById[rs[i].afterId] in target.entries && targetById[rs[j].afterId] in target.entries;
    }
  }

  /** Main result: whatever the engine computes between two snapshots that the header, identity and
      path passes accept passes without an error. */
  lemma AcceptedDeltaPasses(base: Snapshot, target: Snapshot, heuristic: bool, hash: Hash, delta: DeltaSnapshot)
    requires HeaderOk(base) && IdentityOk(base) && PathsOk(base)
    requires HeaderOk(target) && IdentityOk(target) && PathsOk(target)
    requires IsDelta(base, target, heuristic, hash, delta)
    ensures DeltaOk(delta, Some(base), Some(target))
  {
    hide IsDelta, DeltaShape, DeltaOk, IdentityOk, PathsOk;
    AcceptedKeys(base);
    AcceptedKeys(target);
    ComputeShape(base, target, heuristic, hash, delta);
    ComputedDeltaPasses(base, target, delta);
  }

  lemma AcceptedKeys(s: Snapshot)
    requires IdentityOk(s) && PathsOk(s)
    ensures UniqueKeys(s)
  {
    hide Paths.Normalize, Paths.HasTraversal;
    forall i, j | 0 <= i < j < |s.entries|
      ensures s.entries[i].id != s.entries[j].id && s.entries[i].path != s.entries[j].path
    {
      assert !IdentityBad(s, j) && !PathBad(s, j);
    }
  }
}
