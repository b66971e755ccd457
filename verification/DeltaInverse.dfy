/** The engine's output is determined by the two snapshots, and inverting it is the same as
    comparing them the other way round. */
module DeltaInverse {
  import opened Domain
  import opened Sorting
  import opened DeltaEngine
  import opened DeltaLaws

  // ---- The comparators separate what they sort ----

  lemma KeysSeparate(es: seq<FileEntry>)
    requires UniqueEntries(es)
    ensures Separates(ByPath, es) && Separates(ByPathThenId, es)
  {
    forall x, y | x in es && y in es && x != y
      ensures StringLess(x.path, y.path) || StringLess(y.path, x.path)
      ensures x.path != y.path
    {
      StringLessTotal(x.path, y.path);
    }
  }

  lemma IdsSeparate(ms: seq<ModifiedEntry>)
    requires forall i, j :: 0 <= i < j < |ms| ==> ms[i].entryId != ms[j].entryId
    ensures Separates(ByEntryId, ms)
  {}

  lemma RenamesSeparate(rs: seq<RenamedEntry>)
    ensures Separates(ByRename, rs)
  {
    forall x: string, y: string ensures x == y || StringLess(x, y) || StringLess(y, x) {
      StringLessTotal(x, y);
    }
  }

  lemma SameSorted<T(!new)>(less: (T, T) -> bool, xs: seq<T>, ys: seq<T>, of: seq<T>)
    requires SortedPermutation(less, xs, of) && SortedPermutation(less, ys, of)
    requires Separates(less, of)
    ensures xs == ys
  {
    SeparatesPermutation(less, of, xs);
    SortIsUnique(less, xs, ys);
  }

  /** The order in which the unmatched entries are met is immaterial or determined. */
  lemma DeltaIsUnique(base: Snapshot, target: Snapshot, heuristic: bool, hash: Hash, d: DeltaSnapshot, e: DeltaSnapshot)
    requires UniqueKeys(base) && UniqueKeys(target)
    requires IsDelta(base, target, heuristic, hash, d) && IsDelta(base, target, heuristic, hash, e)
    ensures d == e
  {
    var baseById, targetById := IndexById(base.entries), IndexById(target.entries);
    var r1, a1 :| IsDeltaVia(base, target, heuristic, hash, r1, a1, d);
    var r2, a2 :| IsDeltaVia(base, target, heuristic, hash, r2, a2, e);
    UnmatchedKeys(r1, base.entries, targetById);
    UnmatchedKeys(a1, target.entries, baseById);
    KeysSeparate(r1);
    KeysSeparate(a1);
    if heuristic {
      SortIsUnique(ByPath, r1, r2);
      SortIsUnique(ByPath, a1, a2);
      LeftoverUnique(hash, r1, a1);
      LeftoverUnique(hash, a1, r1);
      KeysSeparate(Leftover(hash, r1, a1));
      KeysSeparate(Leftover(hash, a1, r1));
    }
    SameSorted(ByPathThenId, d.removed, e.removed, if heuristic then Leftover(hash, r1, a1) else r1);
    SameSorted(ByPathThenId, d.added, e.added, if heuristic then Leftover(hash, a1, r1) else a1);
    ModifiedShape(base, target, SharedModified(base.entries, targetById));
    IdsSeparate(SharedModified(base.entries, targetById));
    SameSorted(ByEntryId, d.modified, e.modified, SharedModified(base.entries, targetById));
    var all := SharedRenames(base.entries, targetById) + HeuristicPairs(heuristic, hash, r1, a1);
    RenamesSeparate(all);
    SameSorted(ByRename, d.renamed, e.renamed, all);
  }

  // ---- Inversion ----

  lemma SwapPermutation(xs: seq<ModifiedEntry>, ys: seq<ModifiedEntry>)
    requires Permutation(xs, ys) && Distinct(ys)
    ensures Permutation(SwapAll(xs), SwapAll(ys))
  {
    PermutationMembers(xs, ys);
    PermutationDistinct(xs, ys);
    forall m ensures m in SwapAll(xs) <==> m in SwapAll(ys) {
      SwapMembers(xs, m);
      SwapMembers(ys, m);
    }
    SameMembersPermutation(SwapAll(xs), SwapAll(ys));
  }

  lemma SwapMembers(xs: seq<ModifiedEntry>, m: ModifiedEntry)
    ensures m in SwapAll(xs) <==> Swap(m) in xs
  {
    if m in SwapAll(xs) { var i :| 0 <= i < |xs| && SwapAll(xs)[i] == m; assert xs[i] == Swap(m); }
    if Swap(m) in xs { var i :| 0 <= i < |xs| && xs[i] == Swap(m); assert SwapAll(xs)[i] == m; }
  }

  lemma ReversePermutation(xs: seq<RenamedEntry>, ys: seq<RenamedEntry>)
    requires Permutation(xs, ys) && Distinct(ys)
    ensures Permutation(ReverseAll(xs), ReverseAll(ys))
  {
    PermutationMembers(xs, ys);
    PermutationDistinct(xs, ys);
    forall r ensures r in ReverseAll(xs) <==> r in ReverseAll(ys) {
      ReverseMembers(xs, r);
      ReverseMembers(ys, r);
    }
    SameMembersPermutation(ReverseAll(xs), ReverseAll(ys));
  }

  lemma ReverseMembers(xs: seq<RenamedEntry>, r: RenamedEntry)
    ensures r in ReverseAll(xs) <==> Reverse(r) in xs
  {
    if r in ReverseAll(xs) { var i :| 0 <= i < |xs| && ReverseAll(xs)[i] == r; assert xs[i] == Reverse(r); }
    if Reverse(r) in xs { var i :| 0 <= i < |xs| && xs[i] == Reverse(r); assert ReverseAll(xs)[i] == r; }
  }

  /** Comparing the other way round swaps every modification. */
  lemma ModifiedSymmetric(base: Snapshot, target: Snapshot)
    requires UniqueKeys(base) && UniqueKeys(target)
    ensures Permutation(SwapAll(SharedModified(base.entries, IndexById(target.entries))),
                        SharedModified(target.entries, IndexById(base.entries)))
  {
    var there := SharedModified(base.entries, IndexById(target.entries));
    var back := SharedModified(target.entries, IndexById(base.entries));
    SharedDistinct(base.entries, IndexById(target.entries));
    SharedDistinct(target.entries, IndexById(base.entries));
    forall m ensures m in SwapAll(there) <==> m in back {
      SwapMembers(there, m);
      if Swap(m) in there { ModifiedOneWay(base, target, Swap(m)); }
      if m in back { ModifiedOneWay(target, base, m); }
    }
    SameMembersPermutation(SwapAll(there), back);
  }

  lemma ModifiedOneWay(base: Snapshot, target: Snapshot, m: ModifiedEntry)
    requires UniqueKeys(base) && UniqueKeys(target)
    requires m in SharedModified(base.entries, IndexById(target.entries))
    ensures Swap(m) in SharedModified(target.entries, IndexById(base.entries))
  {
    var e := ModifiedFrom(base.entries, IndexById(target.entries), m);
    IndexFinds(base.entries, e);
    ModifiedHas(target.entries, IndexById(base.entries), IndexById(target.entries)[e.id]);
  }

  lemma RenamesOneWay(base: Snapshot, target: Snapshot, heuristic: bool, hash: Hash,
                      removed: seq<FileEntry>, added: seq<FileEntry>, r: RenamedEntry)
    requires UniqueKeys(base) && UniqueKeys(target)
    requires r in SharedRenames(base.entries, IndexById(target.entries)) + HeuristicPairs(heuristic, hash, removed, added)
    ensures Reverse(r) in SharedRenames(target.entries, IndexById(base.entries)) + HeuristicPairs(heuristic, hash, added, removed)
  {
    if r in HeuristicPairs(heuristic, hash, removed, added) {
      var i, j := PairFrom(hash, removed, added, r);
      assert MatchedAt(hash, added, removed, j, i);
      PairHas(hash, added, removed, j, i);
    } else {
      var e := RenamedFrom(base.entries, IndexById(target.entries), r);
      IndexFinds(base.entries, e);
      RenamedHas(target.entries, IndexById(base.entries), IndexById(target.entries)[e.id]);
    }
  }

  /** The greedy matcher is symmetric: the other way round it makes the reversed renames. */
  lemma RenamesSymmetric(base: Snapshot, target: Snapshot, heuristic: bool, hash: Hash,
                         removed: seq<FileEntry>, added: seq<FileEntry>)
    requires UniqueKeys(base) && UniqueKeys(target)
    requires Permutation(removed, Unmatched(base.entries, IndexById(target.entries)))
    requires Permutation(added, Unmatched(target.entries, IndexById(base.entries)))
    ensures Permutation(
      ReverseAll(SharedRenames(base.entries, IndexById(target.entries)) + HeuristicPairs(heuristic, hash, removed, added)),
      SharedRenames(target.entries, IndexById(base.entries)) + HeuristicPairs(heuristic, hash, added, removed))
  {
    var there := SharedRenames(base.entries, IndexById(target.entries)) + HeuristicPairs(heuristic, hash, removed, added);
    var back := SharedRenames(target.entries, IndexById(base.entries)) + HeuristicPairs(heuristic, hash, added, removed);
    RenamesDistinct(base, target, heuristic, hash, removed, added);
    RenamesDistinct(target, base, heuristic, hash, added, removed);
    forall r ensures r in ReverseAll(there) <==> r in back {
      ReverseMembers(there, r);
      if Reverse(r) in there { RenamesOneWay(base, target, heuristic, hash, removed, added, Reverse(r)); }
      if r in back { RenamesOneWay(target, base, heuristic, hash, added, removed, r); }
    }
    SameMembersPermutation(ReverseAll(there), back);
  }

  /** What `invert` returns is a delta from the target back to the base. */
  lemma InverseIsDelta(base: Snapshot, target: Snapshot, heuristic: bool, hash: Hash,
                       delta: DeltaSnapshot, inverse: DeltaSnapshot)
    requires UniqueKeys(base) && UniqueKeys(target)
    requires IsDelta(base, target, heuristic, hash, delta) && IsInverse(delta, inverse)
    ensures IsDelta(target, base, heuristic, hash, inverse)
  {
    var removed, added :| IsDeltaVia(base, target, heuristic, hash, removed, added, delta);
    var targetById := IndexById(target.entries);
    ModifiedSymmetric(base, target);
    SharedDistinct(base.entries, targetById);
    SwapPermutation(delta.modified, SharedModified(base.entries, targetById));
    RenamesSymmetric(base, target, heuristic, hash, removed, added);
    RenamesDistinct(base, target, heuristic, hash, removed, added);
    ReversePermutation(delta.renamed, SharedRenames(base.entries, targetById) + HeuristicPairs(heuristic, hash, removed, added));
    assert IsDeltaVia(target, base, heuristic, hash, added, removed, inverse);
  }

  /** `invert(compute(b, t)) == compute(t, b)`, with the rename heuristic on or off. */
  lemma InvertIsComputeBack(base: Snapshot, target: Snapshot, heuristic: bool, hash: Hash,
                            delta: DeltaSnapshot, inverse: DeltaSnapshot, back: DeltaSnapshot)
    requires UniqueKeys(base) && UniqueKeys(target)
    requires IsDelta(base, target, heuristic, hash, delta)
    requires IsInverse(delta, inverse)
    requires IsDelta(target, base, heuristic, hash, back)
    ensures inverse == back
  {
    InverseIsDelta(base, target, heuristic, hash, delta, inverse);
    DeltaIsUnique(target, base, heuristic, hash, inverse, back);
  }

  /** Inverting twice gives the delta back. */
  lemma InvertTwice(base: Snapshot, target: Snapshot, heuristic: bool, hash: Hash,
                    delta: DeltaSnapshot, inverse: DeltaSnapshot, again: DeltaSnapshot)
    requires UniqueKeys(base) && UniqueKeys(target)
    requires IsDelta(base, target, heuristic, hash, delta)
    requires IsInverse(delta, inverse) && IsInverse(inverse, again)
    ensures again == delta
  {
    InverseIsDelta(base, target, heuristic, hash, delta, inverse);
    InverseIsDelta(target, base, heuristic, hash, inverse, again);
    DeltaIsUnique(base, target, heuristic, hash, again, delta);
  }

  // ---- Nothing lost, nothing counted twice ----

  predicate HeuristicSource(delta: DeltaSnapshot, id: u64) {
    exists i :: 0 <= i < |delta.renamed| && delta.renamed[i].beforeId == id != delta.renamed[i].afterId
  }

  predicate HeuristicTarget(delta: DeltaSnapshot, id: u64) {
    exists i :: 0 <= i < |delta.renamed| && delta.renamed[i].afterId == id != delta.renamed[i].beforeId
  }

  /** Every base id is exactly one of shared, removed and rename source; every target id is
      exactly one of shared, added and rename target. */
  lemma IdsSplit(base: Snapshot, target: Snapshot, delta: DeltaSnapshot, id: u64)
    requires UniqueKeys(base) && UniqueKeys(target) && DeltaShape(base, target, delta)
    ensures var shared := id in Ids(base.entries) && id in Ids(target.entries);
      && (id in Ids(base.entries) <==> shared || id in Ids(delta.removed) || HeuristicSource(delta, id))
      && (id in Ids(target.entries) <==> shared || id in Ids(delta.added) || HeuristicTarget(delta, id))
      && !(shared && id in Ids(delta.removed)) && !(shared && id in Ids(delta.added))
      && !(shared && HeuristicSource(delta, id)) && !(shared && HeuristicTarget(delta, id))
      && !(id in Ids(delta.removed) && HeuristicSource(delta, id))
      && !(id in Ids(delta.added) && HeuristicTarget(delta, id))
  {
    var baseById, targetById := IndexById(base.entries), IndexById(target.entries);
    assert id in Ids(base.entries) <==> id in baseById;
    assert id in Ids(target.entries) <==> id in targetById;
    forall i | 0 <= i < |delta.renamed| ensures RenameOk(baseById, targetById, delta.renamed[i]) {}
    if id in baseById && id !in targetById && !HeuristicSource(delta, id) {
      assert baseById[id] in delta.removed;
    }
    if id in targetById && id !in baseById && !HeuristicTarget(delta, id) {
      assert targetById[id] in delta.added;
    }
    if id in Ids(delta.removed) {
      var e :| e in delta.removed && e.id == id;
    }
    if id in Ids(delta.added) {
      var e :| e in delta.added && e.id == id;
    }
  }

  predicate NoOperations(delta: DeltaSnapshot) {
    delta.added == [] && delta.removed == [] && delta.modified == [] && delta.renamed == []
  }

  /** Both snapshots have the id or neither does, with the same path, type and metadata. */
  ghost predicate AgreeAt(base: map<u64, FileEntry>, target: map<u64, FileEntry>, id: u64) {
    && (id in base <==> id in target)
    && (id in base && id in target ==>
          base[id].path == target[id].path && base[id].kind == target[id].kind && base[id].metadata == target[id].metadata)
  }

  ghost predicate SameContent(base: Snapshot, target: Snapshot) {
    forall id :: AgreeAt(IndexById(base.entries), IndexById(target.entries), id)
  }

  /** Every difference between the snapshots shows up in some list. */
  lemma DifferenceShows(base: Snapshot, target: Snapshot, delta: DeltaSnapshot, id: u64)
    requires UniqueKeys(base) && UniqueKeys(target) && DeltaShape(base, target, delta)
    ensures var baseById, targetById := IndexById(base.entries), IndexById(target.entries);
      && (id in baseById && id !in targetById ==> baseById[id] in delta.removed || Sources(delta.renamed, id))
      && (id in targetById && id !in baseById ==> targetById[id] in delta.added || Targets(delta.renamed, id))
      && (id in baseById && id in targetById ==>
            && (baseById[id].path != targetById[id].path ==> Rename(baseById[id], targetById[id]) in delta.renamed)
            && (Changed(baseById[id], targetById) ==> Change(baseById[id], targetById) in delta.modified))
  {}

  /** Every operation is about an id on which the snapshots differ. */
  lemma OperationShows(base: Snapshot, target: Snapshot, delta: DeltaSnapshot)
    requires UniqueKeys(base) && UniqueKeys(target) && DeltaShape(base, target, delta)
    ensures var baseById, targetById := IndexById(base.entries), IndexById(target.entries);
      && (delta.added != [] ==> !AgreeAt(baseById, targetById, delta.added[0].id))
      && (delta.removed != [] ==> !AgreeAt(baseById, targetById, delta.removed[0].id))
      && (delta.modified != [] ==> !AgreeAt(baseById, targetById, delta.modified[0].entryId))
      && (delta.renamed != [] ==> !AgreeAt(baseById, targetById, delta.renamed[0].beforeId))
  {
    var baseById, targetById := IndexById(base.entries), IndexById(target.entries);
    if delta.added != [] { assert delta.added[0] in delta.added; }
    if delta.removed != [] { assert delta.removed[0] in delta.removed; }
    if delta.modified != [] { assert delta.modified[0] in delta.modified; }
    if delta.renamed != [] { assert RenameOk(baseById, targetById, delta.renamed[0]); }
  }

  /** The delta is empty exactly when ids, paths, types and metadata all agree. */
  lemma EmptyIffSameContent(base: Snapshot, target: Snapshot, delta: DeltaSnapshot)
    requires UniqueKeys(base) && UniqueKeys(target) && DeltaShape(base, target, delta)
    ensures NoOperations(delta) <==> SameContent(base, target)
  {
    OperationShows(base, target, delta);
    if NoOperations(delta) {
      forall id ensures AgreeAt(IndexById(base.entries), IndexById(target.entries), id) {
        DifferenceShows(base, target, delta, id);
      }
    }
  }
}
