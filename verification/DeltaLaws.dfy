/** What the delta engine promises on snapshots whose ids and paths are unique: its output
    is determined, splits the entries exactly, and is inverted by `invert`. */
module DeltaLaws {
  import opened Domain
  import opened Sorting
  import opened DeltaEngine

  // ---- Membership of the collected lists ----

  lemma {:induction false} UnmatchedMembers(es: seq<FileEntry>, other: map<u64, FileEntry>)
    ensures forall e :: e in Unmatched(es, other) <==> e in es && e.id !in other
  {
    if es != [] {
      UnmatchedMembers(es[..|es| - 1], other);
      assert forall x :: x in es <==> x in es[..|es| - 1] || x == es[|es| - 1];
    }
  }

  lemma {:induction false} UnmatchedUnique(es: seq<FileEntry>, other: map<u64, FileEntry>)
    requires UniqueEntries(es)
    ensures UniqueEntries(Unmatched(es, other))
  {
    if es != [] {
      UnmatchedUnique(es[..|es| - 1], other);
      UnmatchedMembers(es[..|es| - 1], other);
      var r := Unmatched(es[..|es| - 1], other);
      forall i | 0 <= i < |r| ensures r[i].id != es[|es| - 1].id && r[i].path != es[|es| - 1].path {
        assert r[i] in es[..|es| - 1];
      }
    }
  }

  lemma UniqueEntriesPermutation(xs: seq<FileEntry>, ys: seq<FileEntry>)
    requires UniqueEntries(ys) && Permutation(xs, ys)
    ensures UniqueEntries(xs)
  {
    PermutationMembers(xs, ys);
    assert Distinct(ys);
    PermutationDistinct(xs, ys);
    forall i, j | 0 <= i < j < |xs|
      ensures xs[i].id != xs[j].id && xs[i].path != xs[j].path
    {
      assert xs[i] in ys && xs[j] in ys && xs[i] != xs[j];
    }
  }

  predicate Changed(e: FileEntry, other: map<u64, FileEntry>) {
    e.id in other && (e.metadata != other[e.id].metadata || e.kind != other[e.id].kind)
  }

  predicate Moved(e: FileEntry, other: map<u64, FileEntry>) {
    e.id in other && e.path != other[e.id].path
  }

  function Change(e: FileEntry, other: map<u64, FileEntry>): ModifiedEntry
    requires e.id in other
  {
    ModifiedEntry(other[e.id].id, e.metadata, other[e.id].metadata)
  }

  lemma {:induction false} ModifiedFrom(es: seq<FileEntry>, other: map<u64, FileEntry>, m: ModifiedEntry) returns (e: FileEntry)
    requires m in SharedModified(es, other)
    ensures e in es && Changed(e, other) && m == Change(e, other)
  {
    var n := |es| - 1;
    if m in SharedModified(es[..n], other) {
      e := ModifiedFrom(es[..n], other, m);
    } else {
      e := es[n];
    }
  }

  lemma {:induction false} ModifiedHas(es: seq<FileEntry>, other: map<u64, FileEntry>, e: FileEntry)
    requires e in es && Changed(e, other)
    ensures Change(e, other) in SharedModified(es, other)
  {
    var n := |es| - 1;
    if e != es[n] {
      ModifiedHas(es[..n], other, e);
    }
  }

  lemma {:induction false} RenamedFrom(es: seq<FileEntry>, other: map<u64, FileEntry>, r: RenamedEntry) returns (e: FileEntry)
    requires r in SharedRenames(es, other)
    ensures e in es && Moved(e, other) && r == Rename(e, other[e.id])
  {
    var n := |es| - 1;
    if r in SharedRenames(es[..n], other) {
      e := RenamedFrom(es[..n], other, r);
    } else {
      e := es[n];
    }
  }

  lemma {:induction false} RenamedHas(es: seq<FileEntry>, other: map<u64, FileEntry>, e: FileEntry)
    requires e in es && Moved(e, other)
    ensures Rename(e, other[e.id]) in SharedRenames(es, other)
  {
    var n := |es| - 1;
    if e != es[n] {
      RenamedHas(es[..n], other, e);
    }
  }

  /** Different entries give different operations, so no operation is listed twice. */
  lemma {:induction false} SharedDistinct(es: seq<FileEntry>, other: map<u64, FileEntry>)
    requires UniqueIds(es) && forall k :: k in other ==> other[k].id == k
    ensures Distinct(SharedModified(es, other)) && Distinct(SharedRenames(es, other))
  {
    if es != [] {
      var init, last := es[..|es| - 1], es[|es| - 1];
      SharedDistinct(init, other);
      forall m | m in SharedModified(init, other) ensures m.entryId != last.id {
        var e := ModifiedFrom(init, other, m);
      }
      forall r | r in SharedRenames(init, other) ensures r.beforeId != last.id {
        var e := RenamedFrom(init, other, r);
      }
      AppendDistinct(SharedModified(init, other), if Changed(last, other) then [Change(last, other)] else []);
      AppendDistinct(SharedRenames(init, other), if Moved(last, other) then [Rename(last, other[last.id])] else []);
    }
  }

  lemma AppendDistinct<T>(xs: seq<T>, more: seq<T>)
    requires Distinct(xs) && |more| <= 1 && (more != [] ==> more[0] !in xs)
    ensures Distinct(xs + more)
  {}

  // ---- The matcher ----

  /** Removed index `i` and added index `j` have the same fingerprint and the same rank in it. */
  ghost predicate MatchedAt(hash: Hash, removed: seq<FileEntry>, added: seq<FileEntry>, i: int, j: int) {
    && 0 <= i < |removed| && 0 <= j < |added|
    && MakeFingerprint(hash, removed[i]) == MakeFingerprint(hash, added[j])
    && Rank(hash, removed, i) == Rank(hash, added, j)
  }

  lemma MatchedOnce(hash: Hash, xs: seq<FileEntry>, ys: seq<FileEntry>, i: int, j: int, k: int)
    requires MatchedAt(hash, xs, ys, i, j)
    ensures MatchedAt(hash, xs, ys, i, k) ==> j == k
    ensures MatchedAt(hash, xs, ys, k, j) ==> i == k
  {
    PositionsByRank(hash, ys, MakeFingerprint(hash, ys[j]));
    PositionsByRank(hash, xs, MakeFingerprint(hash, xs[i]));
  }

  /** An index has a partner exactly when the other side has enough of its fingerprint. */
  lemma PartnerExists(hash: Hash, xs: seq<FileEntry>, ys: seq<FileEntry>, i: nat)
    requires i < |xs|
    ensures Rank(hash, xs, i) < Count(hash, ys, MakeFingerprint(hash, xs[i]))
            <==> exists j :: MatchedAt(hash, xs, ys, i, j)
  {
    var f := MakeFingerprint(hash, xs[i]);
    PositionsByRank(hash, ys, f);
    if Rank(hash, xs, i) < Count(hash, ys, f) {
      assert MatchedAt(hash, xs, ys, i, Positions(hash, ys, f)[Rank(hash, xs, i)]);
    }
  }

  lemma {:induction false} PairFrom(hash: Hash, removed: seq<FileEntry>, added: seq<FileEntry>, r: RenamedEntry)
    returns (i: nat, j: nat)
    requires r in Pairs(hash, removed, added)
    ensures MatchedAt(hash, removed, added, i, j) && r == Rename(removed[i], added[j])
  {
    var n := |removed| - 1;
    if r in Pairs(hash, removed[..n], added) {
      i, j := PairFrom(hash, removed[..n], added, r);
      assert removed[..n][..i] == removed[..i];
    } else {
      PositionsByRank(hash, added, MakeFingerprint(hash, removed[n]));
      i, j := n, Positions(hash, added, MakeFingerprint(hash, removed[n]))[Rank(hash, removed, n)];
    }
  }

  lemma {:induction false} PairHas(hash: Hash, removed: seq<FileEntry>, added: seq<FileEntry>, i: nat, j: nat)
    requires MatchedAt(hash, removed, added, i, j)
    ensures Rename(removed[i], added[j]) in Pairs(hash, removed, added)
  {
    var n := |removed| - 1;
    if i < n {
      assert removed[..n][..i] == removed[..i];
      PairHas(hash, removed[..n], added, i, j);
    } else {
      PositionsByRank(hash, added, MakeFingerprint(hash, removed[n]));
    }
  }

  lemma {:induction false} PairsDistinct(hash: Hash, removed: seq<FileEntry>, added: seq<FileEntry>)
    requires UniqueIds(removed)
    ensures Distinct(Pairs(hash, removed, added))
  {
    if removed != [] {
      var n := |removed| - 1;
      PairsDistinct(hash, removed[..n], added);
      forall r | r in Pairs(hash, removed[..n], added) ensures r.beforeId != removed[n].id {
        var i, j := PairFrom(hash, removed[..n], added, r);
      }
    }
  }

  ghost predicate HasPartner(hash: Hash, xs: seq<FileEntry>, ys: seq<FileEntry>, i: nat)
    requires i < |xs|
  {
    exists j :: MatchedAt(hash, xs, ys, i, j)
  }

  lemma {:induction false} LeftoverFrom(hash: Hash, xs: seq<FileEntry>, ys: seq<FileEntry>, e: FileEntry) returns (i: nat)
    requires e in Leftover(hash, xs, ys)
    ensures i < |xs| && xs[i] == e && !HasPartner(hash, xs, ys, i)
  {
    var n := |xs| - 1;
    if e in Leftover(hash, xs[..n], ys) {
      i := LeftoverFrom(hash, xs[..n], ys, e);
      assert xs[..n][..i] == xs[..i];
      PartnerExists(hash, xs[..n], ys, i);
      PartnerExists(hash, xs, ys, i);
    } else {
      i := n;
      PartnerExists(hash, xs, ys, n);
    }
  }

  lemma {:induction false} LeftoverHas(hash: Hash, xs: seq<FileEntry>, ys: seq<FileEntry>, i: nat)
    requires i < |xs| && !HasPartner(hash, xs, ys, i)
    ensures xs[i] in Leftover(hash, xs, ys)
  {
    var n := |xs| - 1;
    PartnerExists(hash, xs, ys, i);
    if i < n {
      assert xs[..n][..i] == xs[..i];
      PartnerExists(hash, xs[..n], ys, i);
      LeftoverHas(hash, xs[..n], ys, i);
    }
  }

  lemma {:induction false} LeftoverUnique(hash: Hash, xs: seq<FileEntry>, ys: seq<FileEntry>)
    requires UniqueEntries(xs)
    ensures UniqueEntries(Leftover(hash, xs, ys))
  {
    if xs != [] {
      var n := |xs| - 1;
      LeftoverUnique(hash, xs[..n], ys);
      var r := Leftover(hash, xs[..n], ys);
      forall k | 0 <= k < |r| ensures r[k].id != xs[n].id && r[k].path != xs[n].path {
        var i := LeftoverFrom(hash, xs[..n], ys, r[k]);
      }
    }
  }

  predicate Sources(rs: seq<RenamedEntry>, id: u64) {
    exists i :: 0 <= i < |rs| && rs[i].beforeId == id
  }

  predicate Targets(rs: seq<RenamedEntry>, id: u64) {
    exists i :: 0 <= i < |rs| && rs[i].afterId == id
  }

  lemma SourcesIntro(rs: seq<RenamedEntry>, r: RenamedEntry)
    requires r in rs
    ensures Sources(rs, r.beforeId) && Targets(rs, r.afterId)
  {}

  lemma RemovedIff(hash: Hash, removed: seq<FileEntry>, added: seq<FileEntry>, e: FileEntry)
    requires UniqueIds(removed)
    ensures e in Leftover(hash, removed, added) <==> e in removed && !Sources(Pairs(hash, removed, added), e.id)
  {
    var pairs := Pairs(hash, removed, added);
    if e in Leftover(hash, removed, added) {
      var i := LeftoverFrom(hash, removed, added, e);
      if Sources(pairs, e.id) {
        var k :| 0 <= k < |pairs| && pairs[k].beforeId == e.id;
        var i', j' := PairFrom(hash, removed, added, pairs[k]);
      }
    } else if e in removed {
      var i :| 0 <= i < |removed| && removed[i] == e;
      if HasPartner(hash, removed, added, i) {
        var j :| MatchedAt(hash, removed, added, i, j);
        PairHas(hash, removed, added, i, j);
        SourcesIntro(pairs, Rename(removed[i], added[j]));
      } else {
        LeftoverHas(hash, removed, added, i);
      }
    }
  }

  lemma AddedIff(hash: Hash, removed: seq<FileEntry>, added: seq<FileEntry>, e: FileEntry)
    requires UniqueIds(added)
    ensures e in Leftover(hash, added, removed) <==> e in added && !Targets(Pairs(hash, removed, added), e.id)
  {
    var pairs := Pairs(hash, removed, added);
    if e in Leftover(hash, added, removed) {
      var i := LeftoverFrom(hash, added, removed, e);
      if Targets(pairs, e.id) {
        var k :| 0 <= k < |pairs| && pairs[k].afterId == e.id;
        var i', j' := PairFrom(hash, removed, added, pairs[k]);
        assert MatchedAt(hash, added, removed, j', i');
      }
    } else if e in added {
      var i :| 0 <= i < |added| && added[i] == e;
      if HasPartner(hash, added, removed, i) {
        var j :| MatchedAt(hash, added, removed, i, j);
        assert MatchedAt(hash, removed, added, j, i);
        PairHas(hash, removed, added, j, i);
        SourcesIntro(pairs, Rename(removed[j], added[i]));
      } else {
        LeftoverHas(hash, added, removed, i);
      }
    }
  }

  // ---- The shape of a delta ----

  /** A rename joins a base entry to a target entry: either one id that moved, or an id
      that vanished and one that appeared, of the same type. */
  ghost predicate RenameOk(base: map<u64, FileEntry>, target: map<u64, FileEntry>, r: RenamedEntry) {
    && r.beforeId in base && r.afterId in target
    && r == Rename(base[r.beforeId], target[r.afterId])
    && if r.beforeId == r.afterId then r.oldPath != r.newPath
       else r.beforeId !in target && r.afterId !in base && base[r.beforeId].kind == target[r.afterId].kind
  }

  ghost predicate RenamesOk(base: map<u64, FileEntry>, target: map<u64, FileEntry>, rs: seq<RenamedEntry>) {
    && (forall i :: 0 <= i < |rs| ==> RenameOk(base, target, rs[i]))
    && (forall i, j :: 0 <= i < j < |rs| ==> rs[i].beforeId != rs[j].beforeId && rs[i].afterId != rs[j].afterId)
    && (forall id :: id in base && id in target && base[id].path != target[id].path ==>
         Rename(base[id], target[id]) in rs)
  }

  /** What a delta between two snapshots consists of, without saying how it was found. */
  ghost predicate DeltaShape(base: Snapshot, target: Snapshot, delta: DeltaSnapshot) {
    var baseById, targetById := IndexById(base.entries), IndexById(target.entries);
    && delta.baseSnapshotId == base.snapshotId && delta.targetSnapshotId == target.snapshotId
    && UniqueEntries(delta.added) && UniqueEntries(delta.removed)
    && (forall i, j :: 0 <= i < j < |delta.modified| ==> delta.modified[i].entryId != delta.modified[j].entryId)
    && (forall e :: e in delta.added <==> e in target.entries && e.id !in baseById && !Targets(delta.renamed, e.id))
    && (forall e :: e in delta.removed <==> e in base.entries && e.id !in targetById && !Sources(delta.renamed, e.id))
    && (forall m :: m in delta.modified <==>
         m.entryId in baseById && Changed(baseById[m.entryId], targetById) && m == Change(baseById[m.entryId], targetById))
    && RenamesOk(baseById, targetById, delta.renamed)
    && SortedBy(ByRename, delta.renamed)
  }

  lemma ModifiedShape(base: Snapshot, target: Snapshot, modified: seq<ModifiedEntry>)
    requires UniqueKeys(base) && UniqueKeys(target)
    requires Permutation(modified, SharedModified(base.entries, IndexById(target.entries)))
    ensures forall i, j :: 0 <= i < j < |modified| ==> modified[i].entryId != modified[j].entryId
    ensures var baseById, targetById := IndexById(base.entries), IndexById(target.entries);
      forall m :: m in modified <==>
        m.entryId in baseById && Changed(baseById[m.entryId], targetById) && m == Change(baseById[m.entryId], targetById)
  {
    var baseById, targetById := IndexById(base.entries), IndexById(target.entries);
    var all := SharedModified(base.entries, targetById);
    PermutationMembers(modified, all);
    SharedDistinct(base.entries, targetById);
    PermutationDistinct(modified, all);
    forall m ensures m in modified <==>
      m.entryId in baseById && Changed(baseById[m.entryId], targetById) && m == Change(baseById[m.entryId], targetById)
    {
      if m in modified {
        var e := ModifiedFrom(base.entries, targetById, m);
        IndexFinds(base.entries, e);
      }
      if m.entryId in baseById && Changed(baseById[m.entryId], targetById) && m == Change(baseById[m.entryId], targetById) {
        ModifiedHas(base.entries, targetById, baseById[m.entryId]);
      }
    }
    forall i, j | 0 <= i < j < |modified| ensures modified[i].entryId != modified[j].entryId {
      assert modified[i] in modified && modified[j] in modified && modified[i] != modified[j];
    }
  }

  /** The two orders in which the engine met the unmatched entries, with their keys. */
  lemma UnmatchedKeys(xs: seq<FileEntry>, es: seq<FileEntry>, other: map<u64, FileEntry>)
    requires UniqueEntries(es) && Permutation(xs, Unmatched(es, other))
    ensures UniqueEntries(xs)
    ensures forall e :: e in xs <==> e in es && e.id !in other
  {
    UnmatchedUnique(es, other);
    UnmatchedMembers(es, other);
    UniqueEntriesPermutation(xs, Unmatched(es, other));
    PermutationMembers(xs, Unmatched(es, other));
  }

  ghost function HeuristicPairs(heuristic: bool, hash: Hash, removed: seq<FileEntry>, added: seq<FileEntry>): seq<RenamedEntry> {
    if heuristic then Pairs(hash, removed, added) else []
  }

  /** Every rename of a delta, and where it comes from. */
  lemma RenameSource(base: Snapshot, target: Snapshot, heuristic: bool, hash: Hash,
                     removed: seq<FileEntry>, added: seq<FileEntry>, r: RenamedEntry)
    requires UniqueKeys(base) && UniqueKeys(target)
    requires Permutation(removed, Unmatched(base.entries, IndexById(target.entries)))
    requires Permutation(added, Unmatched(target.entries, IndexById(base.entries)))
    requires r in SharedRenames(base.entries, IndexById(target.entries)) + HeuristicPairs(heuristic, hash, removed, added)
    ensures RenameOk(IndexById(base.entries), IndexById(target.entries), r)
    ensures r.beforeId != r.afterId <==> r in HeuristicPairs(heuristic, hash, removed, added)
  {
    var baseById, targetById := IndexById(base.entries), IndexById(target.entries);
    UnmatchedKeys(removed, base.entries, targetById);
    UnmatchedKeys(added, target.entries, baseById);
    var pairs := HeuristicPairs(heuristic, hash, removed, added);
    if r in pairs {
      var i, j := PairFrom(hash, removed, added, r);
      assert removed[i] in removed && added[j] in added;
      IndexFinds(base.entries, removed[i]);
      IndexFinds(target.entries, added[j]);
    } else {
      var e := RenamedFrom(base.entries, targetById, r);
      IndexFinds(base.entries, e);
    }
  }

  lemma RenamesDistinct(base: Snapshot, target: Snapshot, heuristic: bool, hash: Hash,
                        removed: seq<FileEntry>, added: seq<FileEntry>)
    requires UniqueKeys(base) && UniqueKeys(target)
    requires Permutation(removed, Unmatched(base.entries, IndexById(target.entries)))
    requires Permutation(added, Unmatched(target.entries, IndexById(base.entries)))
    ensures Distinct(SharedRenames(base.entries, IndexById(target.entries))
                     + HeuristicPairs(heuristic, hash, removed, added))
  {
    var targetById := IndexById(target.entries);
    var shared, pairs := SharedRenames(base.entries, targetById), HeuristicPairs(heuristic, hash, removed, added);
    UnmatchedKeys(removed, base.entries, targetById);
    SharedDistinct(base.entries, targetById);
    PairsDistinct(hash, removed, added);
    forall i, j | 0 <= i < |shared| && 0 <= j < |pairs|
      ensures shared[i] != pairs[j]
    {
      var e := RenamedFrom(base.entries, targetById, shared[i]);
      assert pairs[j] in pairs;
      RenameSource(base, target, heuristic, hash, removed, added, pairs[j]);
    }
  }

  /** No two renames share an end. */
  lemma RenamesInjective(base: Snapshot, target: Snapshot, heuristic: bool, hash: Hash,
                         removed: seq<FileEntry>, added: seq<FileEntry>, r: RenamedEntry, s: RenamedEntry)
    requires UniqueKeys(base) && UniqueKeys(target)
    requires Permutation(removed, Unmatched(base.entries, IndexById(target.entries)))
    requires Permutation(added, Unmatched(target.entries, IndexById(base.entries)))
    requires var all := SharedRenames(base.entries, IndexById(target.entries))
                        + HeuristicPairs(heuristic, hash, removed, added);
             r in all && s in all && r != s
    ensures r.beforeId != s.beforeId && r.afterId != s.afterId
  {
    var baseById, targetById := IndexById(base.entries), IndexById(target.entries);
    RenameSource(base, target, heuristic, hash, removed, added, r);
    RenameSource(base, target, heuristic, hash, removed, added, s);
    if r.beforeId != r.afterId && s.beforeId != s.afterId {
      UnmatchedKeys(removed, base.entries, targetById);
      UnmatchedKeys(added, target.entries, baseById);
      PairsInjective(hash, removed, added, r, s);
    }
  }

  lemma RenamesShape(base: Snapshot, target: Snapshot, heuristic: bool, hash: Hash,
                     removed: seq<FileEntry>, added: seq<FileEntry>, renamed: seq<RenamedEntry>)
    requires UniqueKeys(base) && UniqueKeys(target)
    requires Permutation(removed, Unmatched(base.entries, IndexById(target.entries)))
    requires Permutation(added, Unmatched(target.entries, IndexById(base.entries)))
    requires Permutation(renamed, SharedRenames(base.entries, IndexById(target.entries))
                                  + HeuristicPairs(heuristic, hash, removed, added))
    ensures RenamesOk(IndexById(base.entries), IndexById(target.entries), renamed)
  {
    var baseById, targetById := IndexById(base.entries), IndexById(target.entries);
    var all := SharedRenames(base.entries, targetById) + HeuristicPairs(heuristic, hash, removed, added);
    PermutationMembers(renamed, all);
    RenamesDistinct(base, target, heuristic, hash, removed, added);
    PermutationDistinct(renamed, all);
    forall i | 0 <= i < |renamed| ensures RenameOk(baseById, targetById, renamed[i]) {
      assert renamed[i] in renamed;
      RenameSource(base, target, heuristic, hash, removed, added, renamed[i]);
    }
    forall i, j | 0 <= i < j < |renamed|
      ensures renamed[i].beforeId != renamed[j].beforeId && renamed[i].afterId != renamed[j].afterId
    {
      assert renamed[i] in renamed && renamed[j] in renamed && renamed[i] != renamed[j];
      RenamesInjective(base, target, heuristic, hash, removed, added, renamed[i], renamed[j]);
    }
    forall id | id in baseById && id in targetById && baseById[id].path != targetById[id].path
      ensures Rename(baseById[id], targetById[id]) in renamed
    {
      RenamedHas(base.entries, targetById, baseById[id]);
    }
  }

  lemma PairsInjective(hash: Hash, removed: seq<FileEntry>, added: seq<FileEntry>, r: RenamedEntry, s: RenamedEntry)
    requires UniqueIds(removed) && UniqueIds(added)
    requires r in Pairs(hash, removed, added) && s in Pairs(hash, removed, added) && r != s
    ensures r.beforeId != s.beforeId && r.afterId != s.afterId
  {
    var i, j := PairFrom(hash, removed, added, r);
    var k, l := PairFrom(hash, removed, added, s);
    if i == k { MatchedOnce(hash, removed, added, i, j, l); }
    if j == l { MatchedOnce(hash, removed, added, i, j, k); }
  }

  lemma SourcesPermutation(xs: seq<RenamedEntry>, ys: seq<RenamedEntry>, id: u64)
    requires Permutation(xs, ys)
    ensures Sources(xs, id) == Sources(ys, id) && Targets(xs, id) == Targets(ys, id)
  {
    PermutationMembers(xs, ys);
    assert forall i :: 0 <= i < |xs| ==> xs[i] in ys;
    assert forall i :: 0 <= i < |ys| ==> ys[i] in xs;
  }

  /** A shared rename has neither end among the unmatched ids. */
  lemma UnmatchedEnds(base: Snapshot, target: Snapshot, pairs: seq<RenamedEntry>, id: u64)
    requires UniqueKeys(base)
    ensures id !in IndexById(target.entries) ==>
      Sources(SharedRenames(base.entries, IndexById(target.entries)) + pairs, id) == Sources(pairs, id)
    ensures id !in IndexById(base.entries) ==>
      Targets(SharedRenames(base.entries, IndexById(target.entries)) + pairs, id) == Targets(pairs, id)
  {
    var targetById := IndexById(target.entries);
    var shared := SharedRenames(base.entries, targetById);
    forall i | 0 <= i < |shared| ensures shared[i].beforeId in targetById && shared[i].afterId in IndexById(base.entries) {
      var e := RenamedFrom(base.entries, targetById, shared[i]);
      IndexFinds(base.entries, e);
    }
    assert forall i :: 0 <= i < |pairs| ==> (shared + pairs)[|shared| + i] == pairs[i];
  }

  /** The delta the engine computes has the shape. */
  lemma ComputeShape(base: Snapshot, target: Snapshot, heuristic: bool, hash: Hash, delta: DeltaSnapshot)
    requires UniqueKeys(base) && UniqueKeys(target)
    requires IsDelta(base, target, heuristic, hash, delta)
    ensures DeltaShape(base, target, delta)
  {
    var removed, added :| IsDeltaVia(base, target, heuristic, hash, removed, added, delta);
    var baseById, targetById := IndexById(base.entries), IndexById(target.entries);
    var pairs := HeuristicPairs(heuristic, hash, removed, added);
    ModifiedShape(base, target, delta.modified);
    RenamesShape(base, target, heuristic, hash, removed, added, delta.renamed);
    UnmatchedKeys(removed, base.entries, targetById);
    UnmatchedKeys(added, target.entries, baseById);
    LeftoverUnique(hash, removed, added);
    LeftoverUnique(hash, added, removed);
    UniqueEntriesPermutation(delta.added, if heuristic then Leftover(hash, added, removed) else added);
    UniqueEntriesPermutation(delta.removed, if heuristic then Leftover(hash, removed, added) else removed);
    PermutationMembers(delta.added, if heuristic then Leftover(hash, added, removed) else added);
    PermutationMembers(delta.removed, if heuristic then Leftover(hash, removed, added) else removed);
    forall e ensures e in delta.added <==> e in target.entries && e.id !in baseById && !Targets(delta.renamed, e.id) {
      SourcesPermutation(delta.renamed, SharedRenames(base.entries, targetById) + pairs, e.id);
      UnmatchedEnds(base, target, pairs, e.id);
      if heuristic { AddedIff(hash, removed, added, e); }
    }
    forall e ensures e in delta.removed <==> e in base.entries && e.id !in targetById && !Sources(delta.renamed, e.id) {
      SourcesPermutation(delta.renamed, SharedRenames(base.entries, targetById) + pairs, e.id);
      UnmatchedEnds(base, target, pairs, e.id);
      if heuristic { RemovedIff(hash, removed, added, e); }
    }
  }
}
