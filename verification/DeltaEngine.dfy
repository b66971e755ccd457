/** The delta engine: two snapshots are compared by entry id, and what remains unmatched
    on both sides is paired greedily by fingerprint, in path order, as renames. */
module DeltaEngine {
  import opened Domain
  import opened Sorting

  datatype Fingerprint = Fingerprint(
    kind: u8, deviceId: u64, fileId: u64, sizeBytes: u64, modifiedAt: i64, nameHash: u64)

  function MakeFingerprint(hash: Hash, e: FileEntry): Fingerprint {
    var m := e.metadata;
    if m.deviceId != 0 && m.fileId != 0 then
      Fingerprint(e.kind, m.deviceId, m.fileId, m.sizeBytes, m.modifiedAt, hash(e.name))
    else
      Fingerprint(e.kind, 0, 0, m.sizeBytes, m.modifiedAt, hash(e.name))
  }

  // ---- The comparators ----

  predicate ByPath(a: FileEntry, b: FileEntry) {
    StringLess(a.path, b.path)
  }

  predicate ByPathThenId(a: FileEntry, b: FileEntry) {
    if a.path == b.path then a.id < b.id else StringLess(a.path, b.path)
  }

  predicate ByEntryId(a: ModifiedEntry, b: ModifiedEntry) {
    a.entryId < b.entryId
  }

  predicate ByRename(a: RenamedEntry, b: RenamedEntry) {
    if a.oldPath == b.oldPath then
      if a.newPath == b.newPath then
        if a.beforeId == b.beforeId then a.afterId < b.afterId else a.beforeId < b.beforeId
      else StringLess(a.newPath, b.newPath)
    else StringLess(a.oldPath, b.oldPath)
  }

  lemma ComparatorsAreOrders()
    ensures StrictWeakOrder(ByPath) && StrictWeakOrder(ByPathThenId)
    ensures StrictWeakOrder(ByEntryId) && StrictWeakOrder(ByRename)
  {
    StringLessIsOrder();
  }

  // ---- What the loops collect ----

  function Rename(b: FileEntry, t: FileEntry): RenamedEntry {
    RenamedEntry(b.id, t.id, b.path, t.path)
  }

  /** Entries of `es` whose id the other snapshot does not have. */
  function Unmatched(es: seq<FileEntry>, other: map<u64, FileEntry>): seq<FileEntry> {
    if es == [] then []
    else
      var e := es[|es| - 1];
      Unmatched(es[..|es| - 1], other) + (if e.id in other then [] else [e])
  }

  function SharedRenames(es: seq<FileEntry>, other: map<u64, FileEntry>): seq<RenamedEntry> {
    if es == [] then []
    else
      var e := es[|es| - 1];
      SharedRenames(es[..|es| - 1], other)
      + (if e.id in other && e.path != other[e.id].path then [Rename(e, other[e.id])] else [])
  }

  function SharedModified(es: seq<FileEntry>, other: map<u64, FileEntry>): seq<ModifiedEntry> {
    if es == [] then []
    else
      var e := es[|es| - 1];
      SharedModified(es[..|es| - 1], other)
      + (if e.id in other && (e.metadata != other[e.id].metadata || e.kind != other[e.id].kind)
         then [ModifiedEntry(other[e.id].id, e.metadata, other[e.id].metadata)] else [])
  }

  /** The indices of the entries with fingerprint `f`, in order. */
  function Positions(hash: Hash, es: seq<FileEntry>, f: Fingerprint): seq<nat> {
    if es == [] then []
    else
      Positions(hash, es[..|es| - 1], f)
      + (if MakeFingerprint(hash, es[|es| - 1]) == f then [|es| - 1] else [])
  }

  function Count(hash: Hash, es: seq<FileEntry>, f: Fingerprint): nat {
    |Positions(hash, es, f)|
  }

  /** How many entries before index `i` share its fingerprint. */
  function Rank(hash: Hash, es: seq<FileEntry>, i: nat): nat
    requires i < |es|
  {
    Count(hash, es[..i], MakeFingerprint(hash, es[i]))
  }

  /** The pairs the greedy matcher makes: the k-th removed entry of a fingerprint
      goes with the k-th added entry of that fingerprint. */
  function Pairs(hash: Hash, removed: seq<FileEntry>, added: seq<FileEntry>): seq<RenamedEntry> {
    if removed == [] then []
    else
      var n := |removed| - 1;
      var candidates := Positions(hash, added, MakeFingerprint(hash, removed[n]));
      var k := Rank(hash, removed, n);
      PositionsBounded(hash, added, MakeFingerprint(hash, removed[n]));
      Pairs(hash, removed[..n], added)
      + (if k < |candidates| then [Rename(removed[n], added[candidates[k]])] else [])
  }

  /** The entries of `xs` for which `ys` has no partner left. */
  function Leftover(hash: Hash, xs: seq<FileEntry>, ys: seq<FileEntry>): seq<FileEntry> {
    if xs == [] then []
    else
      var n := |xs| - 1;
      Leftover(hash, xs[..n], ys)
      + (if Rank(hash, xs, n) < Count(hash, ys, MakeFingerprint(hash, xs[n])) then [] else [xs[n]])
  }

  lemma {:induction false} PositionsBounded(hash: Hash, es: seq<FileEntry>, f: Fingerprint)
    ensures forall c :: 0 <= c < Count(hash, es, f) ==> Positions(hash, es, f)[c] < |es|
  {
    if es != [] { PositionsBounded(hash, es[..|es| - 1], f); }
  }

  /** Position `c` of a fingerprint is the one of rank `c`, and every index has its place. */
  lemma {:induction false} PositionsByRank(hash: Hash, es: seq<FileEntry>, f: Fingerprint)
    ensures forall c :: 0 <= c < Count(hash, es, f) ==>
      var j := Positions(hash, es, f)[c];
      j < |es| && MakeFingerprint(hash, es[j]) == f && Rank(hash, es, j) == c
    ensures forall j :: 0 <= j < |es| && MakeFingerprint(hash, es[j]) == f ==>
      Rank(hash, es, j) < Count(hash, es, f) && Positions(hash, es, f)[Rank(hash, es, j)] == j
  {
    if es != [] {
      var n := |es| - 1;
      PositionsByRank(hash, es[..n], f);
      forall j | 0 <= j < n ensures es[..n][..j] == es[..j] {}
      assert es[..n][..n] == es[..n];
    }
  }

  // ---- The delta ----

  ghost predicate SortedPermutation<T(!new)>(less: (T, T) -> bool, xs: seq<T>, of: seq<T>) {
    SortedBy(less, xs) && Permutation(xs, of)
  }

  /** `delta` is what the engine makes of the two snapshots when it meets the unmatched
      entries in the orders `removed` and `added`. */
  ghost predicate IsDeltaVia(base: Snapshot, target: Snapshot, heuristic: bool, hash: Hash,
                             removed: seq<FileEntry>, added: seq<FileEntry>, delta: DeltaSnapshot)
  {
    var baseById, targetById := IndexById(base.entries), IndexById(target.entries);
    && delta.schema == CURRENT_SCHEMA
    && delta.baseSnapshotId == base.snapshotId
    && delta.targetSnapshotId == target.snapshotId
    && Permutation(removed, Unmatched(base.entries, targetById))
    && Permutation(added, Unmatched(target.entries, baseById))
    && (heuristic ==> SortedBy(ByPath, removed) && SortedBy(ByPath, added))
    && SortedPermutation(ByPathThenId, delta.removed, if heuristic then Leftover(hash, removed, added) else removed)
    && SortedPermutation(ByPathThenId, delta.added, if heuristic then Leftover(hash, added, removed) else added)
    && SortedPermutation(ByEntryId, delta.modified, SharedModified(base.entries, targetById))
    && SortedPermutation(ByRename, delta.renamed,
         SharedRenames(base.entries, targetById) + if heuristic then Pairs(hash, removed, added) else [])
  }

  ghost predicate IsDelta(base: Snapshot, target: Snapshot, heuristic: bool, hash: Hash, delta: DeltaSnapshot) {
    exists removed, added :: IsDeltaVia(base, target, heuristic, hash, removed, added, delta)
  }

  method BuildIndex(es: seq<FileEntry>) returns (byId: map<u64, FileEntry>)
    ensures byId == IndexById(es)
  {
    byId := map[];
    for i := 0 to |es|
      invariant byId == IndexById(es[..i])
    {
      assert es[..i + 1][..i] == es[..i];
      if es[i].id !in byId {
        byId := byId[es[i].id := es[i]];
      }
    }
    assert es[..|es|] == es;
  }

  method Compute(base: Snapshot, target: Snapshot, heuristic: bool, hash: Hash) returns (delta: DeltaSnapshot)
    ensures IsDelta(base, target, heuristic, hash, delta)
  {
    var baseById := BuildIndex(base.entries);
    var targetById := BuildIndex(target.entries);
    var unmatchedRemoved, renamed, modified := CompareShared(base.entries, targetById);
    var unmatchedAdded := CollectUnmatched(target.entries, baseById);
    var removedOut, addedOut, pairs := unmatchedRemoved, unmatchedAdded, [];
    if heuristic {
      unmatchedRemoved := SortByPath(unmatchedRemoved);
      unmatchedAdded := SortByPath(unmatchedAdded);
      pairs, removedOut, addedOut := MatchRenames(hash, unmatchedRemoved, unmatchedAdded);
    }
    delta := SortDelta(DeltaSnapshot(CURRENT_SCHEMA, base.snapshotId, target.snapshotId,
                                     addedOut, removedOut, modified, renamed + pairs));
    assert IsDeltaVia(base, target, heuristic, hash, unmatchedRemoved, unmatchedAdded, delta);
  }

  method CompareShared(es: seq<FileEntry>, targetById: map<u64, FileEntry>)
    returns (unmatched: seq<FileEntry>, renamed: seq<RenamedEntry>, modified: seq<ModifiedEntry>)
    ensures unmatched == Unmatched(es, targetById)
    ensures renamed == SharedRenames(es, targetById)
    ensures modified == SharedModified(es, targetById)
  {
    unmatched, renamed, modified := [], [], [];
    for i := 0 to |es|
      invariant unmatched == Unmatched(es[..i], targetById)
      invariant renamed == SharedRenames(es[..i], targetById)
      invariant modified == SharedModified(es[..i], targetById)
    {
      var baseEntry := es[i];
      assert es[..i + 1][..i] == es[..i];
      if baseEntry.id !in targetById {
        unmatched := unmatched + [baseEntry];
        continue;
      }
      var targetEntry := targetById[baseEntry.id];
      if baseEntry.path != targetEntry.path {
        renamed := renamed + [Rename(baseEntry, targetEntry)];
      }
      if baseEntry.metadata != targetEntry.metadata || baseEntry.kind != targetEntry.kind {
        modified := modified + [ModifiedEntry(targetEntry.id, baseEntry.metadata, targetEntry.metadata)];
      }
    }
    assert es[..|es|] == es;
  }

  method CollectUnmatched(es: seq<FileEntry>, baseById: map<u64, FileEntry>) returns (unmatched: seq<FileEntry>)
    ensures unmatched == Unmatched(es, baseById)
  {
    unmatched := [];
    for i := 0 to |es|
      invariant unmatched == Unmatched(es[..i], baseById)
    {
      assert es[..i + 1][..i] == es[..i];
      if es[i].id !in baseById {
        unmatched := unmatched + [es[i]];
      }
    }
    assert es[..|es|] == es;
  }

  method SortByPath(es: seq<FileEntry>) returns (r: seq<FileEntry>)
    ensures SortedPermutation(ByPath, r, es)
  {
    ComparatorsAreOrders();
    r := Sort(ByPath, es);
  }

  /** `sort_delta`: the four lists, each under its own comparator. */
  method SortDelta(delta: DeltaSnapshot) returns (r: DeltaSnapshot)
    ensures r == delta.(added := r.added, removed := r.removed, modified := r.modified, renamed := r.renamed)
    ensures SortedPermutation(ByPathThenId, r.added, delta.added)
    ensures SortedPermutation(ByPathThenId, r.removed, delta.removed)
    ensures SortedPermutation(ByEntryId, r.modified, delta.modified)
    ensures SortedPermutation(ByRename, r.renamed, delta.renamed)
  {
    ComparatorsAreOrders();
    var added := Sort(ByPathThenId, delta.added);
    var removed := Sort(ByPathThenId, delta.removed);
    var modified := Sort(ByEntryId, delta.modified);
    var renamed := Sort(ByRename, delta.renamed);
    r := delta.(added := added, removed := removed, modified := modified, renamed := renamed);
  }

  /** After some removed entries, exactly the added entries of smaller rank are consumed. */
  ghost predicate Consumed(hash: Hash, added: seq<FileEntry>, removed: seq<FileEntry>, flags: seq<bool>) {
    && |flags| == |added|
    && forall j {:trigger flags[j]} :: 0 <= j < |added| ==>
         flags[j] == (Rank(hash, added, j) < Count(hash, removed, MakeFingerprint(hash, added[j])))
  }

  /** The first candidate of the bucket that is not consumed is the one whose rank
      is the number of removed entries seen so far. */
  method FirstUnconsumed(candidates: seq<nat>, consumed: array<bool>) returns (c: nat)
    requires forall d :: 0 <= d < |candidates| ==> candidates[d] < consumed.Length
    ensures c <= |candidates|
    ensures forall d :: 0 <= d < c ==> consumed[candidates[d]]
    ensures c < |candidates| ==> !consumed[candidates[c]]
  {
    c := 0;
    while c < |candidates| && consumed[candidates[c]]
      invariant 0 <= c <= |candidates|
      invariant forall d :: 0 <= d < c ==> consumed[candidates[d]]
    {
      c := c + 1;
    }
  }

  lemma ConsumedStep(hash: Hash, added: seq<FileEntry>, removed: seq<FileEntry>, flags: seq<bool>,
                     r: FileEntry, c: nat, candidates: seq<nat>)
    requires Consumed(hash, added, removed, flags)
    requires candidates == Positions(hash, added, MakeFingerprint(hash, r))
    requires c <= |candidates|
    requires forall d :: 0 <= d < |candidates| ==> candidates[d] < |flags|
    requires forall d :: 0 <= d < c ==> flags[candidates[d]]
    requires c < |candidates| ==> !flags[candidates[c]]
    ensures c < |candidates| ==> c == Count(hash, removed, MakeFingerprint(hash, r))
    ensures c == |candidates| ==> c <= Count(hash, removed, MakeFingerprint(hash, r))
    ensures Consumed(hash, added, removed + [r],
                     if c < |candidates| then flags[candidates[c] := true] else flags)
  {
    var f := MakeFingerprint(hash, r);
    PositionsByRank(hash, added, f);
    assert (removed + [r])[..|removed|] == removed;
    assert c > 0 ==> flags[candidates[c - 1]] && Rank(hash, added, candidates[c - 1]) == c - 1;
    if c < |candidates| {
      assert Rank(hash, added, candidates[c]) == c;
    }
    var flags' := if c < |candidates| then flags[candidates[c] := true] else flags;
    forall j | 0 <= j < |added|
      ensures flags'[j] == (Rank(hash, added, j) < Count(hash, removed + [r], MakeFingerprint(hash, added[j])))
    {
      hide Rank, MakeFingerprint, Positions;
      CountStep(hash, removed, r, MakeFingerprint(hash, added[j]));
      assert flags[j] == (Rank(hash, added, j) < Count(hash, removed, MakeFingerprint(hash, added[j])));
      if MakeFingerprint(hash, added[j]) == f {
        assert candidates[Rank(hash, added, j)] == j;
      }
    }
  }

  lemma CountStep(hash: Hash, es: seq<FileEntry>, e: FileEntry, f: Fingerprint)
    ensures Count(hash, es + [e], f) == Count(hash, es, f) + if MakeFingerprint(hash, e) == f then 1 else 0
  {
    assert (es + [e])[..|es|] == es;
  }

  /** After `i` removed entries, exactly those of the first `i` that found a partner are flagged. */
  ghost predicate Paired(hash: Hash, added: seq<FileEntry>, removed: seq<FileEntry>, i: nat, flags: seq<bool>) {
    && |flags| == |removed|
    && forall k {:trigger flags[k]} :: 0 <= k < |removed| ==>
         flags[k] == (k < i && Rank(hash, removed, k) < Count(hash, added, MakeFingerprint(hash, removed[k])))
  }

  /** The rename heuristic: buckets of added indices by fingerprint, and for each removed
      entry the first candidate not yet consumed. */
  method MatchRenames(hash: Hash, removed: seq<FileEntry>, added: seq<FileEntry>)
    returns (pairs: seq<RenamedEntry>, removedOut: seq<FileEntry>, addedOut: seq<FileEntry>)
    ensures pairs == Pairs(hash, removed, added)
    ensures removedOut == Leftover(hash, removed, added)
    ensures addedOut == Leftover(hash, added, removed)
  {
    var buckets := BuildBuckets(hash, added);
    var consumedAdded := new bool[|added|](_ => false);
    var consumedRemoved := new bool[|removed|](_ => false);
    pairs := [];
    for i := 0 to |removed|
      invariant pairs == Pairs(hash, removed[..i], added)
      invariant Consumed(hash, added, removed[..i], consumedAdded[..])
      invariant Paired(hash, added, removed, i, consumedRemoved[..])
    {
      var more := MatchOne(hash, removed, added, i, buckets, consumedAdded, consumedRemoved);
      pairs := pairs + more;
    }
    assert removed[..|removed|] == removed;
    removedOut := KeepUnconsumed(hash, removed, added, consumedRemoved);
    addedOut := KeepUnconsumed(hash, added, removed, consumedAdded);
  }

  /** One turn of the matching loop. */
  method MatchOne(hash: Hash, removed: seq<FileEntry>, added: seq<FileEntry>, i: nat,
                  buckets: map<Fingerprint, seq<nat>>, consumedAdded: array<bool>, consumedRemoved: array<bool>)
    returns (pair: seq<RenamedEntry>)
    requires i < |removed| && consumedAdded != consumedRemoved
    requires forall f :: f in buckets ==> buckets[f] == Positions(hash, added, f)
    requires forall f :: f !in buckets ==> Positions(hash, added, f) == []
    requires Consumed(hash, added, removed[..i], consumedAdded[..])
    requires Paired(hash, added, removed, i, consumedRemoved[..])
    modifies consumedAdded, consumedRemoved
    ensures Consumed(hash, added, removed[..i + 1], consumedAdded[..])
    ensures Paired(hash, added, removed, i + 1, consumedRemoved[..])
    ensures Pairs(hash, removed[..i], added) + pair == Pairs(hash, removed[..i + 1], added)
  {
    hide Consumed, Paired, Pairs, Positions, Rank, Count, MakeFingerprint;
    var f := MakeFingerprint(hash, removed[i]);
    var candidates := if f in buckets then buckets[f] else [];
    ghost var flags, paired := consumedAdded[..], consumedRemoved[..];
    FlagsFit(hash, added, removed, i, flags, paired);
    RankIsCount(hash, removed, added, i);
    PositionsBounded(hash, added, f);
    var c := FirstUnconsumed(candidates, consumedAdded);
    ConsumedStep(hash, added, removed[..i], flags, removed[i], c, candidates);
    assert removed[..i + 1] == removed[..i] + [removed[i]];
    PairsTurn(hash, removed, added, i);
    PairedTurn(hash, removed, added, i, paired);
    NotPairedYet(hash, removed, added, i, paired);
    if c < |candidates| {
      consumedRemoved[i] := true;
      consumedAdded[candidates[c]] := true;
      pair := [Rename(removed[i], added[candidates[c]])];
      assert consumedAdded[..] == flags[candidates[c] := true];
      assert consumedRemoved[..] == paired[i := true];
    } else {
      pair := [];
    }
  }

  lemma FlagsFit(hash: Hash, added: seq<FileEntry>, removed: seq<FileEntry>, i: nat, flags: seq<bool>, paired: seq<bool>)
    requires i <= |removed| && Consumed(hash, added, removed[..i], flags) && Paired(hash, added, removed, i, paired)
    ensures |flags| == |added| && |paired| == |removed|
  {}

  lemma RankIsCount(hash: Hash, removed: seq<FileEntry>, added: seq<FileEntry>, i: nat)
    requires i < |removed|
    ensures var f := MakeFingerprint(hash, removed[i]);
      |Positions(hash, added, f)| == Count(hash, added, f) && Rank(hash, removed, i) == Count(hash, removed[..i], f)
  {}

  /** The next removed entry takes the candidate of its own rank. */
  lemma PairsTurn(hash: Hash, removed: seq<FileEntry>, added: seq<FileEntry>, i: nat)
    requires i < |removed|
    ensures var candidates, k := Positions(hash, added, MakeFingerprint(hash, removed[i])), Rank(hash, removed, i);
      && (k < |candidates| ==> candidates[k] < |added|)
      && Pairs(hash, removed[..i + 1], added) == Pairs(hash, removed[..i], added)
        + if k < |candidates| then [Rename(removed[i], added[candidates[k]])] else []
  {
    hide Positions, MakeFingerprint;
    PositionsBounded(hash, added, MakeFingerprint(hash, removed[i]));
    assert removed[..i + 1][..i] == removed[..i];
  }

  lemma PairedTurn(hash: Hash, removed: seq<FileEntry>, added: seq<FileEntry>, i: nat, paired: seq<bool>)
    requires i < |removed| && Paired(hash, added, removed, i, paired)
    ensures |paired| == |removed|
    ensures Paired(hash, added, removed, i + 1,
      paired[i := Rank(hash, removed, i) < Count(hash, added, MakeFingerprint(hash, removed[i]))])
  {
    hide Count, MakeFingerprint;
  }

  lemma NotPairedYet(hash: Hash, removed: seq<FileEntry>, added: seq<FileEntry>, i: nat, paired: seq<bool>)
    requires i < |removed| && Paired(hash, added, removed, i, paired)
    ensures |paired| == |removed| && !paired[i] && paired[i := false] == paired
  {
    hide Count, MakeFingerprint;
  }

  method BuildBuckets(hash: Hash, added: seq<FileEntry>) returns (buckets: map<Fingerprint, seq<nat>>)
    ensures forall f :: f in buckets ==> buckets[f] == Positions(hash, added, f)
    ensures forall f :: f !in buckets ==> Positions(hash, added, f) == []
  {
    buckets := map[];
    for i := 0 to |added|
      invariant forall f :: f in buckets ==> buckets[f] == Positions(hash, added[..i], f)
      invariant forall f :: f !in buckets ==> Positions(hash, added[..i], f) == []
    {
      assert added[..i + 1][..i] == added[..i];
      var f := MakeFingerprint(hash, added[i]);
      buckets := buckets[f := (if f in buckets then buckets[f] else []) + [i]];
    }
    assert added[..|added|] == added;
  }

  method KeepUnconsumed(hash: Hash, xs: seq<FileEntry>, ghost ys: seq<FileEntry>, consumed: array<bool>)
    returns (out: seq<FileEntry>)
    requires consumed.Length == |xs|
    requires forall k :: 0 <= k < |xs| ==>
      consumed[..][k] == (Rank(hash, xs, k) < Count(hash, ys, MakeFingerprint(hash, xs[k])))
    ensures out == Leftover(hash, xs, ys)
  {
    out := [];
    for i := 0 to |xs|
      invariant out == Leftover(hash, xs[..i], ys)
    {
      assert xs[..i + 1][..i] == xs[..i] && consumed[..][i] == consumed[i];
      if !consumed[i] {
        out := out + [xs[i]];
      }
    }
    assert xs[..|xs|] == xs;
  }

  // ---- Inversion ----

  function Swap(m: ModifiedEntry): ModifiedEntry {
    ModifiedEntry(m.entryId, m.after, m.before)
  }

  function Reverse(r: RenamedEntry): RenamedEntry {
    RenamedEntry(r.afterId, r.beforeId, r.newPath, r.oldPath)
  }

  function SwapAll(ms: seq<ModifiedEntry>): (r: seq<ModifiedEntry>)
    ensures |r| == |ms| && forall i :: 0 <= i < |ms| ==> r[i] == Swap(ms[i])
  {
    seq(|ms|, i requires 0 <= i < |ms| => Swap(ms[i]))
  }

  function ReverseAll(rs: seq<RenamedEntry>): (r: seq<RenamedEntry>)
    ensures |r| == |rs| && forall i :: 0 <= i < |rs| ==> r[i] == Reverse(rs[i])
  {
    seq(|rs|, i requires 0 <= i < |rs| => Reverse(rs[i]))
  }

  ghost predicate IsInverse(delta: DeltaSnapshot, inverse: DeltaSnapshot) {
    && inverse.schema == delta.schema
    && inverse.baseSnapshotId == delta.targetSnapshotId
    && inverse.targetSnapshotId == delta.baseSnapshotId
    && SortedPermutation(ByPathThenId, inverse.added, delta.removed)
    && SortedPermutation(ByPathThenId, inverse.removed, delta.added)
    && SortedPermutation(ByEntryId, inverse.modified, SwapAll(delta.modified))
    && SortedPermutation(ByRename, inverse.renamed, ReverseAll(delta.renamed))
  }

  method Invert(delta: DeltaSnapshot) returns (inverse: DeltaSnapshot)
    ensures IsInverse(delta, inverse)
  {
    var added, removed: seq<FileEntry> := [], [];
    var modified: seq<ModifiedEntry>, renamed: seq<RenamedEntry> := [], [];
    for i := 0 to |delta.removed| invariant added == delta.removed[..i] {
      added := added + [delta.removed[i]];
    }
    for i := 0 to |delta.added| invariant removed == delta.added[..i] {
      removed := removed + [delta.added[i]];
    }
    for i := 0 to |delta.modified| invariant modified == SwapAll(delta.modified)[..i] {
      modified := modified + [Swap(delta.modified[i])];
    }
    for i := 0 to |delta.renamed| invariant renamed == ReverseAll(delta.renamed)[..i] {
      renamed := renamed + [Reverse(delta.renamed[i])];
    }
    assert added == delta.removed && removed == delta.added;
    assert modified == SwapAll(delta.modified) && renamed == ReverseAll(delta.renamed);
    inverse := SortDelta(DeltaSnapshot(delta.schema, delta.targetSnapshotId, delta.baseSnapshotId,
                                       added, removed, modified, renamed));
  }
}
