/** Snapshot retention and deletion in the store, with the deltas that go along. */
module Retention {
  import opened Cursor
  import opened Domain
  import opened Sorting
  import Outbox

  type DeltaKey = (u64, u64)

  /** The snapshot table and the delta table, the latter keyed by base and target id. */
  datatype State = State(snapshots: map<u64, Snapshot>, deltas: map<DeltaKey, DeltaSnapshot>)

  datatype Item = Item(snapshotId: u64, createdAt: i64)

  /** Later snapshots come first; of two with the same time, the greater id. */
  predicate Newer(a: Item, b: Item) {
    if a.createdAt == b.createdAt then a.snapshotId > b.snapshotId else a.createdAt > b.createdAt
  }

  lemma NewerIsOrder()
    ensures StrictWeakOrder(Newer)
  {}

  // ---- What retention means ----

  function ItemOf(snapshots: map<u64, Snapshot>, id: u64): Item
    requires id in snapshots
  {
    Item(id, snapshots[id].createdAt)
  }

  function NewerThan(snapshots: map<u64, Snapshot>, id: u64): set<u64>
    requires id in snapshots
  {
    set j | j in snapshots && Newer(ItemOf(snapshots, j), ItemOf(snapshots, id))
  }

  /** The `keep` greatest snapshots under time and id: fewer than `keep` are newer. */
  function Kept(snapshots: map<u64, Snapshot>, keep: nat): set<u64> {
    set id | id in snapshots && |NewerThan(snapshots, id)| < keep
  }

  function Restrict(s: State, ids: set<u64>): State {
    State(
      map id | id in s.snapshots && id in ids :: s.snapshots[id],
      map d | d in s.deltas && d.0 in ids && d.1 in ids :: s.deltas[d])
  }

  function Retain(s: State, keep: nat): State {
    if |s.snapshots| <= keep then s else Restrict(s, Kept(s.snapshots, keep))
  }

  /** A deleted snapshot takes the deltas from it and to it along. */
  function Delete(s: State, id: u64): State {
    State(s.snapshots - {id}, map d | d in s.deltas && d.0 != id && d.1 != id :: s.deltas[d])
  }

  function PutSnapshot(s: State, snapshot: Snapshot): State {
    s.(snapshots := s.snapshots[snapshot.snapshotId := snapshot])
  }

  function PutSnapshotAndDelta(s: State, snapshot: Snapshot, delta: DeltaSnapshot): State {
    State(
      s.snapshots[snapshot.snapshotId := snapshot],
      s.deltas[(delta.baseSnapshotId, delta.targetSnapshotId) := delta])
  }

  /** What is put is found under its own key, and everything under other keys stays. */
  lemma PutIs(s: State, snapshot: Snapshot, delta: DeltaSnapshot)
    ensures var r, id, key := PutSnapshotAndDelta(s, snapshot, delta), snapshot.snapshotId, (delta.baseSnapshotId, delta.targetSnapshotId);
      && id in r.snapshots && r.snapshots[id] == snapshot && r.snapshots - {id} == s.snapshots - {id}
      && key in r.deltas && r.deltas[key] == delta && r.deltas - {key} == s.deltas - {key}
    ensures PutSnapshot(s, snapshot).snapshots == PutSnapshotAndDelta(s, snapshot, delta).snapshots
    ensures PutSnapshot(s, snapshot).deltas == s.deltas
  {}

  // ---- Ranks in the sorted list ----

  ghost predicate Lists(snapshots: map<u64, Snapshot>, items: seq<Item>) {
    && (forall i :: 0 <= i < |items| ==> items[i].snapshotId in snapshots && items[i] == ItemOf(snapshots, items[i].snapshotId))
    && (forall i, j :: 0 <= i < j < |items| ==> items[i].snapshotId != items[j].snapshotId)
    && (forall id :: id in snapshots ==> ItemOf(snapshots, id) in items)
  }

  function ItemIds(items: seq<Item>): (r: set<u64>)
    ensures forall i :: 0 <= i < |items| ==> items[i].snapshotId in r
    ensures forall id :: id in r ==> exists i :: 0 <= i < |items| && items[i].snapshotId == id
  {
    set i | 0 <= i < |items| :: items[i].snapshotId
  }

  lemma {:induction false} ItemIdsCount(items: seq<Item>)
    requires forall i, j :: 0 <= i < j < |items| ==> items[i].snapshotId != items[j].snapshotId
    ensures |ItemIds(items)| == |items|
  {
    if items != [] {
      var n := |items| - 1;
      ItemIdsCount(items[..n]);
      assert items[n].snapshotId !in ItemIds(items[..n]);
      assert ItemIds(items) == ItemIds(items[..n]) + {items[n].snapshotId};
    }
  }

  /** In the sorted list, exactly the items before an item are newer. */
  lemma RankIsIndex(snapshots: map<u64, Snapshot>, items: seq<Item>, i: nat)
    requires Lists(snapshots, items) && SortedBy(Newer, items) && i < |items|
    ensures NewerThan(snapshots, items[i].snapshotId) == ItemIds(items[..i])
    ensures |NewerThan(snapshots, items[i].snapshotId)| == i
  {
    var less := Newer;
    assert SortedBy(less, items);
    forall j | 0 <= j < |items|
      ensures Newer(items[j], items[i]) <==> j < i
    {
      if j < i { assert !less(items[i], items[j]); }
      if i < j { assert !less(items[j], items[i]); }
    }
    forall id ensures id in NewerThan(snapshots, items[i].snapshotId) <==> id in ItemIds(items[..i]) {
      if id in snapshots {
        var j :| 0 <= j < |items| && items[j] == ItemOf(snapshots, id);
        if j < i { assert items[..i][j] == items[j]; }
      }
      if id in ItemIds(items[..i]) {
        var j :| 0 <= j < i && items[..i][j].snapshotId == id;
      }
    }
    ItemIdsCount(items[..i]);
  }

  lemma ListedCount(snapshots: map<u64, Snapshot>, items: seq<Item>)
    requires Lists(snapshots, items)
    ensures |items| == |snapshots|
  {
    ItemIdsCount(items);
    forall id ensures id in ItemIds(items) <==> id in snapshots.Keys {
      if id in snapshots { assert ItemOf(snapshots, id) in items; }
    }
    assert ItemIds(items) == snapshots.Keys;
  }

  /** The first `keep` items of the sorted list are the kept ones. */
  lemma FirstAreKept(snapshots: map<u64, Snapshot>, items: seq<Item>, keep: nat)
    requires Lists(snapshots, items) && SortedBy(Newer, items) && keep <= |items|
    ensures Kept(snapshots, keep) == ItemIds(items[..keep]) && |Kept(snapshots, keep)| == keep
  {
    forall id ensures id in Kept(snapshots, keep) <==> id in ItemIds(items[..keep]) {
      if id in snapshots {
        var j :| 0 <= j < |items| && items[j] == ItemOf(snapshots, id);
        RankIsIndex(snapshots, items, j);
        if j < keep { assert items[..keep][j] == items[j]; }
      }
      if id in ItemIds(items[..keep]) {
        var j :| 0 <= j < keep && items[..keep][j].snapshotId == id;
        RankIsIndex(snapshots, items, j);
      }
    }
    ItemIdsCount(items[..keep]);
  }

  lemma ListsPermuted(snapshots: map<u64, Snapshot>, items: seq<Item>, sorted: seq<Item>)
    requires Lists(snapshots, items) && Permutation(sorted, items)
    ensures Lists(snapshots, sorted)
  {
    PermutationMembers(sorted, items);
    forall i, j | 0 <= i < j < |items| ensures items[i] != items[j] {}
    PermutationDistinct(sorted, items);
    forall i | 0 <= i < |sorted|
      ensures sorted[i].snapshotId in snapshots && sorted[i] == ItemOf(snapshots, sorted[i].snapshotId)
    {
      assert sorted[i] in items;
    }
  }

  // ---- The store ----

  class SnapshotStore {
    var snapshots: map<u64, Snapshot>
    var deltas: map<DeltaKey, DeltaSnapshot>

    ghost function Value(): State
      reads this
    {
      State(snapshots, deltas)
    }

    constructor ()
      ensures Value() == State(map[], map[])
    {
      snapshots, deltas := map[], map[];
    }

    method StoreSnapshot(snapshot: Snapshot)
      modifies this
      ensures Value() == PutSnapshot(old(Value()), snapshot)
    {
      snapshots := snapshots[snapshot.snapshotId := snapshot];
    }

    method StoreSnapshotAndDelta(snapshot: Snapshot, delta: DeltaSnapshot)
      modifies this
      ensures Value() == PutSnapshotAndDelta(old(Value()), snapshot, delta)
    {
      snapshots := snapshots[snapshot.snapshotId := snapshot];
      deltas := deltas[(delta.baseSnapshotId, delta.targetSnapshotId) := delta];
    }

    method DeleteSnapshot(id: u64) returns (code: Outbox.StoreCode, snapshotsRemoved: nat, deltasRemoved: nat)
      modifies this
      ensures code == if id == 0 then Outbox.InvalidArgument else if id !in old(snapshots) then Outbox.NotFound else Outbox.Success
      ensures Value() == if code == Outbox.Success then Delete(old(Value()), id) else old(Value())
      ensures snapshotsRemoved == |old(snapshots)| - |snapshots| && deltasRemoved == |old(deltas)| - |deltas|
    {
      snapshotsRemoved, deltasRemoved := 0, 0;
      if id == 0 {
        return Outbox.InvalidArgument, 0, 0;
      }
      if id !in snapshots {
        return Outbox.NotFound, 0, 0;
      }
      SizeWithout(snapshots, id);
      snapshots := snapshots - {id};
      deltasRemoved := DropDeltas((d: DeltaKey) => d.0 != id && d.1 != id);
      snapshotsRemoved := 1;
      code := Outbox.Success;
    }

    /** The cursor loop over the delta table; the order of the keys does not matter to it. */
    method DropDeltas(keep: DeltaKey -> bool) returns (removed: nat)
      modifies this`deltas
      ensures deltas == map d | d in old(deltas) && keep(d) :: old(deltas)[d]
      ensures removed == |old(deltas)| - |deltas|
    {
      removed := 0;
      var todo := deltas.Keys;
      while todo != {}
        invariant todo <= deltas.Keys <= old(deltas.Keys)
        invariant forall d :: d in deltas ==> deltas[d] == old(deltas)[d]
        invariant forall d :: d in old(deltas) ==> (d in deltas <==> d in todo || keep(d))
        invariant removed == |old(deltas)| - |deltas|
        decreases todo
      {
        var d :| d in todo;
        todo := todo - {d};
        if !keep(d) {
          SizeWithout(deltas, d);
          deltas := deltas - {d};
          removed := removed + 1;
        }
      }
    }

    method ListSnapshots() returns (items: seq<Item>)
      ensures Lists(snapshots, items)
    {
      items := [];
      var cursor := SetRange(snapshots.Keys, 0);
      ghost var from: nat := 0;
      while cursor.Some?
        invariant from <= 0x1_0000_0000_0000_0000 && cursor == SetRange(snapshots.Keys, from)
        invariant forall i :: 0 <= i < |items| ==> ListedBelow(snapshots, items[i], from)
        invariant forall i, j :: 0 <= i < j < |items| ==> items[i].snapshotId < items[j].snapshotId
        invariant forall id :: id in snapshots && id < from ==> ItemOf(snapshots, id) in items
        decreases 0x1_0000_0000_0000_0000 - from
      {
        var id := cursor.value;
        items := items + [Item(id, snapshots[id].createdAt)];
        from := id as nat + 1;
        cursor := Next(snapshots.Keys, id);
      }
    }

    method ApplySnapshotRetention(keep: nat) returns (snapshotsRemoved: nat, deltasRemoved: nat)
      modifies this
      ensures Value() == Retain(old(Value()), keep)
      ensures snapshotsRemoved == |old(snapshots)| - |snapshots| && deltasRemoved == |old(deltas)| - |deltas|
    {
      hide Lists, Kept, SortedBy, Permutation, StrictWeakOrder, ItemIds, Restrict;
      var items := ListSnapshots();
      ListedCount(snapshots, items);
      if |items| <= keep {
        return 0, 0;
      }
      NewerIsOrder();
      var sorted := Sort(Newer, items);
      ListsPermuted(snapshots, items, sorted);
      ListedCount(snapshots, sorted);
      FirstAreKept(snapshots, sorted, keep);
      var retained := FirstIds(sorted, keep);
      snapshotsRemoved, deltasRemoved := Prune(retained);
    }

    /** The two delete loops. */
    method Prune(retained: set<u64>) returns (snapshotsRemoved: nat, deltasRemoved: nat)
      modifies this
      ensures Value() == Restrict(old(Value()), retained)
      ensures snapshotsRemoved == |old(snapshots)| - |snapshots| && deltasRemoved == |old(deltas)| - |deltas|
    {
      snapshotsRemoved := DropSnapshots(retained);
      deltasRemoved := DropDeltas((d: DeltaKey) => d.0 in retained && d.1 in retained);
    }

    method FirstIds(items: seq<Item>, keep: nat) returns (retained: set<u64>)
      requires keep <= |items|
      ensures retained == ItemIds(items[..keep])
    {
      retained := {};
      for i := 0 to keep
        invariant retained == ItemIds(items[..i])
      {
        assert ItemIds(items[..i + 1]) == ItemIds(items[..i]) + {items[i].snapshotId};
        retained := retained + {items[i].snapshotId};
      }
    }

    method DropSnapshots(retained: set<u64>) returns (removed: nat)
      modifies this`snapshots
      ensures snapshots == map id | id in old(snapshots) && id in retained :: old(snapshots)[id]
      ensures removed == |old(snapshots)| - |snapshots|
    {
      removed := 0;
      var cursor := SetRange(snapshots.Keys, 0);
      ghost var from: nat := 0;
      while cursor.Some?
        invariant from <= 0x1_0000_0000_0000_0000 && cursor == SetRange(snapshots.Keys, from)
        invariant snapshots.Keys <= old(snapshots.Keys)
        invariant forall id :: id in snapshots ==> snapshots[id] == old(snapshots)[id]
        invariant forall id :: id in old(snapshots) ==> (id in snapshots <==> from <= id || id in retained)
        invariant removed == |old(snapshots)| - |snapshots|
        decreases 0x1_0000_0000_0000_0000 - from
      {
        var id := cursor.value;
        if id !in retained {
          SizeWithout(snapshots, id);
          snapshots := snapshots - {id};
          removed := removed + 1;
        }
        from := id as nat + 1;
        cursor := Next(snapshots.Keys, id);
      }
    }
  }

  ghost predicate ListedBelow(snapshots: map<u64, Snapshot>, item: Item, from: nat) {
    item.snapshotId in snapshots && item == ItemOf(snapshots, item.snapshotId) && item.snapshotId < from
  }

  lemma SizeWithout<K, V>(m: map<K, V>, k: K)
    requires k in m
    ensures |m - {k}| == |m| - 1
  {
    assert (m - {k}).Keys == m.Keys - {k};
    assert |(m - {k}).Keys| == |m - {k}| && |m.Keys| == |m|;
  }

  // ---- Laws of retention ----

  /** Some sorted listing of the snapshots, for use in proofs. */
  lemma {:induction false} SomeListing(snapshots: map<u64, Snapshot>) returns (items: seq<Item>)
    ensures Lists(snapshots, items) && SortedBy(Newer, items)
    decreases |snapshots|
  {
    if snapshots == map[] {
      items := [];
    } else {
      var oldest := Oldest(snapshots);
      SizeWithout(snapshots, oldest);
      var fewer := snapshots - {oldest};
      var rest := SomeListing(fewer);
      items := rest + [ItemOf(snapshots, oldest)];
      ListsAppend(snapshots, oldest, rest);
      forall i | 0 <= i < |rest| ensures !Newer(items[|rest|], rest[i]) {
        ListedNewer(snapshots, oldest, rest, i);
        NewerAsymmetric(rest[i], items[|rest|]);
      }
      hide Newer, Lists;
      var less := Newer;
      SortedAppend(less, rest, items[|rest|]);
    }
  }

  lemma NewerAsymmetric(a: Item, b: Item)
    requires Newer(a, b)
    ensures !Newer(b, a)
  {}

  lemma ListedNewer(snapshots: map<u64, Snapshot>, oldest: u64, rest: seq<Item>, i: nat)
    requires oldest in snapshots && Lists(snapshots - {oldest}, rest) && i < |rest|
    requires forall j :: j in snapshots && j != oldest ==> Newer(ItemOf(snapshots, j), ItemOf(snapshots, oldest))
    ensures Newer(rest[i], ItemOf(snapshots, oldest))
  {
    hide Newer;
    assert rest[i].snapshotId in snapshots - {oldest} && rest[i] == ItemOf(snapshots, rest[i].snapshotId);
  }

  lemma ListsAppend(snapshots: map<u64, Snapshot>, oldest: u64, rest: seq<Item>)
    requires oldest in snapshots && Lists(snapshots - {oldest}, rest)
    ensures Lists(snapshots, rest + [ItemOf(snapshots, oldest)])
  {
    var items := rest + [ItemOf(snapshots, oldest)];
    forall id | id in snapshots ensures ItemOf(snapshots, id) in items {
      if id == oldest { assert items[|rest|] == ItemOf(snapshots, id); } else { assert ItemOf(snapshots - {oldest}, id) in rest; }
    }
  }

  lemma {:induction false} Oldest(snapshots: map<u64, Snapshot>) returns (id: u64)
    requires snapshots != map[]
    ensures id in snapshots && forall j :: j in snapshots && j != id ==> Newer(ItemOf(snapshots, j), ItemOf(snapshots, id))
    decreases |snapshots|
  {
    var x :| x in snapshots;
    SizeWithout(snapshots, x);
    var rest := snapshots - {x};
    if rest == map[] {
      assert forall j :: j in snapshots && j != x ==> j in rest;
      id := x;
    } else {
      var y := Oldest(rest);
      id := if Newer(ItemOf(snapshots, x), ItemOf(snapshots, y)) then y else x;
      forall j | j in snapshots && j != id ensures Newer(ItemOf(snapshots, j), ItemOf(snapshots, id)) {
        if j != x && j != y { assert j in rest && Newer(ItemOf(rest, j), ItemOf(rest, y)); }
      }
    }
  }

  /** Main result: `min(keep, all)` snapshots survive, and none that goes is newer than one that stays. */
  lemma RetainKeepsNewest(s: State, keep: nat)
    ensures |Retain(s, keep).snapshots| == if |s.snapshots| <= keep then |s.snapshots| else keep
    ensures forall stays, goes :: stays in Retain(s, keep).snapshots && goes in s.snapshots && goes !in Retain(s, keep).snapshots ==>
      Newer(ItemOf(s.snapshots, stays), ItemOf(s.snapshots, goes))
  {
    if |s.snapshots| > keep {
      var items := SomeListing(s.snapshots);
      ListedCount(s.snapshots, items);
      FirstAreKept(s.snapshots, items, keep);
      var kept := Kept(s.snapshots, keep);
      assert Retain(s, keep).snapshots.Keys == kept;
      forall stays, goes | stays in kept && goes in s.snapshots && goes !in kept
        ensures Newer(ItemOf(s.snapshots, stays), ItemOf(s.snapshots, goes))
      {
        if !Newer(ItemOf(s.snapshots, stays), ItemOf(s.snapshots, goes)) {
          NewerIsNested(s.snapshots, goes, stays);
        }
      }
    }
  }

  /** Main result, on the fields: what a retention deletes was created before everything it keeps, or at
      the same time under a smaller id; and of the deltas it keeps exactly those between kept snapshots. */
  lemma RetainKeepsLatest(s: State, keep: nat)
    ensures var s' := Retain(s, keep);
      && (forall id :: id in s'.snapshots ==> id in s.snapshots && s'.snapshots[id] == s.snapshots[id])
      && (forall stays, goes :: stays in s'.snapshots && goes in s.snapshots && goes !in s'.snapshots ==>
            || s.snapshots[goes].createdAt < s.snapshots[stays].createdAt
            || (s.snapshots[goes].createdAt == s.snapshots[stays].createdAt && goes < stays))
    ensures var s' := Retain(s, keep); |s.snapshots| > keep ==>
      forall d :: d in s'.deltas <==> d in s.deltas && d.0 in s'.snapshots && d.1 in s'.snapshots
    ensures forall d :: d in Retain(s, keep).deltas ==> d in s.deltas && Retain(s, keep).deltas[d] == s.deltas[d]
  {
    hide Kept;
    RetainKeepsNewest(s, keep);
    KeptAreStored(s.snapshots, keep);
  }

  lemma KeptAreStored(snapshots: map<u64, Snapshot>, keep: nat)
    ensures forall id :: id in Kept(snapshots, keep) ==> id in snapshots
  {}

  /** A deletion takes the snapshot and the deltas that start or end there, and nothing else. */
  lemma DeleteExactly(s: State, id: u64)
    ensures var s' := Delete(s, id);
      && (forall k :: k in s'.snapshots <==> k in s.snapshots && k != id)
      && (forall k :: k in s'.snapshots ==> s'.snapshots[k] == s.snapshots[k])
      && (forall d :: d in s'.deltas <==> d in s.deltas && d.0 != id && d.1 != id)
      && (forall d :: d in s'.deltas ==> s'.deltas[d] == s.deltas[d])
  {}

  lemma NewerIsNested(snapshots: map<u64, Snapshot>, newer: u64, older: u64)
    requires newer in snapshots && older in snapshots
    requires Newer(ItemOf(snapshots, newer), ItemOf(snapshots, older)) || newer == older
    ensures NewerThan(snapshots, newer) <= NewerThan(snapshots, older)
    ensures |NewerThan(snapshots, newer)| <= |NewerThan(snapshots, older)|
  {
    SubsetCount(NewerThan(snapshots, newer), NewerThan(snapshots, older));
  }

  lemma {:induction false} SubsetCount<T>(a: set<T>, b: set<T>)
    requires a <= b
    ensures |a| <= |b|
  {
    if a != {} {
      var x :| x in a;
      SubsetCount(a - {x}, b - {x});
    }
  }

  /** Restricted to what is kept, the ranks stay the same. */
  lemma KeptOfKept(snapshots: map<u64, Snapshot>, kept: map<u64, Snapshot>, k1: nat, k2: nat)
    requires k2 <= k1 && kept == map id | id in snapshots && id in Kept(snapshots, k1) :: snapshots[id]
    ensures Kept(kept, k2) == Kept(snapshots, k2)
  {
    forall id | id in kept ensures NewerThan(kept, id) == NewerThan(snapshots, id) {
      forall j | j in NewerThan(snapshots, id) ensures j in kept { NewerIsNested(snapshots, j, id); }
      assert forall j :: j in kept ==> ItemOf(kept, j) == ItemOf(snapshots, j);
    }
  }

  lemma KeptAll(s: State, keep: nat)
    requires |s.snapshots| > keep
    ensures |Kept(s.snapshots, keep)| == keep
  {
    var items := SomeListing(s.snapshots);
    ListedCount(s.snapshots, items);
    FirstAreKept(s.snapshots, items, keep);
  }

  /** Main result: retaining `k1` and then fewer is retaining fewer. */
  lemma RetainTwice(s: State, k1: nat, k2: nat)
    requires k2 <= k1
    ensures Retain(Retain(s, k1), k2) == Retain(s, k2)
  {
    if |s.snapshots| > k1 {
      var s1 := Retain(s, k1);
      KeptAll(s, k1);
      assert s1.snapshots.Keys == Kept(s.snapshots, k1);
      assert |s1.snapshots| == k1;
      if k2 < k1 {
        KeptOfKept(s.snapshots, s1.snapshots, k1, k2);
        forall id | id in Kept(s.snapshots, k2) ensures id in Kept(s.snapshots, k1) {}
        assert Retain(s1, k2).snapshots == Retain(s, k2).snapshots;
        assert Retain(s1, k2).deltas == Retain(s, k2).deltas;
      }
    }
  }

  // ---- Every delta's endpoints are stored ----

  ghost predicate Closed(s: State) {
    forall d :: d in s.deltas ==> d.0 in s.snapshots && d.1 in s.snapshots
  }

  /** One step of the store's clients, each atomic: an update reads its base in the same step. */
  ghost predicate AtomicStep(s: State, s': State) {
    || (exists snapshot :: s' == PutSnapshot(s, snapshot))
    || (exists snapshot: Snapshot, delta: DeltaSnapshot :: (
          delta.targetSnapshotId == snapshot.snapshotId && delta.baseSnapshotId in s.snapshots
          && s' == PutSnapshotAndDelta(s, snapshot, delta)))
    || (exists keep :: s' == Retain(s, keep))
    || (exists id :: s' == Delete(s, id))
  }

  lemma AtomicStepKeepsClosed(s: State, s': State)
    requires Closed(s) && AtomicStep(s, s')
    ensures Closed(s')
  {
    hide Kept;
  }

  /** Main result: with atomic steps, in every run every delta's endpoints are stored. */
  lemma {:induction false} RunKeepsClosed(states: seq<State>)
    requires states != [] && Closed(states[0])
    requires forall i :: 0 <= i < |states| - 1 ==> AtomicStep(states[i], states[i + 1])
    ensures Closed(states[|states| - 1])
  {
    var n := |states| - 1;
    if n > 0 {
      RunKeepsClosed(states[..n]);
      assert AtomicStep(states[n - 1], states[n - 1 + 1]);
      AtomicStepKeepsClosed(states[n - 1], states[n]);
    }
  }

  /** The program reads the base in one transaction and stores in another. What it stores then has
      its endpoints exactly when the base is still there (or is the snapshot being stored). */
  lemma StoreKeepsClosedIff(s: State, snapshot: Snapshot, delta: DeltaSnapshot)
    requires Closed(s) && delta.targetSnapshotId == snapshot.snapshotId
    ensures Closed(PutSnapshotAndDelta(s, snapshot, delta)) <==>
      delta.baseSnapshotId in s.snapshots || delta.baseSnapshotId == snapshot.snapshotId
  {
    var s' := PutSnapshotAndDelta(s, snapshot, delta);
    assert (delta.baseSnapshotId, delta.targetSnapshotId) in s'.deltas;
  }

  /** A deletion between the two leaves the store in order exactly when it was not of the base. */
  lemma DeletedBaseDangles(s: State, id: u64, snapshot: Snapshot, delta: DeltaSnapshot)
    requires Closed(s) && delta.targetSnapshotId == snapshot.snapshotId && delta.baseSnapshotId in s.snapshots
    ensures Closed(PutSnapshotAndDelta(Delete(s, id), snapshot, delta)) <==>
      id != delta.baseSnapshotId || delta.baseSnapshotId == snapshot.snapshotId
  {
    assert Closed(Delete(s, id));
    StoreKeepsClosedIff(Delete(s, id), snapshot, delta);
  }

  /** A retention between the two leaves the store in order exactly when it deletes nothing or the
      base is among the newest it keeps. */
  lemma RetainedBaseDangles(s: State, keep: nat, snapshot: Snapshot, delta: DeltaSnapshot)
    requires Closed(s) && delta.targetSnapshotId == snapshot.snapshotId && delta.baseSnapshotId in s.snapshots
    ensures Closed(PutSnapshotAndDelta(Retain(s, keep), snapshot, delta)) <==>
      || |s.snapshots| <= keep || |NewerThan(s.snapshots, delta.baseSnapshotId)| < keep
      || delta.baseSnapshotId == snapshot.snapshotId
  {
    var s' := Retain(s, keep);
    assert Closed(s') by { assert AtomicStep(s, s'); AtomicStepKeepsClosed(s, s'); }
    StoreKeepsClosedIff(s', snapshot, delta);
  }

  /** The snapshots 1 to `n`, each taken later than the one before. */
  function Taken(n: nat): map<u64, Snapshot>
    requires n <= 0x7FFF_FFFF_FFFF_FFFF
  {
    if n == 0 then map[] else Taken(n - 1)[n := Snapshot(CURRENT_SCHEMA, n, n, "h", 1, [])]
  }

  lemma {:induction false} TakenHas(n: nat)
    requires n <= 0x7FFF_FFFF_FFFF_FFFF
    ensures |Taken(n)| == n
    ensures forall id {:trigger id in Taken(n)} :: id in Taken(n) ==> 1 <= id <= n && Taken(n)[id].createdAt == id
    ensures n >= 1 ==> 1 in Taken(n)
  {
    if n > 0 { TakenHas(n - 1); }
  }

  lemma NothingDangles(snapshots: map<u64, Snapshot>)
    ensures Closed(State(snapshots, map[]))
  {}

  /** Such a case for every number to keep: the base was taken first, and `keep` snapshots after it. */
  lemma OldBaseDangles(keep: nat, snapshot: Snapshot, delta: DeltaSnapshot)
    requires 0 < keep < 0x7FFF_FFFF_FFFF_FFFF
    requires delta.baseSnapshotId == 1 != snapshot.snapshotId == delta.targetSnapshotId
    ensures Closed(State(Taken(keep + 1), map[]))
    ensures !Closed(PutSnapshotAndDelta(Retain(State(Taken(keep + 1), map[]), keep), snapshot, delta))
  {
    hide Taken, Closed, Retain;
    var snapshots := Taken(keep + 1);
    TakenHas(keep + 1);
    assert NewerThan(snapshots, 1) == snapshots.Keys - {1};
    assert |snapshots.Keys - {1}| == keep;
    NothingDangles(snapshots);
    RetainedBaseDangles(State(snapshots, map[]), keep, snapshot, delta);
  }
}
