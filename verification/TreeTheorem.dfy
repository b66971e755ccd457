/** A snapshot the validator accepts is a rooted tree, and every rooted tree with a sound header
    and sound paths is accepted. */
module TreeTheorem {
  import opened Depth
  import opened Domain
  import opened Graph
  import opened Validators
  import Paths

  /** One root, which is a directory without a parent; everyone else hangs under an existing
      directory, and a path of parent links leads from the root to every id. */
  ghost predicate RootedTree(s: Snapshot) {
    && UniqueIds(s.entries)
    && (forall e :: e in s.entries ==> e.id != 0)
    && (exists r :: r in s.entries && r.id == s.rootEntryId && r.kind == DIRECTORY && r.parentId == 0)
    && (forall e :: e in s.entries && e.id != s.rootEntryId ==> HangsUnder(s.entries, e))
    && (forall e :: e in s.entries ==> Reaches(ChildrenIndex(s.entries), s.rootEntryId, e.id))
  }

  ghost predicate HangsUnder(es: seq<FileEntry>, e: FileEntry) {
    exists p :: p in es && p.id == e.parentId && p.kind == DIRECTORY
  }

  predicate HeaderFields(s: Snapshot) {
    s.snapshotId != 0 && ValidSchema(s.schema) && s.schema.major == CURRENT_SCHEMA.major && s.hostIdentifier != ""
  }

  // ---- The children index ----

  lemma {:induction false} KidHasEntry(es: seq<FileEntry>, p: u64, c: u64) returns (e: FileEntry)
    requires c in Kids(ChildrenIndex(es), p)
    ensures e in es && e.id == c && e.parentId == p != 0
  {
    var n := |es| - 1;
    if c in Kids(ChildrenIndex(es[..n]), p) {
      e := KidHasEntry(es[..n], p, c);
    } else {
      e := es[n];
    }
  }

  lemma {:induction false} EntryIsKid(es: seq<FileEntry>, e: FileEntry)
    requires e in es && e.parentId != 0
    ensures e.id in Kids(ChildrenIndex(es), e.parentId)
  {
    var n := |es| - 1;
    if e != es[n] {
      EntryIsKid(es[..n], e);
    } else {
      var kids := Kids(ChildrenIndex(es), e.parentId);
      assert kids[|kids| - 1] == e.id;
    }
  }

  lemma {:induction false} LastFinds(es: seq<FileEntry>, e: FileEntry)
    requires UniqueIds(es) && e in es
    ensures e.id in LastById(es) && LastById(es)[e.id] == e
  {
    var n := |es| - 1;
    if e != es[n] {
      LastFinds(es[..n], e);
      var i :| 0 <= i < |es| && es[i] == e;
      assert es[i].id != es[n].id;
    }
  }

  // ---- Accepted snapshots are trees ----

  lemma IdentityMeans(s: Snapshot)
    ensures IdentityOk(s) <==>
      && UniqueIds(s.entries)
      && (forall e :: e in s.entries ==> e.id != 0)
      && (forall e :: e in s.entries && e.id != s.rootEntryId ==> e.parentId != 0)
  {
    if IdentityOk(s) {
      forall i, j | 0 <= i < j < |s.entries| ensures s.entries[i].id != s.entries[j].id {
        assert !IdentityBad(s, j);
      }
      forall e | e in s.entries ensures e.id != 0 && (e.id != s.rootEntryId ==> e.parentId != 0) {
        var i :| 0 <= i < |s.entries| && s.entries[i] == e;
        assert !IdentityBad(s, i);
      }
    } else {
      var i :| 0 <= i < |s.entries| && IdentityBad(s, i);
      assert s.entries[i] in s.entries;
    }
  }

  lemma ParentFound(s: Snapshot, e: FileEntry)
    requires UniqueIds(s.entries) && e in s.entries && e.id != s.rootEntryId
    requires forall i :: 0 <= i < |s.entries| ==> !ParentBad(s, i)
    ensures e.parentId != 0 && HangsUnder(s.entries, e) && e.parentId in Ids(s.entries)
  {
    var i :| 0 <= i < |s.entries| && s.entries[i] == e;
    assert !ParentBad(s, i);
    LastByIdHolds(s.entries, e.parentId);
  }

  lemma {:induction false} LastByIdHolds(es: seq<FileEntry>, id: u64)
    requires id in LastById(es)
    ensures LastById(es)[id] in es && LastById(es)[id].id == id
  {
    var n := |es| - 1;
    if id != es[n].id { LastByIdHolds(es[..n], id); }
  }

  /** Climbing from any path by parent links ends at the root, for want of fresh ids. */
  lemma {:induction false} ClimbToRoot(s: Snapshot, w: seq<u64>, unseen: set<u64>)
    requires UniqueIds(s.entries) && !Cyclic(s.entries)
    requires forall i :: 0 <= i < |s.entries| ==> !ParentBad(s, i)
    requires IsPath(ChildrenIndex(s.entries), w) && forall i :: 0 <= i < |w| ==> w[i] in Ids(s.entries)
    requires forall id :: id in Ids(s.entries) ==> id in unseen || id in w
    ensures Reaches(ChildrenIndex(s.entries), s.rootEntryId, w[|w| - 1])
    decreases unseen
  {
    hide Cyclic, ParentBad, ChildrenIndex, HangsUnder;
    var children := ChildrenIndex(s.entries);
    if w[0] == s.rootEntryId {
      assert PathBetween(children, s.rootEntryId, w[|w| - 1], w);
    } else {
      var e :| e in s.entries && e.id == w[0];
      ParentFound(s, e);
      EntryIsKid(s.entries, e);
      var longer := [e.parentId] + w;
      assert IsPath(children, longer);
      if e.parentId in w {
        var k :| 0 <= k < |w| && w[k] == e.parentId;
        CycleFromRepeat(s, longer, k + 1);
      }
      ClimbToRoot(s, longer, unseen - {e.parentId});
    }
  }

  /** A path that comes back to its first id closes a cycle. */
  lemma CycleFromRepeat(s: Snapshot, w: seq<u64>, k: nat)
    requires IsPath(ChildrenIndex(s.entries), w) && forall i :: 0 <= i < |w| ==> w[i] in Ids(s.entries)
    requires 1 <= k < |w| && w[k] == w[0]
    ensures Cyclic(s.entries)
  {
    var c := w[..k + 1];
    forall i | 0 <= i < |c| - 1 ensures Edge(ChildrenIndex(s.entries), Ids(s.entries), c[i], c[i + 1]) {
      assert w[i + 1] in Kids(ChildrenIndex(s.entries), w[i]);
    }
    assert IsCycle(ChildrenIndex(s.entries), Ids(s.entries), c);
  }

  // ---- Trees are accepted ----

  lemma {:induction false} NoPathToCycle(s: Snapshot, w: seq<u64>, c: seq<u64>, k: nat)
    requires UniqueIds(s.entries)
    requires exists r :: r in s.entries && r.id == s.rootEntryId && r.parentId == 0
    requires IsCycle(ChildrenIndex(s.entries), Ids(s.entries), c)
    requires IsPath(ChildrenIndex(s.entries), w) && w[0] == s.rootEntryId
    requires 1 <= k < |c| && c[k] == w[|w| - 1]
    ensures false
  {
    var children := ChildrenIndex(s.entries);
    assert Edge(children, Ids(s.entries), c[k - 1], c[k - 1 + 1]);
    var e := KidHasEntry(s.entries, c[k - 1], c[k]);
    if |w| == 1 {
      var r :| r in s.entries && r.id == s.rootEntryId && r.parentId == 0;
      SameIdSameEntry(s.entries, e, r);
    } else {
      var n := |w| - 1;
      assert w[n - 1 + 1] in Kids(children, w[n - 1]);
      var f := KidHasEntry(s.entries, w[n - 1], w[n]);
      SameIdSameEntry(s.entries, e, f);
      NoPathToCycle(s, w[..n], c, if k == 1 then |c| - 1 else k - 1);
    }
  }

  lemma SameIdSameEntry(es: seq<FileEntry>, e: FileEntry, f: FileEntry)
    requires UniqueIds(es) && e in es && f in es && e.id == f.id
    ensures e == f
  {}

  lemma TreeHasNoCycle(s: Snapshot)
    requires RootedTree(s)
    ensures !Cyclic(s.entries)
  {
    var children := ChildrenIndex(s.entries);
    forall c ensures !IsCycle(children, Ids(s.entries), c) {
      if IsCycle(children, Ids(s.entries), c) {
        assert Edge(children, Ids(s.entries), c[0], c[0 + 1]);
        var e :| e in s.entries && e.id == c[1];
        var w :| PathBetween(children, s.rootEntryId, e.id, w);
        NoPathToCycle(s, w, c, 1);
      }
    }
  }

  /** Main result: header, identity and graph passes give no error exactly when the header
      fields are sound and the entries form a rooted tree. */
  lemma AcceptedIffTree(s: Snapshot)
    ensures HeaderOk(s) && IdentityOk(s) && GraphOk(s) <==> HeaderFields(s) && RootedTree(s)
  {
    IdentityMeans(s);
    if HeaderOk(s) && IdentityOk(s) && GraphOk(s) {
      forall e | e in s.entries && e.id != s.rootEntryId ensures HangsUnder(s.entries, e) {
        ParentFound(s, e);
      }
      forall e | e in s.entries ensures Reaches(ChildrenIndex(s.entries), s.rootEntryId, e.id) {
        ClimbToRoot(s, [e.id], Ids(s.entries) - {e.id});
      }
    }
    if HeaderFields(s) && RootedTree(s) {
      TreeHasNoCycle(s);
      TreeParentsFound(s);
      TreeHeader(s);
    }
  }

  lemma TreeParentsFound(s: Snapshot)
    requires RootedTree(s)
    ensures forall i :: 0 <= i < |s.entries| ==> !ParentBad(s, i)
    ensures IdentityOk(s)
  {
    IdentityMeans(s);
    forall e | e in s.entries && e.id != s.rootEntryId
      ensures e.parentId != 0 && e.parentId in LastById(s.entries) && LastById(s.entries)[e.parentId].kind == DIRECTORY
    {
      var p :| p in s.entries && p.id == e.parentId && p.kind == DIRECTORY;
      LastFinds(s.entries, p);
    }
  }

  lemma TreeHeader(s: Snapshot)
    requires RootedTree(s) && HeaderFields(s)
    ensures HeaderOk(s)
  {
    var r :| r in s.entries && r.id == s.rootEntryId && r.kind == DIRECTORY && r.parentId == 0;
    var i :| 0 <= i < |s.entries| && s.entries[i] == r;
    assert RootAt(s, i);
  }

  /** So the pass never warns about a disconnected entry in a snapshot without errors. */
  lemma AcceptedIsConnected(s: Snapshot, id: u64)
    requires HeaderOk(s) && IdentityOk(s) && GraphOk(s) && id in Ids(s.entries)
    ensures Reaches(ChildrenIndex(s.entries), s.rootEntryId, id)
  {
    AcceptedIffTree(s);
  }

  // ---- The depth warning ----

  /** From an entry's id a path stays among the entries. */
  lemma PathIsWalk(s: Snapshot, w: seq<u64>)
    requires IsPath(ChildrenIndex(s.entries), w) && w[0] in Ids(s.entries)
    ensures IsWalk(ChildrenIndex(s.entries), Ids(s.entries), w) && w[|w| - 1] in Ids(s.entries)
  {
    hide ChildrenIndex;
    forall i | 0 <= i < |w| ensures w[i] in Ids(s.entries) {
      if i > 0 {
        assert w[i - 1 + 1] in Kids(ChildrenIndex(s.entries), w[i - 1]);
        var e := KidHasEntry(s.entries, w[i - 1], w[i]);
      }
    }
  }

  lemma WalkIsPath(children: Children, nodes: set<u64>, w: seq<u64>)
    requires IsWalk(children, nodes, w)
    ensures IsPath(children, w)
  {
    forall i | 0 <= i < |w| - 1 ensures w[i + 1] in Kids(children, w[i]) { assert Edge(children, nodes, w[i], w[i + 1]); }
  }

  lemma ReachedIffReaches(s: Snapshot, start: u64, v: u64)
    requires start in Ids(s.entries)
    ensures Reached(ChildrenIndex(s.entries), Ids(s.entries), start, v) <==> Reaches(ChildrenIndex(s.entries), start, v)
  {
    hide ChildrenIndex, IsPath, IsWalk;
    var children, nodes := ChildrenIndex(s.entries), Ids(s.entries);
    if w :| WalksTo(children, nodes, start, v, w) {
      WalkIsPath(children, nodes, w);
      assert PathBetween(children, start, v, w);
    }
    if w :| PathBetween(children, start, v, w) {
      PathIsWalk(s, w);
      assert WalksTo(children, nodes, start, v, w);
    }
  }

  /** In a tree a path that comes back to its start has not left it. */
  lemma NoWayBack(s: Snapshot, w: seq<u64>)
    requires RootedTree(s) && IsPath(ChildrenIndex(s.entries), w) && w[0] in Ids(s.entries) && w[|w| - 1] == w[0]
    ensures |w| == 1
  {
    hide ChildrenIndex, IsPath, RootedTree;
    TreeHasNoCycle(s);
    PathIsWalk(s, w);
    hide IsWalk;
    assert |w| >= 2 ==> IsCycle(ChildrenIndex(s.entries), Ids(s.entries), w);
    PathNotEmpty(ChildrenIndex(s.entries), w);
  }

  lemma PathNotEmpty(children: Children, w: seq<u64>)
    requires IsPath(children, w)
    ensures w != []
  {}

  lemma OneParent(s: Snapshot, u: u64, v: u64, c: u64)
    requires RootedTree(s) && c in Kids(ChildrenIndex(s.entries), u) && c in Kids(ChildrenIndex(s.entries), v)
    ensures u == v
  {
    var e := KidHasEntry(s.entries, u, c);
    var f := KidHasEntry(s.entries, v, c);
    SameIdSameEntry(s.entries, e, f);
  }

  /** In a tree all paths between two nodes have the same length. */
  lemma {:induction false} OneLength(s: Snapshot, p: seq<u64>, q: seq<u64>)
    requires RootedTree(s) && IsPath(ChildrenIndex(s.entries), p) && IsPath(ChildrenIndex(s.entries), q)
    requires p[0] == q[0] && p[0] in Ids(s.entries) && p[|p| - 1] == q[|q| - 1]
    ensures |p| == |q|
    decreases |p|
  {
    hide RootedTree, ChildrenIndex;
    var m, n := |p| - 1, |q| - 1;
    if m == 0 {
      NoWayBack(s, q);
    } else if n == 0 {
      NoWayBack(s, p);
    } else {
      assert p[m - 1 + 1] in Kids(ChildrenIndex(s.entries), p[m - 1]);
      assert q[n - 1 + 1] in Kids(ChildrenIndex(s.entries), q[n - 1]);
      OneParent(s, p[m - 1], q[n - 1], p[m]);
      OneLength(s, p[..m], q[..n]);
    }
  }

  /** The path leads down from the i-th entry over more than `max` nodes, to a node below no entry
      that is listed before it. */
  ghost predicate DeepPath(s: Snapshot, i: nat, w: seq<u64>, max: nat) {
    && i < |s.entries| && IsPath(ChildrenIndex(s.entries), w) && w[0] == s.entries[i].id && |w| > max
    && forall j :: 0 <= j < i ==> !Reaches(ChildrenIndex(s.entries), s.entries[j].id, w[|w| - 1])
  }

  lemma FirstFromIff(s: Snapshot, i: nat, v: u64)
    requires i < |s.entries|
    ensures FirstFrom(ChildrenIndex(s.entries), Ids(s.entries), StartIds(s.entries), i, v) <==>
      && Reaches(ChildrenIndex(s.entries), s.entries[i].id, v)
      && forall j :: 0 <= j < i ==> !Reaches(ChildrenIndex(s.entries), s.entries[j].id, v)
  {
    hide ChildrenIndex, Reached, Reaches;
    forall j | 0 <= j <= i
      ensures Reached(ChildrenIndex(s.entries), Ids(s.entries), StartIds(s.entries)[j], v)
        <==> Reaches(ChildrenIndex(s.entries), s.entries[j].id, v)
    {
      assert s.entries[j] in s.entries;
      ReachedIffReaches(s, s.entries[j].id, v);
    }
  }

  lemma UnwarnedIsShallow(s: Snapshot, max: nat, i: nat, w: seq<u64>)
    requires RootedTree(s) && DepthReport(ChildrenIndex(s.entries), Ids(s.entries), StartIds(s.entries), false, max)
    requires i < |s.entries| && IsPath(ChildrenIndex(s.entries), w) && w[0] == s.entries[i].id
    requires forall j :: 0 <= j < i ==> !Reaches(ChildrenIndex(s.entries), s.entries[j].id, w[|w| - 1])
    ensures |w| <= max
  {
    hide RootedTree, ChildrenIndex;
    var children, nodes, v := ChildrenIndex(s.entries), Ids(s.entries), w[|w| - 1];
    assert s.entries[i] in s.entries && s.entries[i].id in nodes;
    TreeHasNoCycle(s);
    assert PathBetween(children, s.entries[i].id, v, w);
    FirstFromIff(s, i, v);
    assert FirstFrom(children, nodes, StartIds(s.entries), i, v);
    var near :| WalksTo(children, nodes, s.entries[i].id, v, near) && |near| <= max;
    WalkIsPath(children, nodes, near);
    OneLength(s, w, near);
  }

  lemma WarnedIsDeep(s: Snapshot, max: nat) returns (i: nat, w: seq<u64>)
    requires RootedTree(s) && DepthReport(ChildrenIndex(s.entries), Ids(s.entries), StartIds(s.entries), true, max)
    ensures DeepPath(s, i, w, max)
  {
    hide RootedTree, ChildrenIndex;
    var children, nodes, starts := ChildrenIndex(s.entries), Ids(s.entries), StartIds(s.entries);
    TreeHasNoCycle(s);
    var k, v :| 0 <= k < |starts| && DeepBelow(children, nodes, starts, k, v, max);
    i := k;
    w :| WalksTo(children, nodes, starts[i], v, w) && |w| > max;
    WalkIsPath(children, nodes, w);
    FirstFromIff(s, i, v);
  }

  /** Main result: for every tree, in whatever order it lists its entries, the graph pass gives the
      depth warning exactly when some node lies too deep below the first listed entry above it. */
  lemma DepthWarnedIff(s: Snapshot, warned: bool, max: nat)
    requires RootedTree(s)
    requires DepthReport(ChildrenIndex(s.entries), Ids(s.entries), StartIds(s.entries), warned, max)
    ensures warned <==> exists i, w :: DeepPath(s, i, w, max)
  {
    hide RootedTree, DepthReport, ChildrenIndex, Reaches, IsPath;
    if warned {
      var i, w := WarnedIsDeep(s, max);
    } else {
      forall i, w ensures !DeepPath(s, i, w, max) {
        NotDeep(s, max, i, w);
      }
    }
  }

  lemma NotDeep(s: Snapshot, max: nat, i: nat, w: seq<u64>)
    requires RootedTree(s) && DepthReport(ChildrenIndex(s.entries), Ids(s.entries), StartIds(s.entries), false, max)
    ensures !DeepPath(s, i, w, max)
  {
    hide RootedTree, DepthReport, ChildrenIndex, Reaches, IsPath;
    if i < |s.entries| && IsPath(ChildrenIndex(s.entries), w) {
      PathNotEmpty(ChildrenIndex(s.entries), w);
      if w[0] == s.entries[i].id && forall j :: 0 <= j < i ==> !Reaches(ChildrenIndex(s.entries), s.entries[j].id, w[|w| - 1]) {
        UnwarnedIsShallow(s, max, i, w);
      }
    }
  }

  lemma DeepFromRoot(s: Snapshot, max: nat, i: nat, w: seq<u64>)
    requires RootedTree(s) && s.entries != [] && s.entries[0].id == s.rootEntryId && DeepPath(s, i, w, max)
    ensures i == 0
  {
    hide ChildrenIndex, HangsUnder, Reaches;
    assert s.entries[i] in s.entries;
    PathIsWalk(s, w);
    var e :| e in s.entries && e.id == w[|w| - 1];
    assert Reaches(ChildrenIndex(s.entries), s.rootEntryId, e.id);
  }

  /** When the root is listed first this is the depth below the root. */
  lemma RootFirstDepth(s: Snapshot, max: nat)
    requires RootedTree(s) && s.entries != [] && s.entries[0].id == s.rootEntryId
    ensures (exists i, w :: DeepPath(s, i, w, max)) <==>
      exists w :: IsPath(ChildrenIndex(s.entries), w) && w[0] == s.rootEntryId && |w| > max
  {
    hide RootedTree, ChildrenIndex;
    if i: nat, w :| DeepPath(s, i, w, max) {
      DeepFromRoot(s, max, i, w);
    }
    if w :| IsPath(ChildrenIndex(s.entries), w) && w[0] == s.rootEntryId && |w| > max {
      assert DeepPath(s, 0, w, max);
    }
  }

  /** What the validator as a whole lets through, whatever the clock says. */
  ghost predicate Accepted(s: Snapshot) {
    HeaderFields(s) && RootedTree(s) && PathsOk(s)
  }

  /** The codes that depend on a search of the graph. */
  const SEARCH_CODES := {GraphCycleDetected, GraphMaxDepthExceeded, GraphDisconnectedEntry}

  /** The whole validator at a moment in time. */
  method Validate(s: Snapshot, now: i64) returns (issues: seq<Issue>)
    ensures HasErrors(issues) <==> !Accepted(s)
    ensures !HasErrors(issues) ==> forall id :: !Disconnected(issues, id)
    ensures var n := |s.entries|;
      Codes(issues) - SEARCH_CODES ==
        (HeaderCodes(s) + AllIdentityCodes(s, n) + AllPathCodes(s, n) + AllParentCodes(s, n) + AllTimestampCodes(s, n, now))
        - SEARCH_CODES
  {
    hide HasErrors, HasCode, Codes, Disconnected, HeaderOk, IdentityOk, GraphOk, HeaderFields, RootedTree, PathsOk;
    hide HeaderCodes, AllIdentityCodes, AllPathCodes, AllParentCodes, AllTimestampCodes;
    var header := HeaderPass(s);
    var identity := IdentityPass(s);
    var paths := PathPass(s);
    var graph := GraphPass(s);
    var timestamps := TimestampPass(s, now);
    FivePasses(header, identity, paths, graph, timestamps);
    issues := header + identity + paths + graph + timestamps;
    AcceptedIffTree(s);
    HeaderHasEntries(s);
    if !HasErrors(issues) {
      forall id | id in Ids(s.entries) { AcceptedIsConnected(s, id); }
    }
  }

  lemma FivePasses(a: seq<Issue>, b: seq<Issue>, c: seq<Issue>, graph: seq<Issue>, d: seq<Issue>)
    requires !HasCode(a, GraphDisconnectedEntry) && !HasCode(b, GraphDisconnectedEntry)
    requires !HasCode(c, GraphDisconnectedEntry) && !HasCode(d, GraphDisconnectedEntry)
    ensures var all := a + b + c + graph + d;
      && (HasErrors(all) <==> HasErrors(a) || HasErrors(b) || HasErrors(c) || HasErrors(graph) || HasErrors(d))
      && Codes(all) == Codes(a) + Codes(b) + Codes(c) + Codes(graph) + Codes(d)
      && forall id :: Disconnected(all, id) <==> Disconnected(graph, id)
  {
    hide HasErrors, HasCode, Codes;
    Appended(a, b);
    Appended(a + b, c);
    Appended(a + b + c, graph);
    Appended(a + b + c + graph, d);
    AppendedCodes(a, b);
    AppendedCodes(a + b, c);
    AppendedCodes(a + b + c, graph);
    AppendedCodes(a + b + c + graph, d);
    forall id ensures Disconnected(a + b + c + graph + d, id) <==> Disconnected(graph, id) {
      DisconnectedHasCode(a, id);
      DisconnectedHasCode(b, id);
      DisconnectedHasCode(c, id);
      DisconnectedHasCode(d, id);
    }
  }

  lemma HeaderHasEntries(s: Snapshot)
    ensures HeaderOk(s) ==> s.entries != []
  {}
}
