/** The domain models shared by the indexer (Muninn) and the gateway (Hugin):
    entries, snapshots and deltas, with the integer widths of the C++ structs. */
module Domain {

  type u8 = x: int | 0 <= x < 0x100
  type u16 = x: int | 0 <= x < 0x1_0000
  type u32 = x: int | 0 <= x < 0x1_0000_0000
  type u64 = x: int | 0 <= x < 0x1_0000_0000_0000_0000
  type i64 = x: int | -0x8000_0000_0000_0000 <= x < 0x8000_0000_0000_0000

  const U64_MAX: u64 := 0xFFFF_FFFF_FFFF_FFFF

  datatype Option<+T> = None | Some(value: T)

  /** The string hash (FNV-1a in the program); every result here holds for any hash. */
  type Hash = string -> u64

  /** Unsigned 64-bit addition of 1, which wraps. */
  function Increment(x: u64): u64 {
    (x + 1) % 0x1_0000_0000_0000_0000
  }

  datatype SchemaHeader = SchemaHeader(major: u16, minor: u16, patch: u16, minReaderMajor: u16)

  const CURRENT_SCHEMA := SchemaHeader(1, 0, 0, 1)

  /** The entry type is an 8-bit enum whose value is not checked when it is read
      from bytes, so it is kept as the raw byte. */
  const FILE: u8 := 0
  const DIRECTORY: u8 := 1
  const SYMLINK: u8 := 2
  const SPECIAL: u8 := 3

  datatype FileMetadata = FileMetadata(
    sizeBytes: u64,
    createdAt: i64,
    modifiedAt: i64,
    accessedAt: i64,
    permissions: u32,
    fileId: u64,
    deviceId: u64,
    contentHash: Option<u64>)

  datatype FileEntry = FileEntry(
    id: u64,
    parentId: u64,
    path: string,
    name: string,
    kind: u8,
    metadata: FileMetadata)

  datatype Snapshot = Snapshot(
    schema: SchemaHeader,
    snapshotId: u64,
    createdAt: i64,
    hostIdentifier: string,
    rootEntryId: u64,
    entries: seq<FileEntry>)

  datatype ModifiedEntry = ModifiedEntry(entryId: u64, before: FileMetadata, after: FileMetadata)

  datatype RenamedEntry = RenamedEntry(beforeId: u64, afterId: u64, oldPath: string, newPath: string)

  datatype DeltaSnapshot = DeltaSnapshot(
    schema: SchemaHeader,
    baseSnapshotId: u64,
    targetSnapshotId: u64,
    added: seq<FileEntry>,
    removed: seq<FileEntry>,
    modified: seq<ModifiedEntry>,
    renamed: seq<RenamedEntry>)

  // ---- Keys of a list of entries ----

  ghost predicate UniqueIds(es: seq<FileEntry>) {
    forall i, j :: 0 <= i < j < |es| ==> es[i].id != es[j].id
  }

  ghost predicate UniquePaths(es: seq<FileEntry>) {
    forall i, j :: 0 <= i < j < |es| ==> es[i].path != es[j].path
  }

  ghost predicate UniqueEntries(es: seq<FileEntry>) {
    UniqueIds(es) && UniquePaths(es)
  }

  /** What the identity and path passes of the validator ask of the two keys of an entry. */
  ghost predicate UniqueKeys(s: Snapshot) {
    UniqueEntries(s.entries)
  }

  function Ids(es: seq<FileEntry>): set<u64> {
    set e | e in es :: e.id
  }

  function PathsOf(es: seq<FileEntry>): set<string> {
    set e | e in es :: e.path
  }

  /** The id index as `emplace` builds it: the first entry with an id wins. */
  function IndexById(es: seq<FileEntry>): (m: map<u64, FileEntry>)
    ensures forall k :: k in m ==> m[k] in es && m[k].id == k
    ensures forall e :: e in es ==> e.id in m
  {
    if es == [] then map[]
    else
      var m := IndexById(es[..|es| - 1]);
      var e := es[|es| - 1];
      assert forall x :: x in es <==> x in es[..|es| - 1] || x == e;
      if e.id in m then m else m[e.id := e]
  }

  lemma IndexFinds(es: seq<FileEntry>, e: FileEntry)
    requires UniqueIds(es) && e in es
    ensures e.id in IndexById(es) && IndexById(es)[e.id] == e
  {
    var f := IndexById(es)[e.id];
    assert f in es && f.id == e.id;
  }

  // ---- The byte order of std::string ----

  predicate StringLess(a: string, b: string) {
    if b == [] then false
    else if a == [] then true
    else a[0] < b[0] || (a[0] == b[0] && StringLess(a[1..], b[1..]))
  }

  lemma StringLessIrreflexive(a: string)
    ensures !StringLess(a, a)
  {}

  lemma {:induction false} StringLessTransitive(a: string, b: string, c: string)
    requires StringLess(a, b) && StringLess(b, c)
    ensures StringLess(a, c)
  {
    if a != [] && a[0] == b[0] && b[0] == c[0] {
      StringLessTransitive(a[1..], b[1..], c[1..]);
    }
  }

  lemma {:induction false} StringLessTotal(a: string, b: string)
    ensures StringLess(a, b) || a == b || StringLess(b, a)
  {
    if a != [] && b != [] && a[0] == b[0] {
      StringLessTotal(a[1..], b[1..]);
      assert a == [a[0]] + a[1..] && b == [b[0]] + b[1..];
    }
  }

  lemma StringLessAsymmetric(a: string, b: string)
    requires StringLess(a, b)
    ensures !StringLess(b, a)
  {
    if StringLess(b, a) {
      StringLessTransitive(a, b, a);
      StringLessIrreflexive(a);
    }
  }

  /** `StringLess` orders the strings totally. */
  lemma StringLessIsOrder()
    ensures forall a, b :: StringLess(a, b) || a == b || StringLess(b, a)
    ensures forall a, b :: !(StringLess(a, b) && StringLess(b, a))
    ensures forall a, b, c :: StringLess(a, b) && StringLess(b, c) ==> StringLess(a, c)
  {
    forall a: string, b: string
      ensures StringLess(a, b) || a == b || StringLess(b, a)
      ensures !(StringLess(a, b) && StringLess(b, a))
    {
      StringLessTotal(a, b);
      if StringLess(a, b) { StringLessAsymmetric(a, b); }
    }
    forall a: string, b: string, c: string | StringLess(a, b) && StringLess(b, c)
      ensures StringLess(a, c)
    {
      StringLessTransitive(a, b, c);
    }
  }

  /** The texts agree up to `k`, where the first one ends or has the smaller character. */
  predicate SmallerAt(a: string, b: string, k: nat) {
    k <= |a| && k < |b| && a[..k] == b[..k] && (k == |a| || a[k] < b[k])
  }

  lemma FirstOrEqual(a: string, b: string, k: nat)
    requires SmallerAt(a, b, k)
    ensures k == 0 || (a != [] && a[0] == b[0])
  {
    if k > 0 { assert a[0] == a[..k][0] && b[0] == b[..k][0]; }
  }

  /** The order is lexicographic: at the first difference the smaller character, or the end, comes first. */
  lemma {:induction false} StringLessIff(a: string, b: string)
    ensures StringLess(a, b) <==> exists k :: SmallerAt(a, b, k)
  {
    if a == [] || b == [] || a[0] != b[0] {
      if b != [] && (a == [] || a[0] < b[0]) { assert SmallerAt(a, b, 0); }
      if k: nat :| SmallerAt(a, b, k) { FirstOrEqual(a, b, k); }
    } else {
      StringLessIff(a[1..], b[1..]);
      if k: nat :| SmallerAt(a[1..], b[1..], k) {
        assert a[..k + 1] == [a[0]] + a[1..][..k] && b[..k + 1] == [b[0]] + b[1..][..k];
        assert SmallerAt(a, b, k + 1);
      }
      if k: nat :| SmallerAt(a, b, k) {
        assert k > 0;
        assert a[1..][..k - 1] == a[..k][1..] && b[1..][..k - 1] == b[..k][1..];
        assert SmallerAt(a[1..], b[1..], k - 1);
      }
    }
  }

  /** Of two entries with one id the index keeps the first. */
  lemma {:induction false} IndexKeepsFirst(es: seq<FileEntry>, i: nat)
    requires i < |es| && forall j :: 0 <= j < i ==> es[j].id != es[i].id
    ensures es[i].id in IndexById(es) && IndexById(es)[es[i].id] == es[i]
  {
    var n := |es| - 1;
    if i < n {
      IndexKeepsFirst(es[..n], i);
    } else {
      assert forall e :: e in es[..n] ==> e.id != es[n].id;
    }
  }
}
