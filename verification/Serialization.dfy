/** The binary snapshot and delta formats: what is written, what is read, and their laws. */
module Serialization {
  import opened Bytes
  import opened Domain

  const SNAPSHOT_MAGIC: u32 := 0x48534E50
  const DELTA_MAGIC: u32 := 0x48444C54
  const FORMAT_MAJOR: u16 := 1
  const FORMAT_MINOR: u16 := 0
  const MAX_ENTRIES := 5_000_000
  const MAX_STRING_LENGTH := 4 * 1024 * 1024

  datatype Code = InvalidMagic | PayloadTruncated | StringTooLarge | EntryCountTooLarge

  /** What a read returns: a value and the bytes it has left. */
  datatype Parsed<+T> = Fail(code: Code) | Got(value: T, rest: seq<u8>) {
    predicate IsFailure() {
      Fail?
    }

    function PropagateFailure<U>(): Parsed<U>
      requires Fail?
    {
      Fail(code)
    }

    function Extract(): (T, seq<u8>)
      requires Got?
    {
      (value, rest)
    }
  }

  // ---- Primitives: `Put` places a value in front of the bytes that follow it ----

  function Put(v: nat, width: nat, rest: seq<u8>): seq<u8> {
    Little(v, width) + rest
  }

  function ReadNumber(bs: seq<u8>, width: nat): (r: Parsed<nat>)
    ensures r.Got? ==> r.value < Pow256(width)
  {
    if |bs| < width then Fail(PayloadTruncated)
    else
      FromLittleBound(bs[..width]);
      Got(FromLittle(bs[..width]), bs[width..])
  }

  function ReadU8(bs: seq<u8>): Parsed<u8> {
    Widths();
    var (v, r) :- ReadNumber(bs, 1); Got(v, r)
  }

  function ReadU16(bs: seq<u8>): Parsed<u16> {
    Widths();
    var (v, r) :- ReadNumber(bs, 2); Got(v, r)
  }

  function ReadU32(bs: seq<u8>): Parsed<u32> {
    Widths();
    var (v, r) :- ReadNumber(bs, 4); Got(v, r)
  }

  function ReadU64(bs: seq<u8>): Parsed<u64> {
    Widths();
    var (v, r) :- ReadNumber(bs, 8); Got(v, r)
  }

  function ReadI64(bs: seq<u8>): Parsed<i64> {
    var (v, r) :- ReadU64(bs); Got(Signed(v), r)
  }

  function PutString(s: string, rest: seq<u8>): seq<u8> {
    Put(|s|, 4, ToBytes(s) + rest)
  }

  function ReadString(bs: seq<u8>): Parsed<string> {
    var (length, r) :- ReadU32(bs);
    if length > MAX_STRING_LENGTH then Fail(StringTooLarge)
    else if |r| < length then Fail(PayloadTruncated)
    else Got(FromBytes(r[..length]), r[length..])
  }

  predicate StringFits(s: string) {
    |s| <= MAX_STRING_LENGTH && IsBytes(s)
  }

  lemma NumberRoundTrip(v: nat, width: nat, rest: seq<u8>)
    requires v < Pow256(width)
    ensures ReadNumber(Put(v, width, rest), width) == Got(v, rest)
  {
    LittleRoundTrip(v, width);
    assert Put(v, width, rest)[..width] == Little(v, width);
  }

  lemma FieldRoundTrip(v: nat, rest: seq<u8>)
    ensures v < 0x100 ==> ReadU8(Put(v, 1, rest)) == Got(v, rest)
    ensures v < 0x1_0000 ==> ReadU16(Put(v, 2, rest)) == Got(v, rest)
    ensures v < 0x1_0000_0000 ==> ReadU32(Put(v, 4, rest)) == Got(v, rest)
    ensures v < 0x1_0000_0000_0000_0000 ==> ReadU64(Put(v, 8, rest)) == Got(v, rest)
  {
    hide ReadNumber, Put;
    Widths();
    if v < 0x100 { NumberRoundTrip(v, 1, rest); }
    if v < 0x1_0000 { NumberRoundTrip(v, 2, rest); }
    if v < 0x1_0000_0000 { NumberRoundTrip(v, 4, rest); }
    if v < 0x1_0000_0000_0000_0000 { NumberRoundTrip(v, 8, rest); }
  }

  lemma SignedRoundTrip(v: i64, rest: seq<u8>)
    ensures ReadI64(Put(Unsigned(v), 8, rest)) == Got(v, rest)
  {
    FieldRoundTrip(Unsigned(v), rest);
  }

  lemma StringRoundTrip(s: string, rest: seq<u8>)
    requires StringFits(s)
    ensures ReadString(PutString(s, rest)) == Got(s, rest)
  {
    FieldRoundTrip(|s|, ToBytes(s) + rest);
    assert (ToBytes(s) + rest)[..|s|] == ToBytes(s);
    BytesRoundTrip(s);
  }

  /** More bytes behind a value that was read change nothing but what is left. */
  lemma NumberExtends(bs: seq<u8>, width: nat, x: seq<u8>)
    requires ReadNumber(bs, width).Got?
    ensures ReadNumber(bs + x, width) == Got(ReadNumber(bs, width).value, ReadNumber(bs, width).rest + x)
  {
    assert (bs + x)[..width] == bs[..width] && (bs + x)[width..] == bs[width..] + x;
  }

  lemma FieldExtends(bs: seq<u8>, x: seq<u8>)
    ensures ReadU8(bs).Got? ==> ReadU8(bs + x) == Got(ReadU8(bs).value, ReadU8(bs).rest + x)
    ensures ReadU16(bs).Got? ==> ReadU16(bs + x) == Got(ReadU16(bs).value, ReadU16(bs).rest + x)
    ensures ReadU32(bs).Got? ==> ReadU32(bs + x) == Got(ReadU32(bs).value, ReadU32(bs).rest + x)
    ensures ReadU64(bs).Got? ==> ReadU64(bs + x) == Got(ReadU64(bs).value, ReadU64(bs).rest + x)
    ensures ReadI64(bs).Got? ==> ReadI64(bs + x) == Got(ReadI64(bs).value, ReadI64(bs).rest + x)
  {
    hide ReadNumber;
    if ReadU8(bs).Got? { NumberExtends(bs, 1, x); }
    if ReadU16(bs).Got? { NumberExtends(bs, 2, x); }
    if ReadU32(bs).Got? { NumberExtends(bs, 4, x); }
    if ReadU64(bs).Got? { NumberExtends(bs, 8, x); }
  }

  lemma StringExtends(bs: seq<u8>, x: seq<u8>)
    requires ReadString(bs).Got?
    ensures ReadString(bs + x) == Got(ReadString(bs).value, ReadString(bs).rest + x)
  {
    hide ReadU32;
    FieldExtends(bs, x);
    var r, n := ReadU32(bs).rest, ReadU32(bs).value;
    assert (r + x)[..n] == r[..n] && (r + x)[n..] == r[n..] + x;
  }

  lemma PutAppends(v: nat, width: nat, rest: seq<u8>, x: seq<u8>)
    ensures Put(v, width, rest) + x == Put(v, width, rest + x)
  {}

  lemma PutStringAppends(s: string, rest: seq<u8>, x: seq<u8>)
    ensures PutString(s, rest) + x == PutString(s, rest + x)
  {
    assert (ToBytes(s) + rest) + x == ToBytes(s) + (rest + x);
    PutAppends(|s|, 4, ToBytes(s) + rest, x);
  }

  // ---- Schema and header ----

  function PutSchema(h: SchemaHeader, rest: seq<u8>): seq<u8> {
    Put(h.major, 2, Put(h.minor, 2, Put(h.patch, 2, Put(h.minReaderMajor, 2, rest))))
  }

  function ReadSchema(bs: seq<u8>): Parsed<SchemaHeader> {
    var (major, r1) :- ReadU16(bs);
    var (minor, r2) :- ReadU16(r1);
    var (patch, r3) :- ReadU16(r2);
    var (minReaderMajor, r4) :- ReadU16(r3);
    Got(SchemaHeader(major, minor, patch, minReaderMajor), r4)
  }

  lemma SchemaRoundTrip(h: SchemaHeader, rest: seq<u8>)
    ensures ReadSchema(PutSchema(h, rest)) == Got(h, rest)
  {
    hide ReadU16, Put;
    var r3 := Put(h.minReaderMajor, 2, rest);
    var r2 := Put(h.patch, 2, r3);
    var r1 := Put(h.minor, 2, r2);
    FieldRoundTrip(h.major, r1);
    FieldRoundTrip(h.minor, r2);
    FieldRoundTrip(h.patch, r3);
    FieldRoundTrip(h.minReaderMajor, rest);
  }

  lemma SchemaExtends(bs: seq<u8>, x: seq<u8>)
    requires ReadSchema(bs).Got?
    ensures ReadSchema(bs + x) == Got(ReadSchema(bs).value, ReadSchema(bs).rest + x)
  {
    hide ReadU16, ReadU8, ReadU32, ReadU64, ReadI64;
    var r1 := ReadU16(bs).rest;
    var r2 := ReadU16(r1).rest;
    var r3 := ReadU16(r2).rest;
    FieldExtends(bs, x);
    FieldExtends(r1, x);
    FieldExtends(r2, x);
    FieldExtends(r3, x);
  }

  lemma SchemaAppends(h: SchemaHeader, rest: seq<u8>, x: seq<u8>)
    ensures PutSchema(h, rest) + x == PutSchema(h, rest + x)
  {
    hide Put;
    var r3 := Put(h.minReaderMajor, 2, rest);
    var r2 := Put(h.patch, 2, r3);
    var r1 := Put(h.minor, 2, r2);
    PutAppends(h.minReaderMajor, 2, rest, x);
    PutAppends(h.patch, 2, r3, x);
    PutAppends(h.minor, 2, r2, x);
    PutAppends(h.major, 2, r1, x);
  }

  function PutHeader(magic: u32, rest: seq<u8>): seq<u8> {
    Put(magic, 4, Put(FORMAT_MAJOR, 2, Put(FORMAT_MINOR, 2, rest)))
  }

  /** Whatever is wrong with a header, the error is the same. */
  function ReadHeader(bs: seq<u8>, magic: u32): Parsed<()> {
    var m := ReadU32(bs);
    if m.Fail? then Fail(InvalidMagic) else
    var major := ReadU16(m.rest);
    if major.Fail? then Fail(InvalidMagic) else
    var minor := ReadU16(major.rest);
    if minor.Fail? || m.value != magic || major.value != FORMAT_MAJOR || minor.value != FORMAT_MINOR then Fail(InvalidMagic)
    else Got((), minor.rest)
  }

  lemma HeaderRoundTrip(magic: u32, rest: seq<u8>)
    ensures ReadHeader(PutHeader(magic, rest), magic) == Got((), rest)
  {
    hide ReadU16, ReadU32, Put;
    var r2 := Put(FORMAT_MINOR, 2, rest);
    var r1 := Put(FORMAT_MAJOR, 2, r2);
    FieldRoundTrip(magic, r1);
    FieldRoundTrip(FORMAT_MAJOR, r2);
    FieldRoundTrip(FORMAT_MINOR, rest);
  }

  lemma HeaderExtends(bs: seq<u8>, magic: u32, x: seq<u8>)
    requires ReadHeader(bs, magic).Got?
    ensures ReadHeader(bs + x, magic) == Got((), ReadHeader(bs, magic).rest + x)
  {
    hide ReadU16, ReadU8, ReadU32, ReadU64, ReadI64;
    var r1 := ReadU32(bs).rest;
    var r2 := ReadU16(r1).rest;
    FieldExtends(bs, x);
    FieldExtends(r1, x);
    FieldExtends(r2, x);
  }

  lemma HeaderAppends(magic: u32, rest: seq<u8>, x: seq<u8>)
    ensures PutHeader(magic, rest) + x == PutHeader(magic, rest + x)
  {
    hide Put;
    var r2 := Put(FORMAT_MINOR, 2, rest);
    PutAppends(FORMAT_MINOR, 2, rest, x);
    PutAppends(FORMAT_MAJOR, 2, r2, x);
    PutAppends(magic, 4, Put(FORMAT_MAJOR, 2, r2), x);
  }

  // ---- Metadata and entries ----

  /** A flag byte, then the hash if there is one. */
  function PutHash(h: Option<u64>, rest: seq<u8>): seq<u8> {
    match h
    case None => Put(0, 1, rest)
    case Some(v) => Put(1, 1, Put(v, 8, rest))
  }

  function ReadHash(bs: seq<u8>): Parsed<Option<u64>> {
    var (flag, r) :- ReadU8(bs);
    if flag == 0 then Got(None, r)
    else var (v, r2) :- ReadU64(r); Got(Some(v), r2)
  }

  function PutMetadata(m: FileMetadata, rest: seq<u8>): seq<u8> {
    Put(m.sizeBytes, 8, PutTimes(m, Put(m.permissions, 4, Put(m.fileId, 8, Put(m.deviceId, 8, PutHash(m.contentHash, rest))))))
  }

  function PutTimes(m: FileMetadata, rest: seq<u8>): seq<u8> {
    Put(Unsigned(m.createdAt), 8, Put(Unsigned(m.modifiedAt), 8, Put(Unsigned(m.accessedAt), 8, rest)))
  }

  function ReadMetadata(bs: seq<u8>): Parsed<FileMetadata> {
    var (size, r1) :- ReadU64(bs);
    var (created, r2) :- ReadI64(r1);
    var (modified, r3) :- ReadI64(r2);
    var (accessed, r4) :- ReadI64(r3);
    var (permissions, r5) :- ReadU32(r4);
    var (fileId, r6) :- ReadU64(r5);
    var (deviceId, r7) :- ReadU64(r6);
    var (hash, r8) :- ReadHash(r7);
    Got(FileMetadata(size, created, modified, accessed, permissions, fileId, deviceId, hash), r8)
  }

  lemma HashRoundTrip(h: Option<u64>, rest: seq<u8>)
    ensures ReadHash(PutHash(h, rest)) == Got(h, rest)
  {
    hide ReadU8, ReadU64, Put;
    match h
    case None => FieldRoundTrip(0, rest);
    case Some(v) => FieldRoundTrip(1, Put(v, 8, rest)); FieldRoundTrip(v, rest);
  }

  lemma HashExtends(bs: seq<u8>, x: seq<u8>)
    requires ReadHash(bs).Got?
    ensures ReadHash(bs + x) == Got(ReadHash(bs).value, ReadHash(bs).rest + x)
  {
    hide ReadU16, ReadU8, ReadU32, ReadU64, ReadI64;
    FieldExtends(bs, x);
    FieldExtends(ReadU8(bs).rest, x);
  }

  lemma HashAppends(h: Option<u64>, rest: seq<u8>, x: seq<u8>)
    ensures PutHash(h, rest) + x == PutHash(h, rest + x)
  {
    hide Put;
    match h
    case None => PutAppends(0, 1, rest, x);
    case Some(v) => PutAppends(v, 8, rest, x); PutAppends(1, 1, Put(v, 8, rest), x);
  }

  lemma MetadataRoundTrip(m: FileMetadata, rest: seq<u8>)
    ensures ReadMetadata(PutMetadata(m, rest)) == Got(m, rest)
  {
    hide ReadU32, ReadU64, ReadI64, ReadHash, PutHash, Put;
    var r7 := PutHash(m.contentHash, rest);
    var r6 := Put(m.deviceId, 8, r7);
    var r5 := Put(m.fileId, 8, r6);
    var r4 := Put(m.permissions, 4, r5);
    var r3 := Put(Unsigned(m.accessedAt), 8, r4);
    var r2 := Put(Unsigned(m.modifiedAt), 8, r3);
    var r1 := Put(Unsigned(m.createdAt), 8, r2);
    FieldRoundTrip(m.sizeBytes, r1);
    SignedRoundTrip(m.createdAt, r2);
    SignedRoundTrip(m.modifiedAt, r3);
    SignedRoundTrip(m.accessedAt, r4);
    FieldRoundTrip(m.permissions, r5);
    FieldRoundTrip(m.fileId, r6);
    FieldRoundTrip(m.deviceId, r7);
    HashRoundTrip(m.contentHash, rest);
  }

  lemma MetadataExtends(bs: seq<u8>, x: seq<u8>)
    requires ReadMetadata(bs).Got?
    ensures ReadMetadata(bs + x) == Got(ReadMetadata(bs).value, ReadMetadata(bs).rest + x)
  {
    hide ReadU16, ReadU8, ReadU32, ReadU64, ReadI64, ReadHash;
    var r1 := ReadU64(bs).rest;
    var r2 := ReadI64(r1).rest;
    var r3 := ReadI64(r2).rest;
    var r4 := ReadI64(r3).rest;
    var r5 := ReadU32(r4).rest;
    var r6 := ReadU64(r5).rest;
    var r7 := ReadU64(r6).rest;
    FieldExtends(bs, x);
    FieldExtends(r1, x);
    FieldExtends(r2, x);
    FieldExtends(r3, x);
    FieldExtends(r4, x);
    FieldExtends(r5, x);
    FieldExtends(r6, x);
    HashExtends(r7, x);
  }

  lemma MetadataAppends(m: FileMetadata, rest: seq<u8>, x: seq<u8>)
    ensures PutMetadata(m, rest) + x == PutMetadata(m, rest + x)
  {
    hide PutHash, Put;
    var r7 := PutHash(m.contentHash, rest);
    var r6 := Put(m.deviceId, 8, r7);
    var r5 := Put(m.fileId, 8, r6);
    var r4 := Put(m.permissions, 4, r5);
    var r3 := Put(Unsigned(m.accessedAt), 8, r4);
    var r2 := Put(Unsigned(m.modifiedAt), 8, r3);
    var r1 := Put(Unsigned(m.createdAt), 8, r2);
    HashAppends(m.contentHash, rest, x);
    PutAppends(m.deviceId, 8, r7, x);
    PutAppends(m.fileId, 8, r6, x);
    PutAppends(m.permissions, 4, r5, x);
    PutAppends(Unsigned(m.accessedAt), 8, r4, x);
    PutAppends(Unsigned(m.modifiedAt), 8, r3, x);
    PutAppends(Unsigned(m.createdAt), 8, r2, x);
    PutAppends(m.sizeBytes, 8, r1, x);
  }

  function PutEntry(e: FileEntry, rest: seq<u8>): seq<u8> {
    Put(e.id, 8, Put(e.parentId, 8, PutString(e.path, PutString(e.name, Put(e.kind, 1, PutMetadata(e.metadata, rest))))))
  }

  function ReadEntry(bs: seq<u8>): Parsed<FileEntry> {
    var (id, r1) :- ReadU64(bs);
    var (parentId, r2) :- ReadU64(r1);
    var (path, r3) :- ReadString(r2);
    var (name, r4) :- ReadString(r3);
    var (kind, r5) :- ReadU8(r4);
    var (metadata, r6) :- ReadMetadata(r5);
    Got(FileEntry(id, parentId, path, name, kind, metadata), r6)
  }

  predicate EntryFits(e: FileEntry) {
    StringFits(e.path) && StringFits(e.name)
  }

  lemma EntryRoundTrip(e: FileEntry, rest: seq<u8>)
    requires EntryFits(e)
    ensures ReadEntry(PutEntry(e, rest)) == Got(e, rest)
  {
    hide ReadU8, ReadU64, ReadString, ReadMetadata, PutMetadata, PutString, Put;
    var r5 := PutMetadata(e.metadata, rest);
    var r4 := Put(e.kind, 1, r5);
    var r3 := PutString(e.name, r4);
    var r2 := PutString(e.path, r3);
    var r1 := Put(e.parentId, 8, r2);
    FieldRoundTrip(e.id, r1);
    FieldRoundTrip(e.parentId, r2);
    StringRoundTrip(e.path, r3);
    StringRoundTrip(e.name, r4);
    FieldRoundTrip(e.kind, r5);
    MetadataRoundTrip(e.metadata, rest);
  }

  lemma EntryExtends(bs: seq<u8>, x: seq<u8>)
    requires ReadEntry(bs).Got?
    ensures ReadEntry(bs + x) == Got(ReadEntry(bs).value, ReadEntry(bs).rest + x)
  {
    hide ReadU16, ReadU8, ReadU32, ReadU64, ReadI64, ReadString, ReadMetadata;
    var r1 := ReadU64(bs).rest;
    var r2 := ReadU64(r1).rest;
    var r3 := ReadString(r2).rest;
    var r4 := ReadString(r3).rest;
    var r5 := ReadU8(r4).rest;
    FieldExtends(bs, x);
    FieldExtends(r1, x);
    StringExtends(r2, x);
    StringExtends(r3, x);
    FieldExtends(r4, x);
    MetadataExtends(r5, x);
  }

  lemma EntryAppends(e: FileEntry, rest: seq<u8>, x: seq<u8>)
    ensures PutEntry(e, rest) + x == PutEntry(e, rest + x)
  {
    hide PutMetadata, PutString, Put;
    var r5 := PutMetadata(e.metadata, rest);
    var r4 := Put(e.kind, 1, r5);
    var r3 := PutString(e.name, r4);
    var r2 := PutString(e.path, r3);
    MetadataAppends(e.metadata, rest, x);
    PutAppends(e.kind, 1, r5, x);
    PutStringAppends(e.name, r4, x);
    PutStringAppends(e.path, r3, x);
    PutAppends(e.parentId, 8, r2, x);
    PutAppends(e.id, 8, Put(e.parentId, 8, r2), x);
  }

  // ---- Modified and renamed entries ----

  function PutModified(m: ModifiedEntry, rest: seq<u8>): seq<u8> {
    Put(m.entryId, 8, PutMetadata(m.before, PutMetadata(m.after, rest)))
  }

  function ReadModified(bs: seq<u8>): Parsed<ModifiedEntry> {
    var (id, r1) :- ReadU64(bs);
    var (before, r2) :- ReadMetadata(r1);
    var (after, r3) :- ReadMetadata(r2);
    Got(ModifiedEntry(id, before, after), r3)
  }

  lemma ModifiedRoundTrip(m: ModifiedEntry, rest: seq<u8>)
    ensures ReadModified(PutModified(m, rest)) == Got(m, rest)
  {
    hide ReadU64, ReadMetadata, PutMetadata, Put;
    FieldRoundTrip(m.entryId, PutMetadata(m.before, PutMetadata(m.after, rest)));
    MetadataRoundTrip(m.before, PutMetadata(m.after, rest));
    MetadataRoundTrip(m.after, rest);
  }

  lemma ModifiedExtends(bs: seq<u8>, x: seq<u8>)
    requires ReadModified(bs).Got?
    ensures ReadModified(bs + x) == Got(ReadModified(bs).value, ReadModified(bs).rest + x)
  {
    hide ReadU16, ReadU8, ReadU32, ReadU64, ReadI64, ReadMetadata;
    var r1 := ReadU64(bs).rest;
    FieldExtends(bs, x);
    MetadataExtends(r1, x);
    MetadataExtends(ReadMetadata(r1).rest, x);
  }

  lemma ModifiedAppends(m: ModifiedEntry, rest: seq<u8>, x: seq<u8>)
    ensures PutModified(m, rest) + x == PutModified(m, rest + x)
  {
    hide PutMetadata, Put;
    MetadataAppends(m.after, rest, x);
    MetadataAppends(m.before, PutMetadata(m.after, rest), x);
    PutAppends(m.entryId, 8, PutMetadata(m.before, PutMetadata(m.after, rest)), x);
  }

  function PutRenamed(m: RenamedEntry, rest: seq<u8>): seq<u8> {
    Put(m.beforeId, 8, Put(m.afterId, 8, PutString(m.oldPath, PutString(m.newPath, rest))))
  }

  function ReadRenamed(bs: seq<u8>): Parsed<RenamedEntry> {
    var (beforeId, r1) :- ReadU64(bs);
    var (afterId, r2) :- ReadU64(r1);
    var (oldPath, r3) :- ReadString(r2);
    var (newPath, r4) :- ReadString(r3);
    Got(RenamedEntry(beforeId, afterId, oldPath, newPath), r4)
  }

  predicate RenamedFits(m: RenamedEntry) {
    StringFits(m.oldPath) && StringFits(m.newPath)
  }

  lemma RenamedRoundTrip(m: RenamedEntry, rest: seq<u8>)
    requires RenamedFits(m)
    ensures ReadRenamed(PutRenamed(m, rest)) == Got(m, rest)
  {
    hide ReadU64, ReadString, PutString, Put;
    var r3 := PutString(m.newPath, rest);
    var r2 := PutString(m.oldPath, r3);
    FieldRoundTrip(m.beforeId, Put(m.afterId, 8, r2));
    FieldRoundTrip(m.afterId, r2);
    StringRoundTrip(m.oldPath, r3);
    StringRoundTrip(m.newPath, rest);
  }

  lemma RenamedExtends(bs: seq<u8>, x: seq<u8>)
    requires ReadRenamed(bs).Got?
    ensures ReadRenamed(bs + x) == Got(ReadRenamed(bs).value, ReadRenamed(bs).rest + x)
  {
    hide ReadU16, ReadU8, ReadU32, ReadU64, ReadI64, ReadString;
    var r1 := ReadU64(bs).rest;
    var r2 := ReadU64(r1).rest;
    FieldExtends(bs, x);
    FieldExtends(r1, x);
    StringExtends(r2, x);
    StringExtends(ReadString(r2).rest, x);
  }

  lemma RenamedAppends(m: RenamedEntry, rest: seq<u8>, x: seq<u8>)
    ensures PutRenamed(m, rest) + x == PutRenamed(m, rest + x)
  {
    hide PutString, Put;
    var r3 := PutString(m.newPath, rest);
    var r2 := PutString(m.oldPath, r3);
    PutStringAppends(m.newPath, rest, x);
    PutStringAppends(m.oldPath, r3, x);
    PutAppends(m.afterId, 8, r2, x);
    PutAppends(m.beforeId, 8, Put(m.afterId, 8, r2), x);
  }

  // ---- Lists, for any kind of element ----

  type Putter<!T> = (T, seq<u8>) -> seq<u8>
  type Reader<!T> = seq<u8> -> Parsed<T>

  function PutAll<T>(put: Putter<T>, xs: seq<T>, rest: seq<u8>): seq<u8> {
    if xs == [] then rest else put(xs[0], PutAll(put, xs[1..], rest))
  }

  function ReadAll<T>(read: Reader<T>, n: nat, bs: seq<u8>): Parsed<seq<T>> {
    if n == 0 then Got([], bs)
    else
      var (x, r1) :- read(bs);
      var (xs, r2) :- ReadAll(read, n - 1, r1);
      Got([x] + xs, r2)
  }

  ghost predicate RoundTrips<T(!new)>(put: Putter<T>, read: Reader<T>, xs: seq<T>) {
    forall x, rest {:trigger put(x, rest)} :: x in xs ==> read(put(x, rest)) == Got(x, rest)
  }

  ghost predicate Extends<T>(read: Reader<T>) {
    forall bs, x {:trigger read(bs + x)} :: read(bs).Got? ==> read(bs + x) == Got(read(bs).value, read(bs).rest + x)
  }

  ghost predicate Appends<T(!new)>(put: Putter<T>) {
    forall v, rest, x {:trigger put(v, rest + x)} :: put(v, rest) + x == put(v, rest + x)
  }

  lemma {:induction false} ListRoundTrip<T(!new)>(put: Putter<T>, read: Reader<T>, xs: seq<T>, rest: seq<u8>)
    requires RoundTrips(put, read, xs)
    ensures ReadAll(read, |xs|, PutAll(put, xs, rest)) == Got(xs, rest)
  {
    if xs != [] {
      ListRoundTrip(put, read, xs[1..], rest);
      assert [xs[0]] + xs[1..] == xs;
    }
  }

  lemma {:induction false} ListExtends<T>(read: Reader<T>, n: nat, bs: seq<u8>, x: seq<u8>)
    requires Extends(read) && ReadAll(read, n, bs).Got?
    ensures ReadAll(read, n, bs + x) == Got(ReadAll(read, n, bs).value, ReadAll(read, n, bs).rest + x)
  {
    if n > 0 {
      assert read(bs + x) == Got(read(bs).value, read(bs).rest + x);
      ListExtends(read, n - 1, read(bs).rest, x);
    }
  }

  lemma {:induction false} ListAppends<T(!new)>(put: Putter<T>, xs: seq<T>, rest: seq<u8>, x: seq<u8>)
    requires Appends(put)
    ensures PutAll(put, xs, rest) + x == PutAll(put, xs, rest + x)
  {
    if xs != [] {
      ListAppends(put, xs[1..], rest, x);
      assert put(xs[0], PutAll(put, xs[1..], rest)) + x == put(xs[0], PutAll(put, xs[1..], rest) + x);
    }
  }

  lemma ElementLaws(entries: seq<FileEntry>, modified: seq<ModifiedEntry>, renamed: seq<RenamedEntry>)
    requires forall i :: 0 <= i < |entries| ==> EntryFits(entries[i])
    requires forall i :: 0 <= i < |renamed| ==> RenamedFits(renamed[i])
    ensures RoundTrips(PutEntry, ReadEntry, entries) && RoundTrips(PutModified, ReadModified, modified)
    ensures RoundTrips(PutRenamed, ReadRenamed, renamed)
  {
    hide PutEntry, ReadEntry, PutModified, ReadModified, PutRenamed, ReadRenamed, EntryFits, RenamedFits;
    forall e, rest | e in entries ensures ReadEntry(PutEntry(e, rest)) == Got(e, rest) { EntryRoundTrip(e, rest); }
    forall m, rest | m in modified ensures ReadModified(PutModified(m, rest)) == Got(m, rest) { ModifiedRoundTrip(m, rest); }
    forall m, rest | m in renamed ensures ReadRenamed(PutRenamed(m, rest)) == Got(m, rest) { RenamedRoundTrip(m, rest); }
  }

  lemma ElementsExtend()
    ensures Extends(ReadEntry) && Extends(ReadModified) && Extends(ReadRenamed)
  {
    hide ReadEntry, ReadModified, ReadRenamed;
    forall bs, x | ReadEntry(bs).Got? ensures ReadEntry(bs + x) == Got(ReadEntry(bs).value, ReadEntry(bs).rest + x) {
      EntryExtends(bs, x);
    }
    forall bs, x | ReadModified(bs).Got? ensures ReadModified(bs + x) == Got(ReadModified(bs).value, ReadModified(bs).rest + x) {
      ModifiedExtends(bs, x);
    }
    forall bs, x | ReadRenamed(bs).Got? ensures ReadRenamed(bs + x) == Got(ReadRenamed(bs).value, ReadRenamed(bs).rest + x) {
      RenamedExtends(bs, x);
    }
  }

  lemma ElementsAppend()
    ensures Appends(PutEntry) && Appends(PutModified) && Appends(PutRenamed)
  {
    hide PutEntry, PutModified, PutRenamed;
    forall e, rest, x ensures PutEntry(e, rest) + x == PutEntry(e, rest + x) { EntryAppends(e, rest, x); }
    forall m, rest, x ensures PutModified(m, rest) + x == PutModified(m, rest + x) { ModifiedAppends(m, rest, x); }
    forall m, rest, x ensures PutRenamed(m, rest) + x == PutRenamed(m, rest + x) { RenamedAppends(m, rest, x); }
  }

  // ---- Snapshots ----

  function PutSnapshot(s: Snapshot, rest: seq<u8>): seq<u8> {
    PutHeader(SNAPSHOT_MAGIC, PutSchema(s.schema, Put(s.snapshotId, 8, Put(Unsigned(s.createdAt), 8,
      PutString(s.hostIdentifier, Put(s.rootEntryId, 8, Put(|s.entries|, 4, PutAll(PutEntry, s.entries, rest))))))))
  }

  /** What is written for a snapshot. */
  function SnapshotBytes(s: Snapshot): seq<u8> {
    PutSnapshot(s, [])
  }

  function ReadSnapshot(bs: seq<u8>): Parsed<Snapshot> {
    var (_, r0) :- ReadHeader(bs, SNAPSHOT_MAGIC);
    var (schema, r1) :- ReadSchema(r0);
    var (id, r2) :- ReadU64(r1);
    var (createdAt, r3) :- ReadI64(r2);
    var (host, r4) :- ReadString(r3);
    var (root, r5) :- ReadU64(r4);
    var (count, r6) :- ReadU32(r5);
    if count > MAX_ENTRIES then Fail(EntryCountTooLarge)
    else
      var (entries, r7) :- ReadAll(ReadEntry, count, r6);
      Got(Snapshot(schema, id, createdAt, host, root, entries), r7)
  }

  predicate SnapshotFits(s: Snapshot) {
    && StringFits(s.hostIdentifier) && |s.entries| <= MAX_ENTRIES
    && forall i :: 0 <= i < |s.entries| ==> EntryFits(s.entries[i])
  }

  lemma PutSnapshotRoundTrip(s: Snapshot, rest: seq<u8>)
    requires SnapshotFits(s)
    ensures ReadSnapshot(PutSnapshot(s, rest)) == Got(s, rest)
  {
    hide ReadHeader, ReadSchema, ReadU32, ReadU64, ReadI64, ReadString, ReadEntry, ReadAll,
         PutHeader, PutSchema, PutString, PutEntry, Put, PutAll, RoundTrips, EntryFits;
    var r6 := PutAll(PutEntry, s.entries, rest);
    var r5 := Put(|s.entries|, 4, r6);
    var r4 := Put(s.rootEntryId, 8, r5);
    var r3 := PutString(s.hostIdentifier, r4);
    var r2 := Put(Unsigned(s.createdAt), 8, r3);
    var r1 := Put(s.snapshotId, 8, r2);
    HeaderRoundTrip(SNAPSHOT_MAGIC, PutSchema(s.schema, r1));
    SchemaRoundTrip(s.schema, r1);
    FieldRoundTrip(s.snapshotId, r2);
    SignedRoundTrip(s.createdAt, r3);
    StringRoundTrip(s.hostIdentifier, r4);
    FieldRoundTrip(s.rootEntryId, r5);
    FieldRoundTrip(|s.entries|, r6);
    ElementLaws(s.entries, [], []);
    ListRoundTrip(PutEntry, ReadEntry, s.entries, rest);
  }

  /** Main result: within the limits, reading what was written, with anything behind it, gives the
      snapshot back and leaves exactly what was behind it. */
  lemma SnapshotRoundTrip(s: Snapshot, suffix: seq<u8>)
    requires SnapshotFits(s)
    ensures ReadSnapshot(SnapshotBytes(s) + suffix) == Got(s, suffix)
  {
    hide ReadSnapshot, PutSnapshot, SnapshotFits;
    SnapshotAppends(s, [], suffix);
    assert [] + suffix == suffix;
    PutSnapshotRoundTrip(s, suffix);
  }

  lemma SnapshotAppends(s: Snapshot, rest: seq<u8>, x: seq<u8>)
    ensures PutSnapshot(s, rest) + x == PutSnapshot(s, rest + x)
  {
    hide PutHeader, PutSchema, PutString, PutEntry, Put, PutAll, Appends;
    var r6 := PutAll(PutEntry, s.entries, rest);
    var r5 := Put(|s.entries|, 4, r6);
    var r4 := Put(s.rootEntryId, 8, r5);
    var r3 := PutString(s.hostIdentifier, r4);
    var r2 := Put(Unsigned(s.createdAt), 8, r3);
    var r1 := Put(s.snapshotId, 8, r2);
    ElementsAppend();
    ListAppends(PutEntry, s.entries, rest, x);
    PutAppends(|s.entries|, 4, r6, x);
    PutAppends(s.rootEntryId, 8, r5, x);
    PutStringAppends(s.hostIdentifier, r4, x);
    PutAppends(Unsigned(s.createdAt), 8, r3, x);
    PutAppends(s.snapshotId, 8, r2, x);
    SchemaAppends(s.schema, r1, x);
    HeaderAppends(SNAPSHOT_MAGIC, PutSchema(s.schema, r1), x);
  }

  lemma SnapshotExtends(bs: seq<u8>, x: seq<u8>)
    requires ReadSnapshot(bs).Got?
    ensures ReadSnapshot(bs + x) == Got(ReadSnapshot(bs).value, ReadSnapshot(bs).rest + x)
  {
    hide ReadHeader, ReadSchema, ReadU8, ReadU16, ReadU32, ReadU64, ReadI64, ReadString, ReadEntry, ReadAll, Extends;
    var r0 := ReadHeader(bs, SNAPSHOT_MAGIC).rest;
    var r1 := ReadSchema(r0).rest;
    var r2 := ReadU64(r1).rest;
    var r3 := ReadI64(r2).rest;
    var r4 := ReadString(r3).rest;
    var r5 := ReadU64(r4).rest;
    HeaderExtends(bs, SNAPSHOT_MAGIC, x);
    SchemaExtends(r0, x);
    FieldExtends(r1, x);
    FieldExtends(r2, x);
    StringExtends(r3, x);
    FieldExtends(r4, x);
    FieldExtends(r5, x);
    ElementsExtend();
    ListExtends(ReadEntry, ReadU32(r5).value, ReadU32(r5).rest, x);
  }

  /** Main result: no strict prefix of a written snapshot is accepted. */
  lemma SnapshotPrefixRejected(s: Snapshot, n: nat)
    requires SnapshotFits(s) && n < |SnapshotBytes(s)|
    ensures ReadSnapshot(SnapshotBytes(s)[..n]).Fail?
  {
    hide ReadSnapshot, PutSnapshot;
    var all := SnapshotBytes(s);
    var p, x := all[..n], all[n..];
    assert p + x == all && all + [] == all;
    SnapshotRoundTrip(s, []);
    if ReadSnapshot(p).Got? {
      SnapshotExtends(p, x);
    }
  }

  // ---- Deltas ----

  function PutDelta(d: DeltaSnapshot, rest: seq<u8>): seq<u8> {
    PutHeader(DELTA_MAGIC, PutSchema(d.schema, Put(d.baseSnapshotId, 8, Put(d.targetSnapshotId, 8,
      PutCounts(d, PutOperations(d, rest))))))
  }

  function PutCounts(d: DeltaSnapshot, rest: seq<u8>): seq<u8> {
    Put(|d.added|, 4, Put(|d.removed|, 4, Put(|d.modified|, 4, Put(|d.renamed|, 4, rest))))
  }

  function PutOperations(d: DeltaSnapshot, rest: seq<u8>): seq<u8> {
    PutAll(PutEntry, d.added, PutAll(PutEntry, d.removed, PutAll(PutModified, d.modified, PutAll(PutRenamed, d.renamed, rest))))
  }

  function DeltaBytes(d: DeltaSnapshot): seq<u8> {
    PutDelta(d, [])
  }

  /** Ids, counts and operation lists, in the order in which they are read. */
  datatype Counts = Counts(added: u32, removed: u32, modified: u32, renamed: u32)

  function ReadCounts(bs: seq<u8>): Parsed<Counts> {
    var (added, r1) :- ReadU32(bs);
    var (removed, r2) :- ReadU32(r1);
    var (modified, r3) :- ReadU32(r2);
    var (renamed, r4) :- ReadU32(r3);
    Got(Counts(added, removed, modified, renamed), r4)
  }

  function ReadOperations(n: Counts, head: DeltaSnapshot, bs: seq<u8>): Parsed<DeltaSnapshot> {
    var (added, r1) :- ReadAll(ReadEntry, n.added, bs);
    var (removed, r2) :- ReadAll(ReadEntry, n.removed, r1);
    var (modified, r3) :- ReadAll(ReadModified, n.modified, r2);
    var (renamed, r4) :- ReadAll(ReadRenamed, n.renamed, r3);
    Got(head.(added := added, removed := removed, modified := modified, renamed := renamed), r4)
  }

  predicate CountsFit(n: Counts) {
    n.added <= MAX_ENTRIES && n.removed <= MAX_ENTRIES && n.modified <= MAX_ENTRIES && n.renamed <= MAX_ENTRIES
  }

  function ReadDelta(bs: seq<u8>): Parsed<DeltaSnapshot> {
    var (_, r0) :- ReadHeader(bs, DELTA_MAGIC);
    var (schema, r1) :- ReadSchema(r0);
    var (base, r2) :- ReadU64(r1);
    var (target, r3) :- ReadU64(r2);
    var (n, r4) :- ReadCounts(r3);
    if !CountsFit(n) then Fail(EntryCountTooLarge)
    else ReadOperations(n, DeltaSnapshot(schema, base, target, [], [], [], []), r4)
  }

  predicate DeltaFits(d: DeltaSnapshot) {
    && |d.added| <= MAX_ENTRIES && |d.removed| <= MAX_ENTRIES && |d.modified| <= MAX_ENTRIES && |d.renamed| <= MAX_ENTRIES
    && (forall i :: 0 <= i < |d.added| ==> EntryFits(d.added[i]))
    && (forall i :: 0 <= i < |d.removed| ==> EntryFits(d.removed[i]))
    && (forall i :: 0 <= i < |d.renamed| ==> RenamedFits(d.renamed[i]))
  }

  function CountsOf(d: DeltaSnapshot): Counts
    requires DeltaFits(d)
  {
    Counts(|d.added|, |d.removed|, |d.modified|, |d.renamed|)
  }

  lemma CountsRoundTrip(d: DeltaSnapshot, rest: seq<u8>)
    requires DeltaFits(d)
    ensures ReadCounts(PutCounts(d, rest)) == Got(CountsOf(d), rest)
  {
    hide ReadU32, Put, EntryFits, RenamedFits;
    var r3 := Put(|d.renamed|, 4, rest);
    var r2 := Put(|d.modified|, 4, r3);
    FieldRoundTrip(|d.added|, Put(|d.removed|, 4, r2));
    FieldRoundTrip(|d.removed|, r2);
    FieldRoundTrip(|d.modified|, r3);
    FieldRoundTrip(|d.renamed|, rest);
  }

  lemma OperationsRoundTrip(d: DeltaSnapshot, head: DeltaSnapshot, rest: seq<u8>)
    requires DeltaFits(d) && head == d.(added := [], removed := [], modified := [], renamed := [])
    ensures ReadOperations(CountsOf(d), head, PutOperations(d, rest)) == Got(d, rest)
  {
    hide ReadAll, PutAll, RoundTrips, EntryFits, RenamedFits;
    ElementLaws(d.added, d.modified, d.renamed);
    ElementLaws(d.removed, d.modified, d.renamed);
    var r3 := PutAll(PutRenamed, d.renamed, rest);
    var r2 := PutAll(PutModified, d.modified, r3);
    ListRoundTrip(PutEntry, ReadEntry, d.added, PutAll(PutEntry, d.removed, r2));
    ListRoundTrip(PutEntry, ReadEntry, d.removed, r2);
    ListRoundTrip(PutModified, ReadModified, d.modified, r3);
    ListRoundTrip(PutRenamed, ReadRenamed, d.renamed, rest);
  }

  lemma PutDeltaRoundTrip(d: DeltaSnapshot, rest: seq<u8>)
    requires DeltaFits(d)
    ensures ReadDelta(PutDelta(d, rest)) == Got(d, rest)
  {
    hide ReadHeader, ReadSchema, ReadU64, ReadCounts, ReadOperations, PutHeader, PutSchema, Put, PutCounts, PutOperations, EntryFits, RenamedFits;
    var head := DeltaSnapshot(d.schema, d.baseSnapshotId, d.targetSnapshotId, [], [], [], []);
    var r4 := PutOperations(d, rest);
    var r3 := PutCounts(d, r4);
    var r2 := Put(d.targetSnapshotId, 8, r3);
    var r1 := Put(d.baseSnapshotId, 8, r2);
    HeaderRoundTrip(DELTA_MAGIC, PutSchema(d.schema, r1));
    SchemaRoundTrip(d.schema, r1);
    FieldRoundTrip(d.baseSnapshotId, r2);
    FieldRoundTrip(d.targetSnapshotId, r3);
    CountsRoundTrip(d, r4);
    OperationsRoundTrip(d, head, rest);
  }

  /** Main result: the same for deltas. */
  lemma DeltaRoundTrip(d: DeltaSnapshot, suffix: seq<u8>)
    requires DeltaFits(d)
    ensures ReadDelta(DeltaBytes(d) + suffix) == Got(d, suffix)
  {
    hide ReadDelta, PutDelta, DeltaFits;
    DeltaAppends(d, [], suffix);
    assert [] + suffix == suffix;
    PutDeltaRoundTrip(d, suffix);
  }

  lemma CountsAppends(d: DeltaSnapshot, rest: seq<u8>, x: seq<u8>)
    ensures PutCounts(d, rest) + x == PutCounts(d, rest + x)
  {
    hide Put;
    var r3 := Put(|d.renamed|, 4, rest);
    var r2 := Put(|d.modified|, 4, r3);
    PutAppends(|d.renamed|, 4, rest, x);
    PutAppends(|d.modified|, 4, r3, x);
    PutAppends(|d.removed|, 4, r2, x);
    PutAppends(|d.added|, 4, Put(|d.removed|, 4, r2), x);
  }

  lemma OperationsAppends(d: DeltaSnapshot, rest: seq<u8>, x: seq<u8>)
    ensures PutOperations(d, rest) + x == PutOperations(d, rest + x)
  {
    hide PutAll, Appends;
    ElementsAppend();
    var r3 := PutAll(PutRenamed, d.renamed, rest);
    var r2 := PutAll(PutModified, d.modified, r3);
    ListAppends(PutRenamed, d.renamed, rest, x);
    ListAppends(PutModified, d.modified, r3, x);
    ListAppends(PutEntry, d.removed, r2, x);
    ListAppends(PutEntry, d.added, PutAll(PutEntry, d.removed, r2), x);
  }

  lemma DeltaAppends(d: DeltaSnapshot, rest: seq<u8>, x: seq<u8>)
    ensures PutDelta(d, rest) + x == PutDelta(d, rest + x)
  {
    hide PutHeader, PutSchema, Put, PutCounts, PutOperations;
    var r4 := PutOperations(d, rest);
    var r3 := PutCounts(d, r4);
    var r2 := Put(d.targetSnapshotId, 8, r3);
    var r1 := Put(d.baseSnapshotId, 8, r2);
    OperationsAppends(d, rest, x);
    CountsAppends(d, r4, x);
    PutAppends(d.targetSnapshotId, 8, r3, x);
    PutAppends(d.baseSnapshotId, 8, r2, x);
    SchemaAppends(d.schema, r1, x);
    HeaderAppends(DELTA_MAGIC, PutSchema(d.schema, r1), x);
  }

  lemma CountsExtends(bs: seq<u8>, x: seq<u8>)
    requires ReadCounts(bs).Got?
    ensures ReadCounts(bs + x) == Got(ReadCounts(bs).value, ReadCounts(bs).rest + x)
  {
    hide ReadU8, ReadU16, ReadU32, ReadU64, ReadI64;
    var r1 := ReadU32(bs).rest;
    var r2 := ReadU32(r1).rest;
    FieldExtends(bs, x);
    FieldExtends(r1, x);
    FieldExtends(r2, x);
    FieldExtends(ReadU32(r2).rest, x);
  }

  lemma OperationsExtends(n: Counts, head: DeltaSnapshot, bs: seq<u8>, x: seq<u8>)
    requires ReadOperations(n, head, bs).Got?
    ensures ReadOperations(n, head, bs + x) == Got(ReadOperations(n, head, bs).value, ReadOperations(n, head, bs).rest + x)
  {
    hide ReadAll, Extends;
    ElementsExtend();
    var r1 := ReadAll(ReadEntry, n.added, bs).rest;
    var r2 := ReadAll(ReadEntry, n.removed, r1).rest;
    var r3 := ReadAll(ReadModified, n.modified, r2).rest;
    ListExtends(ReadEntry, n.added, bs, x);
    ListExtends(ReadEntry, n.removed, r1, x);
    ListExtends(ReadModified, n.modified, r2, x);
    ListExtends(ReadRenamed, n.renamed, r3, x);
  }

  lemma DeltaExtends(bs: seq<u8>, x: seq<u8>)
    requires ReadDelta(bs).Got?
    ensures ReadDelta(bs + x) == Got(ReadDelta(bs).value, ReadDelta(bs).rest + x)
  {
    hide ReadHeader, ReadSchema, ReadU8, ReadU16, ReadU32, ReadU64, ReadI64, ReadCounts, ReadOperations;
    var r0 := ReadHeader(bs, DELTA_MAGIC).rest;
    var r1 := ReadSchema(r0).rest;
    var r2 := ReadU64(r1).rest;
    var r3 := ReadU64(r2).rest;
    HeaderExtends(bs, DELTA_MAGIC, x);
    SchemaExtends(r0, x);
    FieldExtends(r1, x);
    FieldExtends(r2, x);
    CountsExtends(r3, x);
    var head := DeltaSnapshot(ReadSchema(r0).value, ReadU64(r1).value, ReadU64(r2).value, [], [], [], []);
    OperationsExtends(ReadCounts(r3).value, head, ReadCounts(r3).rest, x);
  }

  lemma DeltaPrefixRejected(d: DeltaSnapshot, n: nat)
    requires DeltaFits(d) && n < |DeltaBytes(d)|
    ensures ReadDelta(DeltaBytes(d)[..n]).Fail?
  {
    hide ReadDelta, PutDelta;
    var all := DeltaBytes(d);
    var p, x := all[..n], all[n..];
    assert p + x == all && all + [] == all;
    DeltaRoundTrip(d, []);
    if ReadDelta(p).Got? {
      DeltaExtends(p, x);
    }
  }
}
