/** The binary writer and reader over a stream, and the serialisers built on them. */
module SerializationStreams {
  import opened Bytes
  import opened Domain
  import S = Serialization

  // ---- Writing ----

  class BinaryWriter {
    var data: seq<u8>
    var status: Option<S.Code>

    constructor ()
      ensures data == [] && status == None
    {
      data, status := [], None;
    }

    method WriteBytes(bs: seq<u8>) returns (ok: bool)
      modifies this`data
      ensures ok <==> status.None?
      ensures data == if ok then old(data) + bs else old(data)
    {
      if status.Some? {
        return false;
      }
      data := data + bs;
      ok := true;
    }

    method WriteU8(v: u8) returns (ok: bool)
      modifies this`data
      ensures ok <==> status.None?
      ensures ok ==> data == old(data) + Little(v, 1)
    {
      assert Little(v / 256, 0) == [];
      ok := WriteBytes([v]);
    }

    method WriteU16(v: u16) returns (ok: bool)
      modifies this`data
      ensures ok <==> status.None?
      ensures ok ==> data == old(data) + Little(v, 2)
    {
      var bytes := EncodeU16Little(v);
      ok := WriteBytes(bytes);
    }

    method WriteU32(v: u32) returns (ok: bool)
      modifies this`data
      ensures ok <==> status.None?
      ensures ok ==> data == old(data) + Little(v, 4)
    {
      var bytes := EncodeU32Little(v);
      ok := WriteBytes(bytes);
    }

    method WriteU64(v: u64) returns (ok: bool)
      modifies this`data
      ensures ok <==> status.None?
      ensures ok ==> data == old(data) + Little(v, 8)
    {
      var bytes := EncodeU64Little(v);
      ok := WriteBytes(bytes);
    }

    method WriteI64(v: i64) returns (ok: bool)
      modifies this`data
      ensures ok <==> status.None?
      ensures ok ==> data == old(data) + Little(Unsigned(v), 8)
    {
      ok := WriteU64(Unsigned(v));
    }

    method WriteString(v: string) returns (ok: bool)
      modifies this
      ensures old(status).None? ==> (ok <==> |v| <= S.MAX_STRING_LENGTH)
      ensures ok ==> data == old(data) + S.PutString(v, []) && status == old(status)
      ensures !ok && old(status).None? ==> status == Some(S.StringTooLarge)
    {
      if |v| > S.MAX_STRING_LENGTH {
        status := Some(S.StringTooLarge);
        return false;
      }
      ok := WriteU32(|v|);
      if !ok {
        return;
      }
      ok := WriteBytes(ToBytes(v));
    }

    // Composite values are written by one primitive after the other.

    method WriteSchema(h: SchemaHeader) returns (ok: bool)
      requires status.None?
      modifies this`data
      ensures ok && data == old(data) + S.PutSchema(h, [])
    {
      hide Little;
      ok := WriteU16(h.major);
      ok := WriteU16(h.minor);
      ok := WriteU16(h.patch);
      ok := WriteU16(h.minReaderMajor);
    }

    method WriteHeader(magic: u32) returns (ok: bool)
      requires status.None?
      modifies this`data
      ensures ok && data == old(data) + S.PutHeader(magic, [])
    {
      hide Little;
      ok := WriteU32(magic);
      ok := WriteU16(S.FORMAT_MAJOR);
      ok := WriteU16(S.FORMAT_MINOR);
    }

    method WriteMetadata(m: FileMetadata) returns (ok: bool)
      requires status.None?
      modifies this`data
      ensures ok && data == old(data) + S.PutMetadata(m, [])
    {
      hide Little;
      ok := WriteU64(m.sizeBytes);
      ok := WriteI64(m.createdAt);
      ok := WriteI64(m.modifiedAt);
      ok := WriteI64(m.accessedAt);
      ok := WriteU32(m.permissions);
      ok := WriteU64(m.fileId);
      ok := WriteU64(m.deviceId);
      ghost var fixed := data;
      ok := WriteU8(if m.contentHash.Some? then 1 else 0);
      if m.contentHash.Some? {
        ok := WriteU64(m.contentHash.value);
      }
      assert data == fixed + S.PutHash(m.contentHash, []);
    }

    method WriteEntry(e: FileEntry) returns (ok: bool)
      requires status.None?
      modifies this
      ensures ok <==> LengthsFit(e)
      ensures ok ==> data == old(data) + S.PutEntry(e, []) && status.None?
      ensures !ok ==> status == Some(S.StringTooLarge)
    {
      hide Little, S.PutString, S.PutMetadata;
      ok := WriteU64(e.id);
      ok := WriteU64(e.parentId);
      ghost var ids := data;
      ok := WriteString(e.path);
      if !ok {
        return;
      }
      ok := WriteString(e.name);
      if !ok {
        return;
      }
      ghost var names := data;
      ok := WriteU8(e.kind);
      ok := WriteMetadata(e.metadata);
      assert data == names + S.Put(e.kind, 1, S.PutMetadata(e.metadata, []));
      S.PutStringAppends(e.name, [], S.Put(e.kind, 1, S.PutMetadata(e.metadata, [])));
      S.PutStringAppends(e.path, [], S.PutString(e.name, S.Put(e.kind, 1, S.PutMetadata(e.metadata, []))));
      NothingInFront(S.Put(e.kind, 1, S.PutMetadata(e.metadata, [])));
      NothingInFront(S.PutString(e.name, S.Put(e.kind, 1, S.PutMetadata(e.metadata, []))));
      assert data == ids + S.PutString(e.path, S.PutString(e.name, S.Put(e.kind, 1, S.PutMetadata(e.metadata, []))));
    }

    method WriteEntries(es: seq<FileEntry>) returns (ok: bool)
      requires status.None?
      modifies this
      ensures ok <==> forall i :: 0 <= i < |es| ==> LengthsFit(es[i])
      ensures ok ==> data == old(data) + S.PutAll(S.PutEntry, es, []) && status.None?
      ensures !ok ==> status == Some(S.StringTooLarge)
    {
      hide S.PutEntry;
      ok := true;
      for i := 0 to |es|
        invariant status.None? && forall j :: 0 <= j < i ==> LengthsFit(es[j])
        invariant data + S.PutAll(S.PutEntry, es[i..], []) == old(data) + S.PutAll(S.PutEntry, es, [])
      {
        ghost var tail := S.PutAll(S.PutEntry, es[i + 1..], []);
        assert es[i..][1..] == es[i + 1..];
        S.EntryAppends(es[i], [], tail);
        NothingInFront(tail);
        ok := WriteEntry(es[i]);
        if !ok {
          return;
        }
      }
      assert es[|es|..] == [];
    }

    method WriteChange(m: ModifiedEntry) returns (ok: bool)
      requires status.None?
      modifies this`data
      ensures ok && data == old(data) + S.PutModified(m, [])
    {
      hide S.PutModified, Little, S.PutMetadata;
      ok := WriteU64(m.entryId);
      ok := WriteMetadata(m.before);
      ok := WriteMetadata(m.after);
      ModifiedPieces(m);
    }

    method WriteModified(ms: seq<ModifiedEntry>) returns (ok: bool)
      requires status.None?
      modifies this`data
      ensures ok && data == old(data) + S.PutAll(S.PutModified, ms, [])
    {
      hide S.PutModified;
      ok := true;
      for i := 0 to |ms|
        invariant ok && data + S.PutAll(S.PutModified, ms[i..], []) == old(data) + S.PutAll(S.PutModified, ms, [])
      {
        ghost var tail := S.PutAll(S.PutModified, ms[i + 1..], []);
        assert ms[i..][1..] == ms[i + 1..];
        S.ModifiedAppends(ms[i], [], tail);
        NothingInFront(tail);
        ok := WriteChange(ms[i]);
      }
      assert ms[|ms|..] == [];
    }

    method WriteRename(r: RenamedEntry) returns (ok: bool)
      requires status.None?
      modifies this
      ensures ok <==> RenamedLengthsFit(r)
      ensures ok ==> data == old(data) + S.PutRenamed(r, []) && status.None?
      ensures !ok ==> status == Some(S.StringTooLarge)
    {
      hide S.PutRenamed, Little, S.PutString;
      ok := WriteU64(r.beforeId);
      ok := WriteU64(r.afterId);
      ok := WriteString(r.oldPath);
      if !ok {
        return;
      }
      ok := WriteString(r.newPath);
      RenamedPieces(r);
    }

    method WriteRenamed(rs: seq<RenamedEntry>) returns (ok: bool)
      requires status.None?
      modifies this
      ensures ok <==> forall i :: 0 <= i < |rs| ==> RenamedLengthsFit(rs[i])
      ensures ok ==> data == old(data) + S.PutAll(S.PutRenamed, rs, []) && status.None?
      ensures !ok ==> status == Some(S.StringTooLarge)
    {
      hide S.PutRenamed;
      ok := true;
      for i := 0 to |rs|
        invariant ok && status.None? && forall j :: 0 <= j < i ==> RenamedLengthsFit(rs[j])
        invariant data + S.PutAll(S.PutRenamed, rs[i..], []) == old(data) + S.PutAll(S.PutRenamed, rs, [])
      {
        ghost var tail := S.PutAll(S.PutRenamed, rs[i + 1..], []);
        assert rs[i..][1..] == rs[i + 1..];
        S.RenamedAppends(rs[i], [], tail);
        NothingInFront(tail);
        ok := WriteRename(rs[i]);
        if !ok {
          return;
        }
      }
      assert rs[|rs|..] == [];
    }
  }

  predicate LengthsFit(e: FileEntry) {
    |e.path| <= S.MAX_STRING_LENGTH && |e.name| <= S.MAX_STRING_LENGTH
  }

  predicate RenamedLengthsFit(m: RenamedEntry) {
    |m.oldPath| <= S.MAX_STRING_LENGTH && |m.newPath| <= S.MAX_STRING_LENGTH
  }

  lemma NothingInFront(bs: seq<u8>)
    ensures [] + bs == bs
  {}

  lemma ModifiedPieces(m: ModifiedEntry)
    ensures Little(m.entryId, 8) + S.PutMetadata(m.before, []) + S.PutMetadata(m.after, []) == S.PutModified(m, [])
  {
    hide S.PutMetadata;
    S.MetadataAppends(m.before, [], S.PutMetadata(m.after, []));
    NothingInFront(S.PutMetadata(m.after, []));
  }

  lemma RenamedPieces(m: RenamedEntry)
    ensures Little(m.beforeId, 8) + Little(m.afterId, 8) + S.PutString(m.oldPath, []) + S.PutString(m.newPath, []) == S.PutRenamed(m, [])
  {
    hide S.PutString;
    S.PutStringAppends(m.oldPath, [], S.PutString(m.newPath, []));
    NothingInFront(S.PutString(m.newPath, []));
  }

  /** The first limit a snapshot breaks, in the order in which the program checks. */
  function SnapshotError(s: Snapshot): Option<S.Code> {
    if |s.hostIdentifier| > S.MAX_STRING_LENGTH then Some(S.StringTooLarge)
    else if |s.entries| > S.MAX_ENTRIES then Some(S.EntryCountTooLarge)
    else if exists i :: 0 <= i < |s.entries| && !LengthsFit(s.entries[i]) then Some(S.StringTooLarge)
    else None
  }

  method SerializeSnapshot(s: Snapshot) returns (error: Option<S.Code>, stream: seq<u8>)
    ensures error == SnapshotError(s)
    ensures error.None? ==> stream == S.SnapshotBytes(s)
  {
    hide S.PutHeader, S.PutSchema, S.PutString, S.PutAll, Little;
    var writer := new BinaryWriter();
    var ok := writer.WriteHeader(S.SNAPSHOT_MAGIC);
    ok := writer.WriteSchema(s.schema);
    ok := writer.WriteU64(s.snapshotId);
    ok := writer.WriteI64(s.createdAt);
    ok := writer.WriteString(s.hostIdentifier);
    stream := writer.data;
    if !ok {
      return writer.status, stream;
    }
    ok := writer.WriteU64(s.rootEntryId);
    if |s.entries| > S.MAX_ENTRIES {
      return Some(S.EntryCountTooLarge), writer.data;
    }
    ok := writer.WriteU32(|s.entries|);
    ok := writer.WriteEntries(s.entries);
    SnapshotPieces(s);
    return writer.status, writer.data;
  }

  lemma SnapshotPieces(s: Snapshot)
    ensures S.PutHeader(S.SNAPSHOT_MAGIC, []) + S.PutSchema(s.schema, []) + Little(s.snapshotId, 8) + Little(Unsigned(s.createdAt), 8)
      + S.PutString(s.hostIdentifier, []) + Little(s.rootEntryId, 8) + Little(|s.entries|, 4) + S.PutAll(S.PutEntry, s.entries, [])
      == S.SnapshotBytes(s)
  {
    hide S.PutHeader, S.PutSchema, S.PutString, S.PutAll, Little;
    var tail := S.Put(s.rootEntryId, 8, S.Put(|s.entries|, 4, S.PutAll(S.PutEntry, s.entries, [])));
    var r1 := S.Put(s.snapshotId, 8, S.Put(Unsigned(s.createdAt), 8, S.PutString(s.hostIdentifier, tail)));
    S.PutStringAppends(s.hostIdentifier, [], tail);
    S.SchemaAppends(s.schema, [], r1);
    S.HeaderAppends(S.SNAPSHOT_MAGIC, [], S.PutSchema(s.schema, r1));
    NothingInFront(tail);
    NothingInFront(r1);
    NothingInFront(S.PutSchema(s.schema, r1));
  }

  /** The first limit a delta breaks. */
  function DeltaError(d: DeltaSnapshot): Option<S.Code> {
    if |d.added| > S.MAX_ENTRIES || |d.removed| > S.MAX_ENTRIES || |d.modified| > S.MAX_ENTRIES || |d.renamed| > S.MAX_ENTRIES
    then Some(S.EntryCountTooLarge)
    else if !OperationsFit(d) then Some(S.StringTooLarge)
    else None
  }

  method SerializeDelta(d: DeltaSnapshot) returns (error: Option<S.Code>, stream: seq<u8>)
    ensures error == DeltaError(d)
    ensures error.None? ==> stream == S.DeltaBytes(d)
  {
    hide S.PutHeader, S.PutSchema, S.PutOperations, OperationsFit, Little;
    var writer := new BinaryWriter();
    var ok := writer.WriteHeader(S.DELTA_MAGIC);
    ok := writer.WriteSchema(d.schema);
    ok := writer.WriteU64(d.baseSnapshotId);
    ok := writer.WriteU64(d.targetSnapshotId);
    if |d.added| > S.MAX_ENTRIES || |d.removed| > S.MAX_ENTRIES || |d.modified| > S.MAX_ENTRIES || |d.renamed| > S.MAX_ENTRIES {
      return Some(S.EntryCountTooLarge), writer.data;
    }
    ok := writer.WriteU32(|d.added|);
    ok := writer.WriteU32(|d.removed|);
    ok := writer.WriteU32(|d.modified|);
    ok := writer.WriteU32(|d.renamed|);
    ok := SerializeOperations(writer, d);
    DeltaPieces(d);
    return writer.status, writer.data;
  }

  predicate OperationsFit(d: DeltaSnapshot) {
    && (forall i :: 0 <= i < |d.added| ==> LengthsFit(d.added[i]))
    && (forall i :: 0 <= i < |d.removed| ==> LengthsFit(d.removed[i]))
    && (forall i :: 0 <= i < |d.renamed| ==> RenamedLengthsFit(d.renamed[i]))
  }

  /** The four lists of a delta. */
  method SerializeOperations(writer: BinaryWriter, d: DeltaSnapshot) returns (ok: bool)
    requires writer.status.None?
    modifies writer
    ensures ok <==> OperationsFit(d)
    ensures ok ==> writer.data == old(writer.data) + S.PutOperations(d, []) && writer.status.None?
    ensures !ok ==> writer.status == Some(S.StringTooLarge)
  {
    hide S.PutAll, S.PutOperations, LengthsFit, RenamedLengthsFit;
    ok := writer.WriteEntries(d.added);
    if !ok {
      return;
    }
    ok := writer.WriteEntries(d.removed);
    if !ok {
      return;
    }
    ok := writer.WriteModified(d.modified);
    ok := writer.WriteRenamed(d.renamed);
    OperationPieces(d);
  }

  lemma OperationPieces(d: DeltaSnapshot)
    ensures S.PutAll(S.PutEntry, d.added, []) + S.PutAll(S.PutEntry, d.removed, []) + S.PutAll(S.PutModified, d.modified, [])
      + S.PutAll(S.PutRenamed, d.renamed, []) == S.PutOperations(d, [])
  {
    hide S.PutAll, S.Appends;
    S.ElementsAppend();
    var r3 := S.PutAll(S.PutRenamed, d.renamed, []);
    var r2 := S.PutAll(S.PutModified, d.modified, r3);
    var r1 := S.PutAll(S.PutEntry, d.removed, r2);
    S.ListAppends(S.PutModified, d.modified, [], r3);
    S.ListAppends(S.PutEntry, d.removed, [], r2);
    S.ListAppends(S.PutEntry, d.added, [], r1);
    NothingInFront(r3);
    NothingInFront(r2);
    NothingInFront(r1);
  }

  lemma DeltaPieces(d: DeltaSnapshot)
    ensures S.PutHeader(S.DELTA_MAGIC, []) + S.PutSchema(d.schema, []) + Little(d.baseSnapshotId, 8) + Little(d.targetSnapshotId, 8)
      + Little(|d.added|, 4) + Little(|d.removed|, 4) + Little(|d.modified|, 4) + Little(|d.renamed|, 4) + S.PutOperations(d, [])
      == S.DeltaBytes(d)
  {
    hide S.PutHeader, S.PutSchema, S.PutOperations, Little;
    var r1 := S.Put(d.baseSnapshotId, 8, S.Put(d.targetSnapshotId, 8, S.PutCounts(d, S.PutOperations(d, []))));
    S.SchemaAppends(d.schema, [], r1);
    S.HeaderAppends(S.DELTA_MAGIC, [], S.PutSchema(d.schema, r1));
    NothingInFront(r1);
    NothingInFront(S.PutSchema(d.schema, r1));
  }

  // ---- Reading ----

  /** What a read reports and leaves behind is what the format says. */
  ghost predicate Agrees<T>(p: S.Parsed<T>, ok: bool, value: T, data: seq<u8>, status: Option<S.Code>) {
    match p
    case Got(v, rest) => ok && value == v && data == rest && status == None
    case Fail(code) => !ok && status == Some(code)
  }

  class BinaryReader {
    var data: seq<u8>
    var status: Option<S.Code>

    constructor (stream: seq<u8>)
      ensures data == stream && status == None
    {
      data, status := stream, None;
    }

    method ReadBytes(n: nat) returns (ok: bool, bs: seq<u8>)
      modifies this
      ensures old(status).Some? ==> !ok && status == old(status) && data == old(data)
      ensures old(status).None? ==> (ok <==> n <= |old(data)|)
      ensures ok ==> status.None? && bs == old(data)[..n] && data == old(data)[n..]
      ensures !ok && old(status).None? ==> status == Some(S.PayloadTruncated)
    {
      bs := [];
      if status.Some? {
        return false, bs;
      }
      if |data| < n {
        status := Some(S.PayloadTruncated);
        data := [];
        return false, bs;
      }
      bs := data[..n];
      data := data[n..];
      ok := true;
    }

    method ReadU8() returns (ok: bool, v: u8)
      requires status.None?
      modifies this
      ensures Agrees(S.ReadU8(old(data)), ok, v, data, status)
    {
      var bs;
      ok, bs := ReadBytes(1);
      v := if ok then bs[0] else 0;
      assert ok ==> FromLittle(bs[1..]) == 0;
    }

    method ReadU16() returns (ok: bool, v: u16)
      requires status.None?
      modifies this
      ensures Agrees(S.ReadU16(old(data)), ok, v, data, status)
    {
      var bs;
      ok, bs := ReadBytes(2);
      v := if ok then DecodeU16Little(bs) else 0;
    }

    method ReadU32() returns (ok: bool, v: u32)
      requires status.None?
      modifies this
      ensures Agrees(S.ReadU32(old(data)), ok, v, data, status)
    {
      var bs;
      ok, bs := ReadBytes(4);
      v := if ok then DecodeU32Little(bs) else 0;
    }

    method ReadU64() returns (ok: bool, v: u64)
      requires status.None?
      modifies this
      ensures Agrees(S.ReadU64(old(data)), ok, v, data, status)
    {
      var bs;
      ok, bs := ReadBytes(8);
      v := if ok then DecodeU64Little(bs) else 0;
    }

    method ReadI64() returns (ok: bool, v: i64)
      requires status.None?
      modifies this
      ensures Agrees(S.ReadI64(old(data)), ok, v, data, status)
    {
      hide S.ReadU64;
      var raw;
      ok, raw := ReadU64();
      v := Signed(raw);
    }

    method ReadString() returns (ok: bool, v: string)
      requires status.None?
      modifies this
      ensures Agrees(S.ReadString(old(data)), ok, v, data, status)
    {
      hide S.ReadU32;
      v := "";
      var length;
      ok, length := ReadU32();
      if !ok {
        return;
      }
      if length > S.MAX_STRING_LENGTH {
        status := Some(S.StringTooLarge);
        return false, v;
      }
      if length == 0 {
        assert FromBytes(data[..0]) == "" && data[0..] == data;
        return true, v;
      }
      var bs;
      ok, bs := ReadBytes(length);
      v := FromBytes(bs);
    }

    method ReadSchema() returns (ok: bool, h: SchemaHeader)
      requires status.None?
      modifies this
      ensures Agrees(S.ReadSchema(old(data)), ok, h, data, status)
    {
      hide S.ReadU16;
      h := SchemaHeader(0, 0, 0, 0);
      var major, minor, patch, minReaderMajor;
      ok, major := ReadU16();
      if !ok { return; }
      ok, minor := ReadU16();
      if !ok { return; }
      ok, patch := ReadU16();
      if !ok { return; }
      ok, minReaderMajor := ReadU16();
      h := SchemaHeader(major, minor, patch, minReaderMajor);
    }

    /** Any defect is reported as a wrong magic by the callers. */
    method ReadHeader(magic: u32) returns (ok: bool)
      requires status.None?
      modifies this
      ensures match S.ReadHeader(old(data), magic)
        case Got(_, rest) => ok && data == rest && status.None?
        case Fail(_) => !ok
    {
      hide S.ReadU16, S.ReadU32;
      var m, major, minor;
      ok, m := ReadU32();
      if !ok { return; }
      ok, major := ReadU16();
      if !ok { return; }
      ok, minor := ReadU16();
      if !ok { return; }
      ok := m == magic && major == S.FORMAT_MAJOR && minor == S.FORMAT_MINOR;
    }

    method ReadHash() returns (ok: bool, h: Option<u64>)
      requires status.None?
      modifies this
      ensures Agrees(S.ReadHash(old(data)), ok, h, data, status)
    {
      hide S.ReadU8, S.ReadU64;
      h := None;
      var hasHash;
      ok, hasHash := ReadU8();
      if ok && hasHash != 0 {
        var v;
        ok, v := ReadU64();
        h := Some(v);
      }
    }

    method ReadMetadata() returns (ok: bool, m: FileMetadata)
      requires status.None?
      modifies this
      ensures Agrees(S.ReadMetadata(old(data)), ok, m, data, status)
    {
      hide S.ReadU32, S.ReadU64, S.ReadI64, S.ReadHash;
      m := FileMetadata(0, 0, 0, 0, 0, 0, 0, None);
      var size, created, modified, accessed, permissions, fileId, deviceId, hash;
      ok, size := ReadU64();
      if !ok { return; }
      ok, created := ReadI64();
      if !ok { return; }
      ok, modified := ReadI64();
      if !ok { return; }
      ok, accessed := ReadI64();
      if !ok { return; }
      ok, permissions := ReadU32();
      if !ok { return; }
      ok, fileId := ReadU64();
      if !ok { return; }
      ok, deviceId := ReadU64();
      if !ok { return; }
      ok, hash := ReadHash();
      m := FileMetadata(size, created, modified, accessed, permissions, fileId, deviceId, hash);
    }

    method ReadEntry() returns (ok: bool, e: FileEntry)
      requires status.None?
      modifies this
      ensures Agrees(S.ReadEntry(old(data)), ok, e, data, status)
    {
      hide S.ReadU8, S.ReadU64, S.ReadString, S.ReadMetadata;
      e := FileEntry(0, 0, "", "", 0, FileMetadata(0, 0, 0, 0, 0, 0, 0, None));
      var id, parentId, path, name, kind, metadata;
      ok, id := ReadU64();
      if !ok { return; }
      ok, parentId := ReadU64();
      if !ok { return; }
      ok, path := ReadString();
      if !ok { return; }
      ok, name := ReadString();
      if !ok { return; }
      ok, kind := ReadU8();
      if !ok { return; }
      ok, metadata := ReadMetadata();
      e := FileEntry(id, parentId, path, name, kind, metadata);
    }

    method ReadModified() returns (ok: bool, m: ModifiedEntry)
      requires status.None?
      modifies this
      ensures Agrees(S.ReadModified(old(data)), ok, m, data, status)
    {
      hide S.ReadU64, S.ReadMetadata;
      m := ModifiedEntry(0, FileMetadata(0, 0, 0, 0, 0, 0, 0, None), FileMetadata(0, 0, 0, 0, 0, 0, 0, None));
      var id, before, after;
      ok, id := ReadU64();
      if !ok { return; }
      ok, before := ReadMetadata();
      if !ok { return; }
      ok, after := ReadMetadata();
      m := ModifiedEntry(id, before, after);
    }

    method ReadRenamed() returns (ok: bool, m: RenamedEntry)
      requires status.None?
      modifies this
      ensures Agrees(S.ReadRenamed(old(data)), ok, m, data, status)
    {
      hide S.ReadU64, S.ReadString;
      m := RenamedEntry(0, 0, "", "");
      var beforeId, afterId, oldPath, newPath;
      ok, beforeId := ReadU64();
      if !ok { return; }
      ok, afterId := ReadU64();
      if !ok { return; }
      ok, oldPath := ReadString();
      if !ok { return; }
      ok, newPath := ReadString();
      m := RenamedEntry(beforeId, afterId, oldPath, newPath);
    }

    method ReadEntries(count: u32) returns (ok: bool, es: seq<FileEntry>)
      requires status.None?
      modifies this
      ensures Agrees(S.ReadAll(S.ReadEntry, count, old(data)), ok, es, data, status)
    {
      hide S.ReadEntry, S.ReadAll, Behind;
      ok, es := true, [];
      BehindNothing(S.ReadAll(S.ReadEntry, count, data));
      for i := 0 to count
        invariant ok && status.None?
        invariant S.ReadAll(S.ReadEntry, count, old(data)) == Behind(es, S.ReadAll(S.ReadEntry, count - i, data))
      {
        BehindTurn(S.ReadEntry, es, count - i, data);
        var e;
        ok, e := ReadEntry();
        if !ok { return; }
        es := es + [e];
      }
      BehindAll(S.ReadEntry, es, data);
    }

    method ReadModifiedEntries(count: u32) returns (ok: bool, ms: seq<ModifiedEntry>)
      requires status.None?
      modifies this
      ensures Agrees(S.ReadAll(S.ReadModified, count, old(data)), ok, ms, data, status)
    {
      hide S.ReadModified, S.ReadAll, Behind;
      ok, ms := true, [];
      BehindNothing(S.ReadAll(S.ReadModified, count, data));
      for i := 0 to count
        invariant ok && status.None?
        invariant S.ReadAll(S.ReadModified, count, old(data)) == Behind(ms, S.ReadAll(S.ReadModified, count - i, data))
      {
        BehindTurn(S.ReadModified, ms, count - i, data);
        var m;
        ok, m := ReadModified();
        if !ok { return; }
        ms := ms + [m];
      }
      BehindAll(S.ReadModified, ms, data);
    }

    method ReadRenamedEntries(count: u32) returns (ok: bool, rs: seq<RenamedEntry>)
      requires status.None?
      modifies this
      ensures Agrees(S.ReadAll(S.ReadRenamed, count, old(data)), ok, rs, data, status)
    {
      hide S.ReadRenamed, S.ReadAll, Behind;
      ok, rs := true, [];
      BehindNothing(S.ReadAll(S.ReadRenamed, count, data));
      for i := 0 to count
        invariant ok && status.None?
        invariant S.ReadAll(S.ReadRenamed, count, old(data)) == Behind(rs, S.ReadAll(S.ReadRenamed, count - i, data))
      {
        BehindTurn(S.ReadRenamed, rs, count - i, data);
        var r;
        ok, r := ReadRenamed();
        if !ok { return; }
        rs := rs + [r];
      }
      BehindAll(S.ReadRenamed, rs, data);
    }
  }

  /** The rest of a list, behind what was read of it already. */
  ghost function Behind<T>(xs: seq<T>, p: S.Parsed<seq<T>>): S.Parsed<seq<T>> {
    match p
    case Got(ys, rest) => S.Got(xs + ys, rest)
    case Fail(code) => S.Fail(code)
  }

  lemma BehindNothing<T>(p: S.Parsed<seq<T>>)
    ensures Behind([], p) == p
  {
    if p.Got? { assert [] + p.value == p.value; }
  }

  lemma BehindTurn<T>(read: S.Reader<T>, xs: seq<T>, n: nat, bs: seq<u8>)
    requires n > 0
    ensures Behind(xs, S.ReadAll(read, n, bs)) ==
      match read(bs)
      case Fail(code) => S.Fail(code)
      case Got(x, rest) => Behind(xs + [x], S.ReadAll(read, n - 1, rest))
  {
    if read(bs).Got? {
      var tail := S.ReadAll(read, n - 1, read(bs).rest);
      if tail.Got? { assert xs + ([read(bs).value] + tail.value) == xs + [read(bs).value] + tail.value; }
    }
  }

  lemma BehindAll<T>(read: S.Reader<T>, xs: seq<T>, bs: seq<u8>)
    ensures Behind(xs, S.ReadAll(read, 0, bs)) == S.Got(xs, bs)
  {
    assert xs + [] == xs;
  }

  method DeserializeSnapshot(stream: seq<u8>) returns (r: S.Parsed<Snapshot>)
    ensures r == S.ReadSnapshot(stream)
  {
    hide S.ReadHeader, S.ReadSchema, S.ReadU32, S.ReadU64, S.ReadI64, S.ReadString, S.ReadAll;
    HeaderFailsAlike(stream, S.SNAPSHOT_MAGIC);
    var reader := new BinaryReader(stream);
    var ok := reader.ReadHeader(S.SNAPSHOT_MAGIC);
    if !ok { return S.Fail(S.InvalidMagic); }
    var schema, id, createdAt, host, root, count, entries;
    ok, schema := reader.ReadSchema();
    if !ok { return S.Fail(reader.status.value); }
    ok, id := reader.ReadU64();
    if !ok { return S.Fail(reader.status.value); }
    ok, createdAt := reader.ReadI64();
    if !ok { return S.Fail(reader.status.value); }
    ok, host := reader.ReadString();
    if !ok { return S.Fail(reader.status.value); }
    ok, root := reader.ReadU64();
    if !ok { return S.Fail(reader.status.value); }
    ok, count := reader.ReadU32();
    if !ok { return S.Fail(reader.status.value); }
    if count > S.MAX_ENTRIES { return S.Fail(S.EntryCountTooLarge); }
    ok, entries := reader.ReadEntries(count);
    if !ok { return S.Fail(reader.status.value); }
    r := S.Got(Snapshot(schema, id, createdAt, host, root, entries), reader.data);
  }

  lemma HeaderFailsAlike(stream: seq<u8>, magic: u32)
    ensures S.ReadHeader(stream, magic).Fail? ==> S.ReadHeader(stream, magic).code == S.InvalidMagic
  {
    hide S.ReadU16, S.ReadU32;
  }

  method DeserializeDelta(stream: seq<u8>) returns (r: S.Parsed<DeltaSnapshot>)
    ensures r == S.ReadDelta(stream)
  {
    hide S.ReadHeader, S.ReadSchema, S.ReadU32, S.ReadU64, S.ReadAll;
    HeaderFailsAlike(stream, S.DELTA_MAGIC);
    var reader := new BinaryReader(stream);
    var ok := reader.ReadHeader(S.DELTA_MAGIC);
    if !ok { return S.Fail(S.InvalidMagic); }
    var schema, base, target, added, removed, modified, renamed;
    ok, schema := reader.ReadSchema();
    if !ok { return S.Fail(reader.status.value); }
    ok, base := reader.ReadU64();
    if !ok { return S.Fail(reader.status.value); }
    ok, target := reader.ReadU64();
    if !ok { return S.Fail(reader.status.value); }
    ok, added := reader.ReadU32();
    if !ok { return S.Fail(reader.status.value); }
    ok, removed := reader.ReadU32();
    if !ok { return S.Fail(reader.status.value); }
    ok, modified := reader.ReadU32();
    if !ok { return S.Fail(reader.status.value); }
    ok, renamed := reader.ReadU32();
    if !ok { return S.Fail(reader.status.value); }
    if added > S.MAX_ENTRIES || removed > S.MAX_ENTRIES || modified > S.MAX_ENTRIES || renamed > S.MAX_ENTRIES {
      return S.Fail(S.EntryCountTooLarge);
    }
    r := DeserializeOperations(reader, S.Counts(added, removed, modified, renamed), DeltaSnapshot(schema, base, target, [], [], [], []));
  }

  /** The four lists of a delta. */
  method DeserializeOperations(reader: BinaryReader, n: S.Counts, head: DeltaSnapshot) returns (r: S.Parsed<DeltaSnapshot>)
    requires reader.status.None?
    modifies reader
    ensures r == S.ReadOperations(n, head, old(reader.data))
  {
    hide S.ReadAll;
    var ok, added, removed, modified, renamed;
    ok, added := reader.ReadEntries(n.added);
    if !ok { return S.Fail(reader.status.value); }
    ok, removed := reader.ReadEntries(n.removed);
    if !ok { return S.Fail(reader.status.value); }
    ok, modified := reader.ReadModifiedEntries(n.modified);
    if !ok { return S.Fail(reader.status.value); }
    ok, renamed := reader.ReadRenamedEntries(n.renamed);
    if !ok { return S.Fail(reader.status.value); }
    r := S.Got(head.(added := added, removed := removed, modified := modified, renamed := renamed), reader.data);
  }
}
