/** Where each field stands in a file or on the wire, for every value of the fields, and the limits
    as numbers. */
module Layouts {
  import opened Domain
  import opened Status
  import B = Bytes
  import C = ByteCodec
  import F = Frames
  import S = Serialization
  import SS = SerializationStreams
  import W = Wire

  // ---- Digits ----

  /** Byte `i` of a little-endian number counts the 256^i. */
  lemma {:induction false} LittleDigit(v: nat, width: nat, i: nat)
    requires i < width
    ensures B.Little(v, width)[i] == v / B.Pow256(i) % 256
  {
    if i > 0 {
      LittleDigit(v / 256, width - 1, i - 1);
      DivideTwice(v, B.Pow256(i - 1));
    }
  }

  /** A big-endian number is the little-endian one read backwards. */
  lemma {:induction false} BigDigit(v: nat, width: nat, i: nat)
    requires i < width
    ensures B.Big(v, width)[width - 1 - i] == v / B.Pow256(i) % 256
  {
    if i > 0 {
      BigDigit(v / 256, width - 1, i - 1);
      DivideTwice(v, B.Pow256(i - 1));
    }
  }

  lemma DivideTwice(v: nat, p: nat)
    requires p > 0
    ensures v / 256 / p == v / (256 * p)
  {
    var q, r := v / (256 * p), v % (256 * p);
    assert v == 256 * p * q + r;
    assert v / 256 == p * q + r / 256;
    assert r / 256 < p;
    QuotientIs(v / 256, p, q, r / 256);
  }

  lemma QuotientIs(n: nat, p: nat, q: nat, r: nat)
    requires r < p && n == p * q + r
    ensures n / p == q
  {
    TimesGrows(p, n / p, q);
    TimesGrows(p, q, n / p);
  }

  lemma {:induction false} TimesGrows(p: nat, a: nat, b: nat)
    ensures a < b ==> p * a + p <= p * b
  {
    if a < b {
      Distribute(p, a, 1);
      Distribute(p, a + 1, b - a - 1);
    }
  }

  lemma Distribute(p: nat, a: nat, b: nat)
    ensures p * (a + b) == p * a + p * b && p * b >= 0
  {}

  // ---- The binary formats: `bs[k..]` is what is left to describe ----

  lemma Taken(bs: seq<u8>, k: nat, x: seq<u8>, rest: seq<u8>)
    requires k <= |bs| && bs[k..] == x + rest
    ensures k + |x| <= |bs| && bs[k..k + |x|] == x && bs[k + |x|..] == rest
  {
    var tail := x + rest;
    assert tail[..|x|] == x && tail[|x|..] == rest;
    assert bs[k..][..|x|] == bs[k..k + |x|] && bs[k..][|x|..] == bs[k + |x|..];
  }

  lemma Field(bs: seq<u8>, k: nat, v: nat, width: nat, rest: seq<u8>)
    requires k <= |bs| && bs[k..] == S.Put(v, width, rest)
    ensures k + width <= |bs| && bs[k..k + width] == B.Little(v, width) && bs[k + width..] == rest
  {
    hide B.Little;
    Taken(bs, k, B.Little(v, width), rest);
  }

  lemma Text(bs: seq<u8>, k: nat, s: string, rest: seq<u8>)
    requires k <= |bs| && bs[k..] == S.PutString(s, rest)
    ensures k + 4 + |s| <= |bs| && bs[k..k + 4] == B.Little(|s|, 4)
    ensures bs[k + 4..k + 4 + |s|] == B.ToBytes(s) && bs[k + 4 + |s|..] == rest
  {
    hide *;
    var x := TextBytes(s, rest);
    TextOf(bs, k, x, rest);
  }

  lemma TextBytes(s: string, rest: seq<u8>) returns (x: seq<u8>)
    ensures x == B.ToBytes(s) && |x| == |s| && S.PutString(s, rest) == S.Put(|x|, 4, x + rest)
  {
    hide S.Put;
    x := B.ToBytes(s);
  }

  lemma TextOf(bs: seq<u8>, k: nat, x: seq<u8>, rest: seq<u8>)
    requires k <= |bs| && bs[k..] == S.Put(|x|, 4, x + rest)
    ensures k + 4 + |x| <= |bs| && bs[k..k + 4] == B.Little(|x|, 4)
    ensures bs[k + 4..k + 4 + |x|] == x && bs[k + 4 + |x|..] == rest
  {
    hide *;
    var n := k + 4;
    Field(bs, k, |x|, 4, x + rest);
    Taken(bs, n, x, rest);
  }

  /** The first sixteen bytes: magic, format 1.0, schema. */
  lemma HeadLayout(bs: seq<u8>, magic: u32, schema: SchemaHeader, rest: seq<u8>)
    requires bs == S.PutHeader(magic, S.PutSchema(schema, rest))
    ensures |bs| >= 16 && bs[..4] == B.Little(magic, 4) && bs[4..6] == B.Little(1, 2) && bs[6..8] == B.Little(0, 2)
    ensures bs[8..10] == B.Little(schema.major, 2) && bs[10..12] == B.Little(schema.minor, 2)
    ensures bs[12..14] == B.Little(schema.patch, 2) && bs[14..16] == B.Little(schema.minReaderMajor, 2) && bs[16..] == rest
  {
    hide S.Put, B.Little;
    var r14 := S.Put(schema.minReaderMajor, 2, rest);
    var r12 := S.Put(schema.patch, 2, r14);
    var r10 := S.Put(schema.minor, 2, r12);
    var r8 := S.Put(schema.major, 2, r10);
    var r6 := S.Put(0, 2, r8);
    assert bs[0..] == bs;
    Field(bs, 0, magic, 4, S.Put(1, 2, r6));
    Field(bs, 4, 1, 2, r6);
    Field(bs, 6, 0, 2, r8);
    Field(bs, 8, schema.major, 2, r10);
    Field(bs, 10, schema.minor, 2, r12);
    Field(bs, 12, schema.patch, 2, r14);
    Field(bs, 14, schema.minReaderMajor, 2, rest);
  }

  lemma FirstBytes()
    ensures B.Little(0x48534E50, 4) == [0x50, 0x4E, 0x53, 0x48] && B.Little(0x48444C54, 4) == [0x54, 0x4C, 0x44, 0x48]
    ensures B.Little(1, 2) == [1, 0] && B.Little(0, 2) == [0, 0]
    ensures B.Big(0x4C455347, 4) == [0x4C, 0x45, 0x53, 0x47] && B.Big(1, 2) == [0, 1]
  {
    LittleMagic();
    BigMagic();
    assert B.Little(0, 1) == [0] && B.Big(0, 1) == [0];
  }

  lemma LittleMagic()
    ensures B.Little(0x48534E50, 4) == [0x50, 0x4E, 0x53, 0x48] && B.Little(0x48444C54, 4) == [0x54, 0x4C, 0x44, 0x48]
  {
    assert B.Little(0x48534E, 3) == [0x4E, 0x53, 0x48] && B.Little(0x48444C, 3) == [0x4C, 0x44, 0x48];
  }

  lemma BigMagic()
    ensures B.Big(0x4C455347, 4) == [0x4C, 0x45, 0x53, 0x47]
  {
    assert B.Big(0x4C4553, 3) == [0x4C, 0x45, 0x53];
  }

  /** Main result: where the fields of a snapshot stand in its file, which starts "PNSH", version 1.0. */
  lemma SnapshotLayout(s: Snapshot)
    ensures var bs, n := S.SnapshotBytes(s), |s.hostIdentifier|;
      && |bs| >= 48 + n && bs[..8] == [0x50, 0x4E, 0x53, 0x48, 1, 0, 0, 0]
      && bs[8..10] == B.Little(s.schema.major, 2) && bs[10..12] == B.Little(s.schema.minor, 2)
      && bs[12..14] == B.Little(s.schema.patch, 2) && bs[14..16] == B.Little(s.schema.minReaderMajor, 2)
      && bs[16..24] == B.Little(s.snapshotId, 8) && bs[24..32] == B.Little(B.Unsigned(s.createdAt), 8)
      && bs[32..36] == B.Little(n, 4) && bs[36..36 + n] == B.ToBytes(s.hostIdentifier)
      && bs[36 + n..44 + n] == B.Little(s.rootEntryId, 8) && bs[44 + n..48 + n] == B.Little(|s.entries|, 4)
      && bs[48 + n..] == S.PutAll(S.PutEntry, s.entries, [])
  {
    hide S.Put, S.PutString, S.PutHeader, S.PutSchema, S.PutAll, B.Little, B.ToBytes;
    var bs, n := S.SnapshotBytes(s), |s.hostIdentifier|;
    var r44 := S.Put(|s.entries|, 4, S.PutAll(S.PutEntry, s.entries, []));
    var r36 := S.Put(s.rootEntryId, 8, r44);
    var r32 := S.PutString(s.hostIdentifier, r36);
    var r24 := S.Put(B.Unsigned(s.createdAt), 8, r32);
    HeadLayout(bs, 0x48534E50, s.schema, S.Put(s.snapshotId, 8, r24));
    FirstBytes();
    assert bs[..8] == bs[..4] + bs[4..6] + bs[6..8];
    Field(bs, 16, s.snapshotId, 8, r24);
    Field(bs, 24, B.Unsigned(s.createdAt), 8, r32);
    Text(bs, 32, s.hostIdentifier, r36);
    Field(bs, 36 + n, s.rootEntryId, 8, r44);
    Field(bs, 44 + n, |s.entries|, 4, S.PutAll(S.PutEntry, s.entries, []));
  }

  /** Where the fields of an entry stand, and how its metadata follow. */
  lemma EntryLayout(e: FileEntry, rest: seq<u8>)
    ensures var bs, n, m := S.PutEntry(e, rest), |e.path|, |e.name|;
      && |bs| >= 25 + n + m && bs[..8] == B.Little(e.id, 8) && bs[8..16] == B.Little(e.parentId, 8)
      && bs[16..20] == B.Little(n, 4) && bs[20..20 + n] == B.ToBytes(e.path)
      && bs[20 + n..24 + n] == B.Little(m, 4) && bs[24 + n..24 + n + m] == B.ToBytes(e.name)
      && bs[24 + n + m] == e.kind && bs[25 + n + m..] == S.PutMetadata(e.metadata, rest)
  {
    hide S.Put, S.PutString, S.PutMetadata, B.ToBytes;
    var bs, n, m := S.PutEntry(e, rest), |e.path|, |e.name|;
    var metadata := S.PutMetadata(e.metadata, rest);
    var kind := S.Put(e.kind, 1, metadata);
    var name := S.PutString(e.name, kind);
    var path := S.PutString(e.path, name);
    var parentId := S.Put(e.parentId, 8, path);
    assert bs[0..] == bs;
    Field(bs, 0, e.id, 8, parentId);
    Field(bs, 8, e.parentId, 8, path);
    Text(bs, 16, e.path, name);
    Text(bs, 20 + n, e.name, kind);
    Field(bs, 24 + n + m, e.kind, 1, metadata);
    OneByte(e.kind);
    assert bs[24 + n + m..25 + n + m][0] == bs[24 + n + m];
  }

  lemma OneByte(v: u8)
    ensures B.Little(v, 1) == [v]
  {
    assert B.Little(v / 256, 0) == [];
  }

  /** Where the fields of metadata stand: a hash stands behind a 1, and a 0 stands for no hash. */
  lemma MetadataLayout(m: FileMetadata, rest: seq<u8>)
    ensures var bs := S.PutMetadata(m, rest);
      && |bs| >= 53 && bs[..8] == B.Little(m.sizeBytes, 8) && bs[8..16] == B.Little(B.Unsigned(m.createdAt), 8)
      && bs[16..24] == B.Little(B.Unsigned(m.modifiedAt), 8) && bs[24..32] == B.Little(B.Unsigned(m.accessedAt), 8)
      && bs[32..36] == B.Little(m.permissions, 4) && bs[36..44] == B.Little(m.fileId, 8) && bs[44..52] == B.Little(m.deviceId, 8)
      && match m.contentHash
         case None => bs[52] == 0 && bs[53..] == rest
         case Some(h) => bs[52] == 1 && |bs| >= 61 && bs[53..61] == B.Little(h, 8) && bs[61..] == rest
  {
    hide S.Put, S.PutHash, B.Little;
    var bs := S.PutMetadata(m, rest);
    var hash := S.PutHash(m.contentHash, rest);
    var r44 := S.Put(m.deviceId, 8, hash);
    var r36 := S.Put(m.fileId, 8, r44);
    var r32 := S.Put(m.permissions, 4, r36);
    var r24 := S.Put(B.Unsigned(m.accessedAt), 8, r32);
    var r16 := S.Put(B.Unsigned(m.modifiedAt), 8, r24);
    var r8 := S.Put(B.Unsigned(m.createdAt), 8, r16);
    assert bs[0..] == bs;
    Field(bs, 0, m.sizeBytes, 8, r8);
    Field(bs, 8, B.Unsigned(m.createdAt), 8, r16);
    Field(bs, 16, B.Unsigned(m.modifiedAt), 8, r24);
    Field(bs, 24, B.Unsigned(m.accessedAt), 8, r32);
    Field(bs, 32, m.permissions, 4, r36);
    Field(bs, 36, m.fileId, 8, r44);
    Field(bs, 44, m.deviceId, 8, hash);
    HashLayout(bs, m.contentHash, rest);
  }

  lemma HashLayout(bs: seq<u8>, h: Option<u64>, rest: seq<u8>)
    requires |bs| >= 52 && bs[52..] == S.PutHash(h, rest)
    ensures |bs| >= 53
    ensures match h
      case None => bs[52] == 0 && bs[53..] == rest
      case Some(v) => bs[52] == 1 && |bs| >= 61 && bs[53..61] == B.Little(v, 8) && bs[61..] == rest
  {
    hide S.Put;
    OneByte(0);
    OneByte(1);
    match h
    case None =>
      Field(bs, 52, 0, 1, rest);
      assert bs[52..53][0] == bs[52];
    case Some(v) =>
      Field(bs, 52, 1, 1, S.Put(v, 8, rest));
      Field(bs, 53, v, 8, rest);
      assert bs[52..53][0] == bs[52];
  }

  /** Any flag but 0 announces a hash. */
  lemma HashFlag(flag: u8, v: u64, rest: seq<u8>)
    ensures S.ReadHash([0] + rest) == S.Got(None, rest)
    ensures flag != 0 ==> S.ReadHash([flag] + S.Put(v, 8, rest)) == S.Got(Some(v), rest)
  {
    hide B.Little;
    OneByte(0);
    OneByte(flag);
    B.Widths();
    S.NumberRoundTrip(0, 1, rest);
    S.NumberRoundTrip(flag, 1, S.Put(v, 8, rest));
    S.NumberRoundTrip(v, 8, rest);
  }

  /** Where the fields of a delta stand in its file, which starts "TLDH", version 1.0. */
  lemma DeltaLayout(d: DeltaSnapshot)
    ensures var bs := S.DeltaBytes(d);
      && |bs| >= 48 && bs[..8] == [0x54, 0x4C, 0x44, 0x48, 1, 0, 0, 0]
      && bs[8..10] == B.Little(d.schema.major, 2) && bs[10..12] == B.Little(d.schema.minor, 2)
      && bs[12..14] == B.Little(d.schema.patch, 2) && bs[14..16] == B.Little(d.schema.minReaderMajor, 2)
      && bs[16..24] == B.Little(d.baseSnapshotId, 8) && bs[24..32] == B.Little(d.targetSnapshotId, 8)
      && bs[32..36] == B.Little(|d.added|, 4) && bs[36..40] == B.Little(|d.removed|, 4)
      && bs[40..44] == B.Little(|d.modified|, 4) && bs[44..48] == B.Little(|d.renamed|, 4)
      && bs[48..] == S.PutAll(S.PutEntry, d.added, S.PutAll(S.PutEntry, d.removed,
           S.PutAll(S.PutModified, d.modified, S.PutAll(S.PutRenamed, d.renamed, []))))
  {
    hide S.Put, S.PutString, S.PutHeader, S.PutSchema, S.PutAll, B.Little;
    var bs, operations := S.DeltaBytes(d), S.PutOperations(d, []);
    var r44 := S.Put(|d.renamed|, 4, operations);
    var r40 := S.Put(|d.modified|, 4, r44);
    var r36 := S.Put(|d.removed|, 4, r40);
    var r32 := S.Put(|d.added|, 4, r36);
    var r24 := S.Put(d.targetSnapshotId, 8, r32);
    HeadLayout(bs, 0x48444C54, d.schema, S.Put(d.baseSnapshotId, 8, r24));
    FirstBytes();
    assert bs[..8] == bs[..4] + bs[4..6] + bs[6..8];
    Field(bs, 16, d.baseSnapshotId, 8, r24);
    Field(bs, 24, d.targetSnapshotId, 8, r32);
    Field(bs, 32, |d.added|, 4, r36);
    Field(bs, 36, |d.removed|, 4, r40);
    Field(bs, 40, |d.modified|, 4, r44);
    Field(bs, 44, |d.renamed|, 4, operations);
  }

  /** A modified entry: its id, the metadata before and those after. */
  lemma ModifiedLayout(m: ModifiedEntry, rest: seq<u8>)
    ensures var bs := S.PutModified(m, rest);
      |bs| >= 8 && bs[..8] == B.Little(m.entryId, 8) && bs[8..] == S.PutMetadata(m.before, S.PutMetadata(m.after, rest))
  {
    hide S.Put, S.PutMetadata;
    var bs := S.PutModified(m, rest);
    assert bs[0..] == bs;
    Field(bs, 0, m.entryId, 8, S.PutMetadata(m.before, S.PutMetadata(m.after, rest)));
  }

  /** A rename: both ids, the old path and the new one. */
  lemma RenamedLayout(r: RenamedEntry, rest: seq<u8>)
    ensures var bs, n, m := S.PutRenamed(r, rest), |r.oldPath|, |r.newPath|;
      && |bs| >= 24 + n + m && bs[..8] == B.Little(r.beforeId, 8) && bs[8..16] == B.Little(r.afterId, 8)
      && bs[16..20] == B.Little(n, 4) && bs[20..20 + n] == B.ToBytes(r.oldPath)
      && bs[20 + n..24 + n] == B.Little(m, 4) && bs[24 + n..24 + n + m] == B.ToBytes(r.newPath) && bs[24 + n + m..] == rest
  {
    hide S.Put, S.PutString, B.Little, B.ToBytes;
    var bs, n := S.PutRenamed(r, rest), |r.oldPath|;
    var r2 := S.PutString(r.newPath, rest);
    var r1 := S.PutString(r.oldPath, r2);
    assert bs[0..] == bs;
    Field(bs, 0, r.beforeId, 8, S.Put(r.afterId, 8, r1));
    Field(bs, 8, r.afterId, 8, r1);
    Text(bs, 16, r.oldPath, r2);
    Text(bs, 20 + n, r.newPath, rest);
  }

  /** What can be written, with the limits as numbers: strings of 4 MiB of bytes, five million entries. */
  lemma SnapshotFitsIff(s: Snapshot)
    ensures S.SnapshotFits(s) <==>
      && Short(s.hostIdentifier) && |s.entries| <= 5000000
      && forall e :: e in s.entries ==> Short(e.path) && Short(e.name)
  {
    hide Short, S.StringFits;
    ShortIff(s.hostIdentifier);
    forall i | 0 <= i < |s.entries| ensures S.EntryFits(s.entries[i]) <==> Short(s.entries[i].path) && Short(s.entries[i].name) {
      ShortIff(s.entries[i].path);
      ShortIff(s.entries[i].name);
    }
    forall e | e in s.entries ensures exists i :: 0 <= i < |s.entries| && s.entries[i] == e {}
  }

  lemma ShortIff(s: string)
    ensures S.StringFits(s) <==> Short(s)
  {
    forall i | 0 <= i < |s| ensures s[i] in s {}
  }

  /** A length that fits, and only characters that are bytes. */
  ghost predicate Short(s: string) {
    |s| <= 4194304 && forall c :: c in s ==> c as int < 256
  }

  /** Main result: which limit a snapshot that cannot be written is said to break: the host first, then the number of
      entries, then some path or name. */
  lemma SnapshotErrorIs(s: Snapshot)
    ensures var host, count := |s.hostIdentifier| > 4194304, |s.entries| > 5000000;
      var some := exists e :: e in s.entries && (|e.path| > 4194304 || |e.name| > 4194304);
      && (SS.SnapshotError(s) == Some(S.StringTooLarge) <==> host || (!count && some))
      && (SS.SnapshotError(s) == Some(S.EntryCountTooLarge) <==> !host && count)
      && (SS.SnapshotError(s) == None <==> !host && !count && !some)
  {
    if e :| e in s.entries && (|e.path| > 4194304 || |e.name| > 4194304) {
      var i :| 0 <= i < |s.entries| && s.entries[i] == e;
      assert !SS.LengthsFit(s.entries[i]);
    }
  }

  /** The same for a delta, where the counts come first. */
  lemma DeltaErrorIs(d: DeltaSnapshot)
    ensures var count := |d.added| > 5000000 || |d.removed| > 5000000 || |d.modified| > 5000000 || |d.renamed| > 5000000;
      var some := || (exists e :: e in d.added && (|e.path| > 4194304 || |e.name| > 4194304))
        || (exists e :: e in d.removed && (|e.path| > 4194304 || |e.name| > 4194304))
        || (exists r :: r in d.renamed && (|r.oldPath| > 4194304 || |r.newPath| > 4194304));
      && (SS.DeltaError(d) == Some(S.EntryCountTooLarge) <==> count)
      && (SS.DeltaError(d) == Some(S.StringTooLarge) <==> !count && some)
      && (SS.DeltaError(d) == None <==> !count && !some)
  {
    LongEntry(d.added);
    LongEntry(d.removed);
    LongRename(d.renamed);
    hide SS.LengthsFit, SS.RenamedLengthsFit;
  }

  lemma LongEntry(es: seq<FileEntry>)
    ensures (exists e :: e in es && (|e.path| > 4194304 || |e.name| > 4194304)) <==> exists i :: 0 <= i < |es| && !SS.LengthsFit(es[i])
  {
    if e :| e in es && (|e.path| > 4194304 || |e.name| > 4194304) {
      var i :| 0 <= i < |es| && es[i] == e;
      assert !SS.LengthsFit(es[i]);
    }
  }

  lemma LongRename(rs: seq<RenamedEntry>)
    ensures (exists r :: r in rs && (|r.oldPath| > 4194304 || |r.newPath| > 4194304)) <==> exists i :: 0 <= i < |rs| && !SS.RenamedLengthsFit(rs[i])
  {
    if r :| r in rs && (|r.oldPath| > 4194304 || |r.newPath| > 4194304) {
      var i :| 0 <= i < |rs| && rs[i] == r;
      assert !SS.RenamedLengthsFit(rs[i]);
    }
  }

  // ---- What a reader refuses ----

  lemma LittleNumberIs(bs: seq<u8>, v: nat)
    requires v < B.Pow256(|bs|)
    ensures B.FromLittle(bs) == v <==> bs == B.Little(v, |bs|)
  {
    B.LittleRoundTrip(v, |bs|);
    LittleOfFrom(bs);
  }

  lemma {:induction false} LittleOfFrom(bs: seq<u8>)
    ensures B.Little(B.FromLittle(bs), |bs|) == bs
  {
    if bs != [] {
      LittleOfFrom(bs[1..]);
      assert bs == [bs[0]] + bs[1..];
      assert B.FromLittle(bs) % 256 == bs[0] && B.FromLittle(bs) / 256 == B.FromLittle(bs[1..]);
    }
  }

  /** A header is read exactly when its eight bytes are the magic and version 1.0; anything else has one error. */
  lemma HeaderIff(bs: seq<u8>, magic: u32)
    ensures S.ReadHeader(bs, magic) ==
      if |bs| >= 8 && bs[..4] == B.Little(magic, 4) && bs[4..6] == [1, 0] && bs[6..8] == [0, 0]
      then S.Got((), bs[8..]) else S.Fail(S.InvalidMagic)
  {
    hide B.Little, B.FromLittle;
    B.Widths();
    FirstBytes();
    if |bs| >= 8 {
      LittleNumberIs(bs[..4], magic);
      LittleNumberIs(bs[4..6], 1);
      LittleNumberIs(bs[6..8], 0);
      assert bs[4..][..2] == bs[4..6] && bs[4..][2..] == bs[6..] && bs[6..][..2] == bs[6..8] && bs[6..][2..] == bs[8..];
    }
  }

  /** Main result: how a string is read: its length, which may not pass the limit whatever follows, and that many bytes. */
  lemma StringRead(n: u32, rest: seq<u8>)
    ensures S.ReadString(S.Put(n, 4, rest)) ==
      if n > 4194304 then S.Fail(S.StringTooLarge)
      else if |rest| < n then S.Fail(S.PayloadTruncated)
      else S.Got(B.FromBytes(rest[..n]), rest[n..])
  {
    hide B.Little, B.FromBytes;
    B.Widths();
    S.NumberRoundTrip(n, 4, rest);
  }

  /** A snapshot that announces more than five million entries is refused before any of them is read. */
  lemma CountRead(s: Snapshot, count: u32, rest: seq<u8>)
    requires Short(s.hostIdentifier) && count > 5000000
    ensures var bytes := S.PutHeader(0x48534E50, S.PutSchema(s.schema, S.Put(s.snapshotId, 8, S.Put(B.Unsigned(s.createdAt), 8,
        S.PutString(s.hostIdentifier, S.Put(s.rootEntryId, 8, S.Put(count, 4, rest)))))));
      S.ReadSnapshot(bytes) == S.Fail(S.EntryCountTooLarge)
  {
    hide S.Put, S.PutString, S.PutSchema, S.PutHeader, S.ReadHeader, S.ReadSchema, S.ReadU64, S.ReadI64, S.ReadString, S.ReadU32, S.ReadAll;
    var r6 := S.Put(count, 4, rest);
    var r5 := S.Put(s.rootEntryId, 8, r6);
    var r4 := S.PutString(s.hostIdentifier, r5);
    var r3 := S.Put(B.Unsigned(s.createdAt), 8, r4);
    var r2 := S.Put(s.snapshotId, 8, r3);
    ShortIff(s.hostIdentifier);
    S.HeaderRoundTrip(0x48534E50, S.PutSchema(s.schema, r2));
    S.SchemaRoundTrip(s.schema, r2);
    S.FieldRoundTrip(s.snapshotId, r3);
    S.SignedRoundTrip(s.createdAt, r4);
    S.StringRoundTrip(s.hostIdentifier, r5);
    S.FieldRoundTrip(s.rootEntryId, r6);
    S.FieldRoundTrip(count, rest);
  }

  // ---- Frames and messages, which are big-endian ----

  lemma BigField(bs: seq<u8>, k: nat, v: nat, width: nat, rest: seq<u8>)
    requires k <= |bs| && bs[k..] == C.Put(v, width, rest)
    ensures k + width <= |bs| && bs[k..k + width] == B.Big(v, width) && bs[k + width..] == rest
  {
    hide B.Big;
    Taken(bs, k, B.Big(v, width), rest);
  }

  lemma BigBlob(bs: seq<u8>, k: nat, b: seq<u8>, rest: seq<u8>)
    requires k <= |bs| && bs[k..] == C.PutBlob(b, rest) && |b| < 0x1_0000_0000
    ensures k + 4 + |b| <= |bs| && bs[k..k + 4] == B.Big(|b|, 4)
    ensures bs[k + 4..k + 4 + |b|] == b && bs[k + 4 + |b|..] == rest
  {
    hide *;
    BlobBytes(b, rest);
    var n := k + 4;
    BigField(bs, k, |b|, 4, b + rest);
    Taken(bs, n, b, rest);
  }

  lemma BlobBytes(b: seq<u8>, rest: seq<u8>)
    requires |b| < 0x1_0000_0000
    ensures C.PutBlob(b, rest) == C.Put(|b|, 4, b + rest)
  {
    hide C.Put;
  }

  lemma BigText(bs: seq<u8>, k: nat, s: string, rest: seq<u8>)
    requires k <= |bs| && bs[k..] == C.PutString(s, rest) && |s| < 0x1_0000_0000
    ensures k + 4 + |s| <= |bs| && bs[k..k + 4] == B.Big(|s|, 4)
    ensures bs[k + 4..k + 4 + |s|] == B.ToBytes(s) && bs[k + 4 + |s|..] == rest
  {
    BigBlob(bs, k, B.ToBytes(s), rest);
  }

  /** Main result: where the fields of a transport frame stand. */
  lemma FrameLayout(f: F.MuninnFrame)
    requires |f.routingKey| < 0x1_0000_0000 && |f.payload| < 0x1_0000_0000
    ensures var bs, n := F.FrameBytes(f), |f.routingKey|;
      && |bs| == 17 + n + |f.payload| && bs[0] == f.kind && bs[1..9] == B.Big(f.createdAt, 8)
      && bs[9..13] == B.Big(n, 4) && bs[13..13 + n] == B.ToBytes(f.routingKey)
      && bs[13 + n..17 + n] == B.Big(|f.payload|, 4) && bs[17 + n..] == f.payload
  {
    hide C.Put, C.PutString, C.PutBlob, B.Big, B.ToBytes;
    var bs, n := F.FrameBytes(f), |f.routingKey|;
    var payload := C.PutBlob(f.payload, []);
    var routingKey := C.PutString(f.routingKey, payload);
    assert bs[1..] == C.Put(f.createdAt, 8, routingKey);
    BigField(bs, 1, f.createdAt, 8, routingKey);
    BigText(bs, 9, f.routingKey, payload);
    BigBlob(bs, 13 + n, f.payload, []);
    assert bs[17 + n..] == bs[17 + n..17 + n + |f.payload|];
  }

  /** Main result: every message starts "LESG", version 1, with its kind, no flags and its payload's length. */
  lemma MessageLayout(m: W.Message)
    ensures var bs, payload := W.MessageBytes(m), W.PayloadOf(m);
      && |bs| == 12 + |payload| && bs[..6] == [0x4C, 0x45, 0x53, 0x47, 0, 1]
      && bs[6] == (match m
           case ClientHello(_, _, _, _, _, _) => 1
           case ServerHello(_, _, _, _, _, _) => 2
           case Data(_, _, _, _, _, _, _) => 3
           case Ack(_, _, _) => 4
           case Nack(_, _, _, _) => 5
           case Error(_, _) => 6
           case Ping(_) => 7
           case Pong(_) => 8)
      && bs[7] == 0 && bs[8..12] == B.Big(|payload| % 0x1_0000_0000, 4) && bs[12..] == payload
  {
    hide B.Big, W.PayloadOf;
    FirstBytes();
  }

  /** The payloads of acks, refusals, errors and pings. */
  lemma ReplyLayout(host: string, first: u64, second: u64, reason: string, code: u16)
    requires |host| < 0x1_0000_0000 && |reason| < 0x1_0000_0000
    ensures var bs, n := W.PayloadOf(W.Ack(host, first, second)), |host|;
      && |bs| == 20 + n && bs[..4] == B.Big(n, 4) && bs[4..4 + n] == B.ToBytes(host)
      && bs[4 + n..12 + n] == B.Big(first, 8) && bs[12 + n..] == B.Big(second, 8)
    ensures var bs, n := W.PayloadOf(W.Nack(host, first, second, reason)), |host|;
      && |bs| == 24 + n + |reason| && bs[..4] == B.Big(n, 4) && bs[4..4 + n] == B.ToBytes(host)
      && bs[4 + n..12 + n] == B.Big(first, 8) && bs[12 + n..20 + n] == B.Big(second, 8)
      && bs[20 + n..24 + n] == B.Big(|reason|, 4) && bs[24 + n..] == B.ToBytes(reason)
    ensures var bs := W.PayloadOf(W.Error(code, reason));
      && |bs| == 6 + |reason| && bs[..2] == B.Big(code, 2) && bs[2..6] == B.Big(|reason|, 4) && bs[6..] == B.ToBytes(reason)
    ensures W.PayloadOf(W.Ping(first)) == B.Big(first, 8) && W.PayloadOf(W.Pong(first)) == B.Big(first, 8)
  {
    hide C.PutString, C.PutBlob, B.Big, B.ToBytes;
    AckLayout(host, first, second);
    NackLayout(host, first, second, reason);
    var bs := W.PayloadOf(W.Error(code, reason));
    assert bs[0..] == bs;
    BigField(bs, 0, code, 2, C.PutString(reason, []));
    BigText(bs, 2, reason, []);
    assert bs[6..] == bs[6..6 + |reason|];
    assert B.Big(first, 8) + [] == B.Big(first, 8);
  }

  lemma AckLayout(host: string, first: u64, second: u64)
    requires |host| < 0x1_0000_0000
    ensures var bs, n := W.PayloadOf(W.Ack(host, first, second)), |host|;
      && |bs| == 20 + n && bs[..4] == B.Big(n, 4) && bs[4..4 + n] == B.ToBytes(host)
      && bs[4 + n..12 + n] == B.Big(first, 8) && bs[12 + n..] == B.Big(second, 8)
  {
    hide C.Put, C.PutString, B.Big, B.ToBytes;
    var bs, n := W.PayloadOf(W.Ack(host, first, second)), |host|;
    assert bs[0..] == bs;
    BigText(bs, 0, host, C.Put(first, 8, C.Put(second, 8, [])));
    BigField(bs, 4 + n, first, 8, C.Put(second, 8, []));
    BigField(bs, 12 + n, second, 8, []);
    assert bs[12 + n..] == bs[12 + n..20 + n];
  }

  lemma NackLayout(host: string, first: u64, second: u64, reason: string)
    requires |host| < 0x1_0000_0000 && |reason| < 0x1_0000_0000
    ensures var bs, n := W.PayloadOf(W.Nack(host, first, second, reason)), |host|;
      && |bs| == 24 + n + |reason| && bs[..4] == B.Big(n, 4) && bs[4..4 + n] == B.ToBytes(host)
      && bs[4 + n..12 + n] == B.Big(first, 8) && bs[12 + n..20 + n] == B.Big(second, 8)
      && bs[20 + n..24 + n] == B.Big(|reason|, 4) && bs[24 + n..] == B.ToBytes(reason)
  {
    hide C.Put, C.PutString, B.Big, B.ToBytes;
    var bs, n := W.PayloadOf(W.Nack(host, first, second, reason)), |host|;
    var r2 := C.Put(second, 8, C.PutString(reason, []));
    assert bs[0..] == bs;
    BigText(bs, 0, host, C.Put(first, 8, r2));
    BigField(bs, 4 + n, first, 8, r2);
    BigField(bs, 12 + n, second, 8, C.PutString(reason, []));
    BigText(bs, 20 + n, reason, []);
    assert bs[24 + n..] == bs[24 + n..24 + n + |reason|];
  }

  /** The payload of data: the host, the sequence, the codec, the time, the checksum and the frame. */
  lemma DataLayout(m: W.Message)
    requires m.Data? && |m.hostId| < 0x1_0000_0000 && |m.frame| < 0x1_0000_0000
    ensures var bs, n := W.PayloadOf(m), |m.hostId|;
      && |bs| == 32 + n + |m.frame| && bs[..4] == B.Big(n, 4) && bs[4..4 + n] == B.ToBytes(m.hostId)
      && bs[4 + n..12 + n] == B.Big(m.sequence, 8) && bs[12 + n..14 + n] == B.Big(m.codecMajor, 2)
      && bs[14 + n..16 + n] == B.Big(m.codecMinor, 2) && bs[16 + n..24 + n] == B.Big(m.sentAt, 8)
      && bs[24 + n..28 + n] == B.Big(m.frameCrc, 4) && bs[28 + n..32 + n] == B.Big(|m.frame|, 4) && bs[32 + n..] == m.frame
  {
    hide C.Put, C.PutString, C.PutBlob, B.Big, B.ToBytes;
    var bs, n := W.PayloadOf(m), |m.hostId|;
    var frame := C.PutBlob(m.frame, []);
    var crc := C.Put(m.frameCrc, 4, frame);
    var sent := C.Put(m.sentAt, 8, crc);
    var minor := C.Put(m.codecMinor, 2, sent);
    var major := C.Put(m.codecMajor, 2, minor);
    assert bs[0..] == bs;
    BigText(bs, 0, m.hostId, C.Put(m.sequence, 8, major));
    BigField(bs, 4 + n, m.sequence, 8, major);
    BigField(bs, 12 + n, m.codecMajor, 2, minor);
    BigField(bs, 14 + n, m.codecMinor, 2, sent);
    BigField(bs, 16 + n, m.sentAt, 8, crc);
    BigField(bs, 24 + n, m.frameCrc, 4, frame);
    BigBlob(bs, 28 + n, m.frame, []);
    assert bs[32 + n..] == bs[32 + n..32 + n + |m.frame|];
  }

  /** The greetings of both sides. */
  lemma HelloLayout(client: W.Message, server: W.Message)
    requires client.ClientHello? && server.ServerHello?
    requires |client.hostId| < 0x1_0000_0000 && |client.clientInstanceId| < 0x1_0000_0000
    requires |client.authToken| < 0x1_0000_0000 && |server.reason| < 0x1_0000_0000
    ensures var bs, n, m := W.PayloadOf(client), |client.hostId|, |client.clientInstanceId|;
      && |bs| == 26 + n + m + |client.authToken| && bs[..4] == B.Big(n, 4) && bs[4..4 + n] == B.ToBytes(client.hostId)
      && bs[4 + n..8 + n] == B.Big(m, 4) && bs[8 + n..8 + n + m] == B.ToBytes(client.clientInstanceId)
      && bs[8 + n + m..10 + n + m] == B.Big(client.requestedVersion, 2)
      && bs[10 + n + m..18 + n + m] == B.Big(client.resumeFrom, 8) && bs[18 + n + m..22 + n + m] == B.Big(client.capabilities, 4)
      && bs[22 + n + m..26 + n + m] == B.Big(|client.authToken|, 4) && bs[26 + n + m..] == B.ToBytes(client.authToken)
    ensures var bs := W.PayloadOf(server);
      && |bs| == 31 + |server.reason| && bs[0] == (if server.accepted then 1 else 0) && bs[1..3] == B.Big(server.negotiatedVersion, 2)
      && bs[3..11] == B.Big(server.sessionId, 8) && bs[11..19] == B.Big(server.serverCheckpoint, 8)
      && bs[19..27] == B.Big(server.requestedResumeFrom, 8) && bs[27..31] == B.Big(|server.reason|, 4)
      && bs[31..] == B.ToBytes(server.reason)
  {
    hide W.PayloadOf, B.Big, B.ToBytes;
    ClientHelloLayout(client);
    ServerHelloLayout(server);
  }

  lemma ClientHelloLayout(client: W.Message)
    requires client.ClientHello? && |client.hostId| < 0x1_0000_0000
    requires |client.clientInstanceId| < 0x1_0000_0000 && |client.authToken| < 0x1_0000_0000
    ensures var bs, n, m := W.PayloadOf(client), |client.hostId|, |client.clientInstanceId|;
      && |bs| == 26 + n + m + |client.authToken| && bs[..4] == B.Big(n, 4) && bs[4..4 + n] == B.ToBytes(client.hostId)
      && bs[4 + n..8 + n] == B.Big(m, 4) && bs[8 + n..8 + n + m] == B.ToBytes(client.clientInstanceId)
      && bs[8 + n + m..10 + n + m] == B.Big(client.requestedVersion, 2)
      && bs[10 + n + m..18 + n + m] == B.Big(client.resumeFrom, 8) && bs[18 + n + m..22 + n + m] == B.Big(client.capabilities, 4)
      && bs[22 + n + m..26 + n + m] == B.Big(|client.authToken|, 4) && bs[26 + n + m..] == B.ToBytes(client.authToken)
  {
    hide C.Put, C.PutString, B.Big, B.ToBytes;
    var bs, n, m := W.PayloadOf(client), |client.hostId|, |client.clientInstanceId|;
    var version := C.Put(client.requestedVersion, 2, C.Put(client.resumeFrom, 8, C.Put(client.capabilities, 4, C.PutString(client.authToken, []))));
    var instance := C.PutString(client.clientInstanceId, version);
    assert bs[0..] == bs;
    BigText(bs, 0, client.hostId, instance);
    BigText(bs, 4 + n, client.clientInstanceId, version);
    ClientHelloTail(bs, 8 + n + m, client.requestedVersion, client.resumeFrom, client.capabilities, client.authToken);
  }

  lemma ClientHelloTail(bs: seq<u8>, k: nat, requestedVersion: u16, resumeFrom: u64, capabilities: u32, token: string)
    requires k <= |bs| && |token| < 0x1_0000_0000
    requires bs[k..] == C.Put(requestedVersion, 2, C.Put(resumeFrom, 8, C.Put(capabilities, 4, C.PutString(token, []))))
    ensures |bs| == k + 18 + |token| && bs[k..k + 2] == B.Big(requestedVersion, 2) && bs[k + 2..k + 10] == B.Big(resumeFrom, 8)
    ensures bs[k + 10..k + 14] == B.Big(capabilities, 4) && bs[k + 14..k + 18] == B.Big(|token|, 4) && bs[k + 18..] == B.ToBytes(token)
  {
    hide C.Put, C.PutString, B.Big, B.ToBytes;
    var end := C.PutString(token, []);
    BigField(bs, k, requestedVersion, 2, C.Put(resumeFrom, 8, C.Put(capabilities, 4, end)));
    BigField(bs, k + 2, resumeFrom, 8, C.Put(capabilities, 4, end));
    BigField(bs, k + 10, capabilities, 4, end);
    BigText(bs, k + 14, token, []);
    assert bs[k + 18..] == bs[k + 18..k + 18 + |token|];
  }

  lemma ServerHelloLayout(server: W.Message)
    requires server.ServerHello? && |server.reason| < 0x1_0000_0000
    ensures var bs := W.PayloadOf(server);
      && |bs| == 31 + |server.reason| && bs[0] == (if server.accepted then 1 else 0) && bs[1..3] == B.Big(server.negotiatedVersion, 2)
      && bs[3..11] == B.Big(server.sessionId, 8) && bs[11..19] == B.Big(server.serverCheckpoint, 8)
      && bs[19..27] == B.Big(server.requestedResumeFrom, 8) && bs[27..31] == B.Big(|server.reason|, 4)
      && bs[31..] == B.ToBytes(server.reason)
  {
    hide C.Put, C.PutString, B.Big, B.ToBytes;
    var bs := W.PayloadOf(server);
    var reason := C.PutString(server.reason, []);
    var resume := C.Put(server.requestedResumeFrom, 8, reason);
    var checkpoint := C.Put(server.serverCheckpoint, 8, resume);
    var session := C.Put(server.sessionId, 8, checkpoint);
    assert bs[1..] == C.Put(server.negotiatedVersion, 2, session);
    BigField(bs, 1, server.negotiatedVersion, 2, session);
    BigField(bs, 3, server.sessionId, 8, checkpoint);
    BigField(bs, 11, server.serverCheckpoint, 8, resume);
    BigField(bs, 19, server.requestedResumeFrom, 8, reason);
    BigText(bs, 27, server.reason, []);
    assert bs[31..] == bs[31..31 + |server.reason|];
  }

  /** Which error a bad header gives: an unknown version behind the right magic is told apart. */
  lemma VersionError(raw: seq<u8>)
    ensures W.Parse(raw) == Err(UnsupportedVersion) <==>
      |raw| >= 12 && raw[..4] == [0x4C, 0x45, 0x53, 0x47] && raw[4..6] != [0, 1]
  {
    hide W.TakePayload, B.FromBig, B.Big;
    if |raw| >= 12 {
      FirstBytes();
      NumberIs(raw[..4], 0x4C455347);
      NumberIs(raw[4..6], 1);
    }
  }

  /** Digits denote a number exactly when they are its digits. */
  lemma NumberIs(bs: seq<u8>, v: nat)
    requires v < B.Pow256(|bs|)
    ensures B.FromBig(bs) == v <==> bs == B.Big(v, |bs|)
  {
    B.BigOfFrom(bs);
    B.BigRoundTrip(v, |bs|);
  }
}
