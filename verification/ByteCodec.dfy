/** The big-endian append and read primitives of the gateway. */
module ByteCodec {
  import opened Bytes
  import opened Domain

  const LENGTHS: nat := 0x1_0000_0000

  datatype Taken<+T> = Short | Took(value: T, rest: seq<u8>) {
    predicate IsFailure() {
      Short?
    }

    function PropagateFailure<U>(): Taken<U>
      requires Short?
    {
      Short
    }

    function Extract(): (T, seq<u8>)
      requires Took?
    {
      (value, rest)
    }
  }

  function Put(v: nat, width: nat, rest: seq<u8>): seq<u8> {
    Big(v, width) + rest
  }

  function TakeNumber(bs: seq<u8>, width: nat): (r: Taken<nat>)
    ensures r.Took? ==> r.value < Pow256(width)
  {
    if |bs| < width then Short
    else
      FromBigBound(bs[..width]);
      Took(FromBig(bs[..width]), bs[width..])
  }

  function TakeU16(bs: seq<u8>): Taken<u16> {
    Widths();
    var (v, r) :- TakeNumber(bs, 2); Took(v, r)
  }

  function TakeU32(bs: seq<u8>): Taken<u32> {
    Widths();
    var (v, r) :- TakeNumber(bs, 4); Took(v, r)
  }

  function TakeU64(bs: seq<u8>): Taken<u64> {
    Widths();
    var (v, r) :- TakeNumber(bs, 8); Took(v, r)
  }

  function TakeBytes(bs: seq<u8>, n: nat): Taken<seq<u8>> {
    if |bs| < n then Short else Took(bs[..n], bs[n..])
  }

  /** The length is cast to 32 bits. */
  function PutBlob(b: seq<u8>, rest: seq<u8>): seq<u8> {
    Put(|b| % LENGTHS, 4, b + rest)
  }

  function TakeBlob(bs: seq<u8>): Taken<seq<u8>> {
    var (n, r) :- TakeU32(bs);
    TakeBytes(r, n)
  }

  function PutString(s: string, rest: seq<u8>): seq<u8> {
    PutBlob(ToBytes(s), rest)
  }

  function TakeString(bs: seq<u8>): Taken<string> {
    var (b, r) :- TakeBlob(bs);
    Took(FromBytes(b), r)
  }

  predicate BlobFits(b: seq<u8>) {
    |b| < LENGTHS
  }

  predicate StringFits(s: string) {
    |s| < LENGTHS && IsBytes(s)
  }

  // ---- Taking what was put ----

  lemma NumberTaken(v: nat, width: nat, rest: seq<u8>)
    requires v < Pow256(width)
    ensures TakeNumber(Put(v, width, rest), width) == Took(v, rest)
  {
    BigRoundTrip(v, width);
    assert Put(v, width, rest)[..width] == Big(v, width);
  }

  lemma FieldTaken(v: nat, rest: seq<u8>)
    ensures v < 0x1_0000 ==> TakeU16(Put(v, 2, rest)) == Took(v, rest)
    ensures v < 0x1_0000_0000 ==> TakeU32(Put(v, 4, rest)) == Took(v, rest)
    ensures v < 0x1_0000_0000_0000_0000 ==> TakeU64(Put(v, 8, rest)) == Took(v, rest)
  {
    hide TakeNumber, Put;
    Widths();
    if v < 0x1_0000 { NumberTaken(v, 2, rest); }
    if v < 0x1_0000_0000 { NumberTaken(v, 4, rest); }
    if v < 0x1_0000_0000_0000_0000 { NumberTaken(v, 8, rest); }
  }

  lemma BlobTaken(b: seq<u8>, rest: seq<u8>)
    requires BlobFits(b)
    ensures TakeBlob(PutBlob(b, rest)) == Took(b, rest)
  {
    hide TakeU32, Put;
    FieldTaken(|b|, b + rest);
    assert (b + rest)[..|b|] == b;
  }

  lemma StringTaken(s: string, rest: seq<u8>)
    requires StringFits(s)
    ensures TakeString(PutString(s, rest)) == Took(s, rest)
  {
    hide TakeBlob, PutBlob;
    BlobTaken(ToBytes(s), rest);
    BytesRoundTrip(s);
  }

  // ---- Putting what was taken ----

  lemma NumberPut(bs: seq<u8>, width: nat)
    requires TakeNumber(bs, width).Took?
    ensures bs == Put(TakeNumber(bs, width).value, width, TakeNumber(bs, width).rest)
  {
    BigOfFrom(bs[..width]);
  }

  lemma FieldPut(bs: seq<u8>)
    ensures TakeU16(bs).Took? ==> bs == Put(TakeU16(bs).value, 2, TakeU16(bs).rest)
    ensures TakeU32(bs).Took? ==> bs == Put(TakeU32(bs).value, 4, TakeU32(bs).rest)
    ensures TakeU64(bs).Took? ==> bs == Put(TakeU64(bs).value, 8, TakeU64(bs).rest)
  {
    hide TakeNumber, Put;
    if TakeU16(bs).Took? { NumberPut(bs, 2); }
    if TakeU32(bs).Took? { NumberPut(bs, 4); }
    if TakeU64(bs).Took? { NumberPut(bs, 8); }
  }

  lemma BlobPut(bs: seq<u8>)
    requires TakeBlob(bs).Took?
    ensures bs == PutBlob(TakeBlob(bs).value, TakeBlob(bs).rest) && BlobFits(TakeBlob(bs).value)
  {
    hide TakeU32, Put;
    FieldPut(bs);
    var r, n := TakeU32(bs).rest, TakeU32(bs).value;
    assert r == r[..n] + r[n..];
  }

  lemma StringPut(bs: seq<u8>)
    requires TakeString(bs).Took?
    ensures bs == PutString(TakeString(bs).value, TakeString(bs).rest) && StringFits(TakeString(bs).value)
  {
    hide TakeBlob, PutBlob;
    BlobPut(bs);
    BytesOfFrom(TakeBlob(bs).value);
  }

  // ---- The reading primitives, which move an offset ----

  /** A read at an offset took a value and moved the offset behind it, or failed. */
  ghost predicate Moved<T>(raw: seq<u8>, offset: nat, p: Taken<T>, ok: bool, v: T, offset': nat) {
    if ok then offset' <= |raw| && p == Took(v, raw[offset'..]) else p == Short && offset' == offset
  }

  method ReadU16(raw: seq<u8>, offset: nat) returns (ok: bool, v: u16, offset': nat)
    requires offset <= |raw|
    ensures Moved(raw, offset, TakeU16(raw[offset..]), ok, v, offset')
  {
    if offset + 2 > |raw| { return false, 0, offset; }
    assert raw[offset..][..2] == raw[offset..offset + 2] && raw[offset..][2..] == raw[offset + 2..];
    return true, DecodeU16Big(raw[offset..offset + 2]), offset + 2;
  }

  method ReadU32(raw: seq<u8>, offset: nat) returns (ok: bool, v: u32, offset': nat)
    requires offset <= |raw|
    ensures Moved(raw, offset, TakeU32(raw[offset..]), ok, v, offset')
  {
    if offset + 4 > |raw| { return false, 0, offset; }
    assert raw[offset..][..4] == raw[offset..offset + 4] && raw[offset..][4..] == raw[offset + 4..];
    return true, DecodeU32Big(raw[offset..offset + 4]), offset + 4;
  }

  method ReadU64(raw: seq<u8>, offset: nat) returns (ok: bool, v: u64, offset': nat)
    requires offset <= |raw|
    ensures Moved(raw, offset, TakeU64(raw[offset..]), ok, v, offset')
  {
    if offset + 8 > |raw| { return false, 0, offset; }
    assert raw[offset..][..8] == raw[offset..offset + 8] && raw[offset..][8..] == raw[offset + 8..];
    return true, DecodeU64Big(raw[offset..offset + 8]), offset + 8;
  }

  method ReadBytes(raw: seq<u8>, offset: nat, size: nat) returns (ok: bool, v: seq<u8>, offset': nat)
    requires offset <= |raw|
    ensures Moved(raw, offset, TakeBytes(raw[offset..], size), ok, v, offset')
  {
    if offset + size > |raw| { return false, [], offset; }
    assert raw[offset..][..size] == raw[offset..offset + size] && raw[offset..][size..] == raw[offset + size..];
    return true, raw[offset..offset + size], offset + size;
  }

  /** A failed read of the text leaves the offset behind the length; no caller goes on from there. */
  method ReadString(raw: seq<u8>, offset: nat) returns (ok: bool, v: string, offset': nat)
    requires offset <= |raw|
    ensures ok <==> TakeString(raw[offset..]).Took?
    ensures ok ==> offset' <= |raw| && TakeString(raw[offset..]) == Took(v, raw[offset'..])
  {
    hide TakeU32;
    var size;
    v := "";
    ok, size, offset' := ReadU32(raw, offset);
    if !ok { return; }
    if offset' + size > |raw| { return false, v, offset'; }
    assert raw[offset'..][..size] == raw[offset'..offset' + size] && raw[offset'..][size..] == raw[offset' + size..];
    v := FromBytes(raw[offset'..offset' + size]);
    offset' := offset' + size;
  }

  method AppendString(out: seq<u8>, s: string) returns (out': seq<u8>)
    ensures out' == out + PutString(s, [])
  {
    var length := AppendU32Big(|s| % LENGTHS);
    out' := out + length;
    out' := out' + ToBytes(s);
    assert ToBytes(s) + [] == ToBytes(s);
  }

  // ---- Putting in front of bytes and appending to bytes ----

  lemma PutBlobAppends(b: seq<u8>, rest: seq<u8>)
    ensures PutBlob(b, []) + rest == PutBlob(b, rest)
  {
    assert b + [] == b;
  }

  lemma PutStringAppends(s: string, rest: seq<u8>)
    ensures PutString(s, []) + rest == PutString(s, rest)
  {
    PutBlobAppends(ToBytes(s), rest);
  }
}
