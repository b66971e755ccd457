/** The transport frame, as the indexer writes and reads it and as the gateway does. */
module Frames {
  import opened ByteCodec
  import opened Bytes
  import opened Domain
  import opened Status

  const SNAPSHOT_RECORD: u8 := 1
  const DELTA_RECORD: u8 := 2
  const MIN_FRAME_SIZE := 17

  datatype MuninnFrame = MuninnFrame(kind: u8, createdAt: u64, routingKey: string, payload: seq<u8>)

  function FrameBytes(f: MuninnFrame): seq<u8> {
    [f.kind] + Put(f.createdAt, 8, PutString(f.routingKey, PutBlob(f.payload, [])))
  }

  /** The two lengths fit in 32 bits. */
  predicate FrameFits(f: MuninnFrame) {
    StringFits(f.routingKey) && BlobFits(f.payload)
  }

  predicate IsRecordKind(kind: u8) {
    kind == SNAPSHOT_RECORD || kind == DELTA_RECORD
  }

  /** Everything behind the kind; the payload ends where the frame ends. */
  function TakeFrame(kind: u8, bs: seq<u8>): Taken<MuninnFrame> {
    var (createdAt, r1) :- TakeU64(bs);
    var (routingKey, r2) :- TakeString(r1);
    var (size, r3) :- TakeU32(r2);
    if |r3| != size then Short else Took(MuninnFrame(kind, createdAt, routingKey, r3), [])
  }

  // ---- The gateway ----

  method SerializeMuninnFrame(f: MuninnFrame) returns (out: seq<u8>)
    ensures out == FrameBytes(f)
  {
    hide Big;
    out := [f.kind];
    var created := AppendU64Big(f.createdAt);
    out := out + created;
    out := AppendString(out, f.routingKey);
    var size := AppendU32Big(|f.payload| % LENGTHS);
    out := out + size;
    out := out + f.payload;
    PutStringAppends(f.routingKey, PutBlob(f.payload, []));
    assert f.payload + [] == f.payload;
  }

  /** What the gateway accepts. */
  function ParseFrame(raw: seq<u8>): StatusOr<MuninnFrame> {
    if |raw| < MIN_FRAME_SIZE || !IsRecordKind(raw[0]) || TakeFrame(raw[0], raw[1..]).Short? then Err(ParseError)
    else Ok(TakeFrame(raw[0], raw[1..]).value)
  }

  method ParseMuninnFrame(raw: seq<u8>) returns (r: StatusOr<MuninnFrame>)
    ensures r == ParseFrame(raw)
  {
    hide TakeU64, TakeU32;
    if |raw| < MIN_FRAME_SIZE {
      return Err(ParseError);
    }
    if !IsRecordKind(raw[0]) {
      return Err(ParseError);
    }
    var offset: nat := 1;
    var ok, createdAt, routeLength, payloadLength;
    ok, createdAt, offset := ReadU64(raw, offset);
    if !ok { return Err(ParseError); }
    ghost var r1 := raw[offset..];
    ok, routeLength, offset := ReadU32(raw, offset);
    if !ok { return Err(ParseError); }
    if offset + routeLength + 4 > |raw| {
      TooShort(r1);
      return Err(ParseError);
    }
    var routingKey := FromBytes(raw[offset..offset + routeLength]);
    assert raw[offset..][..routeLength] == raw[offset..offset + routeLength];
    assert raw[offset..][routeLength..] == raw[offset + routeLength..];
    offset := offset + routeLength;
    ok, payloadLength, offset := ReadU32(raw, offset);
    if !ok { return Err(ParseError); }
    if offset + payloadLength != |raw| {
      return Err(ParseError);
    }
    r := Ok(MuninnFrame(raw[0], createdAt, routingKey, raw[offset..]));
  }

  /** A routing key that leaves no room for the payload length cannot be part of a frame. */
  lemma TooShort(bs: seq<u8>)
    requires TakeU32(bs).Took? && |TakeU32(bs).rest| < TakeU32(bs).value as nat + 4
    ensures TakeString(bs).Took? ==> TakeU32(TakeString(bs).rest).Short?
  {}

  // ---- The indexer ----

  /** Lengths are written as the low half of a 64-bit number. */
  method SerializeFrame(f: MuninnFrame) returns (frame: seq<u8>)
    ensures frame == FrameBytes(f)
  {
    hide Big;
    frame := [f.kind];
    var created := AppendU64Big(f.createdAt);
    frame := frame + created;
    var routeLength := AppendU64Big(|f.routingKey| % LENGTHS);
    LowHalf(|f.routingKey| % LENGTHS);
    frame := frame + routeLength[4..];
    frame := frame + ToBytes(f.routingKey);
    var payloadLength := AppendU64Big(|f.payload| % LENGTHS);
    LowHalf(|f.payload| % LENGTHS);
    frame := frame + payloadLength[4..];
    frame := frame + f.payload;
    assert f.payload + [] == f.payload;
  }

  lemma LowHalf(v: u32)
    ensures Big(v, 8)[4..] == Big(v, 4)
  {
    BigFour(v, 8);
    BigFour(v, 4);
    assert Big(v, 4) == [] + [v / 0x100_0000 % 256, v / 0x1_0000 % 256, v / 0x100 % 256, v % 256];
  }

  /** What the indexer reads back; the kind is not looked at. */
  function ParseStored(raw: seq<u8>): Option<MuninnFrame> {
    if |raw| < MIN_FRAME_SIZE || TakeFrame(raw[0], raw[1..]).Short? then None
    else Some(TakeFrame(raw[0], raw[1..]).value)
  }

  /** The indexer's fixed-position decoding; a length is read with four zero bytes in front. */
  method ParseStoredFrame(raw: seq<u8>) returns (r: Option<MuninnFrame>)
    ensures r == ParseStored(raw)
  {
    hide TakeU32, TakeU64;
    if |raw| < MIN_FRAME_SIZE {
      return None;
    }
    var createdAt := DecodeU64Big(raw[1..9]);
    CreatedAt(raw);
    var routeLength := DecodeU64Big([0, 0, 0, 0] + raw[9..13]);
    LengthAt(raw, 9);
    if 13 + routeLength + 4 > |raw| {
      TooShort(raw[9..]);
      return None;
    }
    var routingKey := FromBytes(raw[13..13 + routeLength]);
    assert raw[13..][..routeLength] == raw[13..13 + routeLength];
    assert raw[13..][routeLength..] == raw[13 + routeLength..];
    var offset := 13 + routeLength;
    var payloadLength := DecodeU64Big([0, 0, 0, 0] + raw[offset..offset + 4]);
    LengthAt(raw, offset);
    if offset + 4 + payloadLength != |raw| {
      return None;
    }
    r := Some(MuninnFrame(raw[0], createdAt, routingKey, raw[offset + 4..]));
  }

  lemma CreatedAt(raw: seq<u8>)
    requires |raw| >= MIN_FRAME_SIZE
    ensures TakeU64(raw[1..]) == Took(DecodeU64Big(raw[1..9]), raw[9..])
  {
    assert raw[1..][..8] == raw[1..9] && raw[1..][8..] == raw[9..];
  }

  lemma LengthAt(raw: seq<u8>, offset: nat)
    requires offset + 4 <= |raw|
    ensures TakeU32(raw[offset..]) == Took(DecodeU64Big([0, 0, 0, 0] + raw[offset..offset + 4]), raw[offset + 4..])
  {
    var bs := raw[offset..offset + 4];
    assert raw[offset..][..4] == bs && raw[offset..][4..] == raw[offset + 4..];
    assert FromBig(bs) == DecodeU32Big(bs);
  }

  // ---- Exact inverses ----

  lemma FrameTaken(f: MuninnFrame)
    requires FrameFits(f)
    ensures TakeFrame(f.kind, FrameBytes(f)[1..]) == Took(f, []) && |FrameBytes(f)| >= MIN_FRAME_SIZE
  {
    hide TakeU32, TakeU64, TakeString, PutString, Put;
    FrameLength(f);
    var r2 := PutBlob(f.payload, []);
    var r1 := PutString(f.routingKey, r2);
    assert FrameBytes(f)[1..] == Put(f.createdAt, 8, r1);
    FieldTaken(f.createdAt, r1);
    StringTaken(f.routingKey, r2);
    assert f.payload + [] == f.payload;
    FieldTaken(|f.payload|, f.payload);
  }

  lemma FrameLength(f: MuninnFrame)
    ensures |FrameBytes(f)| == MIN_FRAME_SIZE + |f.routingKey| + |f.payload|
  {
    hide Big;
  }

  lemma FramePut(kind: u8, bs: seq<u8>)
    requires TakeFrame(kind, bs).Took?
    ensures var f := TakeFrame(kind, bs).value; f.kind == kind && FrameFits(f) && [kind] + bs == FrameBytes(f)
  {
    hide TakeU32, TakeU64, TakeString, PutString, Put;
    var r1 := TakeU64(bs).rest;
    var r2 := TakeString(r1).rest;
    FieldPut(bs);
    StringPut(r1);
    FieldPut(r2);
    var payload := TakeU32(r2).rest;
    assert payload + [] == payload;
  }

  /** Main result: the gateway accepts exactly the serialisations of frames with a known kind and
      32-bit lengths, and gives each frame back. */
  lemma ParseIffSerialized(raw: seq<u8>, f: MuninnFrame)
    ensures ParseFrame(raw) == Ok(f) <==> IsRecordKind(f.kind) && FrameFits(f) && raw == FrameBytes(f)
  {
    if ParseFrame(raw) == Ok(f) {
      FramePut(raw[0], raw[1..]);
      assert [raw[0]] + raw[1..] == raw;
    }
    if FrameFits(f) && raw == FrameBytes(f) {
      FrameTaken(f);
      assert raw[0] == f.kind;
    }
  }

  /** The indexer reads back what either side wrote, and the gateway accepts what the indexer
      accepts when the kind is known. */
  lemma StoredIffSerialized(raw: seq<u8>, f: MuninnFrame)
    ensures ParseStored(raw) == Some(f) <==> FrameFits(f) && raw == FrameBytes(f)
    ensures ParseFrame(raw) == Ok(f) <==> ParseStored(raw) == Some(f) && IsRecordKind(f.kind)
  {
    ParseIffSerialized(raw, f);
    if ParseStored(raw) == Some(f) {
      FramePut(raw[0], raw[1..]);
      assert [raw[0]] + raw[1..] == raw;
    }
    if FrameFits(f) && raw == FrameBytes(f) {
      FrameTaken(f);
      assert raw[0] == f.kind;
    }
  }

  /** The gateway takes frames of kinds 1 and 2 only; the indexer's own reader does not look. */
  lemma KindsTaken(f: MuninnFrame)
    requires FrameFits(f)
    ensures ParseFrame(FrameBytes(f)) == if f.kind == 1 || f.kind == 2 then Ok(f) else Err(ParseError)
    ensures ParseStored(FrameBytes(f)) == Some(f)
  {
    ParseIffSerialized(FrameBytes(f), f);
    StoredIffSerialized(FrameBytes(f), f);
  }
}
