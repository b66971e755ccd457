/** Fixed-width integers as bytes, in both byte orders, and strings as bytes. */
module Bytes {
  import opened Domain

  function Pow256(n: nat): (p: nat)
    ensures p > 0
  {
    if n == 0 then 1 else 256 * Pow256(n - 1)
  }

  lemma Widths()
    ensures Pow256(1) == 0x100 && Pow256(2) == 0x1_0000 && Pow256(4) == 0x1_0000_0000
    ensures Pow256(8) == 0x1_0000_0000_0000_0000
  {
    assert Pow256(3) == 0x100_0000 && Pow256(5) == 0x100_0000_0000 && Pow256(6) == 0x1_0000_0000_0000;
  }

  // ---- Little endian ----

  function Little(v: nat, width: nat): (bs: seq<u8>)
    ensures |bs| == width
  {
    if width == 0 then [] else [v % 256] + Little(v / 256, width - 1)
  }

  function FromLittle(bs: seq<u8>): nat {
    if bs == [] then 0 else bs[0] + 256 * FromLittle(bs[1..])
  }

  lemma {:induction false} LittleRoundTrip(v: nat, width: nat)
    requires v < Pow256(width)
    ensures FromLittle(Little(v, width)) == v
  {
    if width > 0 {
      LittleRoundTrip(v / 256, width - 1);
      assert Little(v, width)[1..] == Little(v / 256, width - 1);
    }
  }

  lemma {:induction false} FromLittleBound(bs: seq<u8>)
    ensures FromLittle(bs) < Pow256(|bs|)
  {
    if bs != [] { FromLittleBound(bs[1..]); }
  }

  // ---- Big endian ----

  function Big(v: nat, width: nat): (bs: seq<u8>)
    ensures |bs| == width
  {
    if width == 0 then [] else Big(v / 256, width - 1) + [v % 256]
  }

  function FromBig(bs: seq<u8>): nat {
    if bs == [] then 0 else FromBig(bs[..|bs| - 1]) * 256 + bs[|bs| - 1]
  }

  lemma {:induction false} BigRoundTrip(v: nat, width: nat)
    requires v < Pow256(width)
    ensures FromBig(Big(v, width)) == v
  {
    if width > 0 {
      BigRoundTrip(v / 256, width - 1);
      assert Big(v, width)[..width - 1] == Big(v / 256, width - 1);
    }
  }

  lemma {:induction false} FromBigBound(bs: seq<u8>)
    ensures FromBig(bs) < Pow256(|bs|)
  {
    if bs != [] { FromBigBound(bs[..|bs| - 1]); }
  }

  lemma {:induction false} BigOfFrom(bs: seq<u8>)
    ensures Big(FromBig(bs), |bs|) == bs
  {
    if bs != [] {
      var init := bs[..|bs| - 1];
      BigOfFrom(init);
      assert FromBig(bs) / 256 == FromBig(init);
      assert bs == init + [bs[|bs| - 1]];
    }
  }

  // ---- The shift-and-mask encoders and decoders ----

  method EncodeU16Little(v: u16) returns (out: seq<u8>)
    ensures out == Little(v, 2)
  {
    out := [v % 256, v / 0x100 % 256];
    LittleTwice(v, 2);
  }

  lemma LittleTwice(v: nat, width: nat)
    requires width >= 2
    ensures Little(v, width) == [v % 256, v / 0x100 % 256] + Little(v / 0x1_0000, width - 2)
  {
    assert Little(v, width) == [v % 256] + Little(v / 0x100, width - 1);
    assert Little(v / 0x100, width - 1) == [v / 0x100 % 256] + Little(v / 0x100 / 0x100, width - 2);
    assert v / 0x100 / 0x100 == v / 0x1_0000;
  }

  method EncodeU32Little(v: u32) returns (out: seq<u8>)
    ensures out == Little(v, 4)
  {
    out := [v % 256, v / 0x100 % 256, v / 0x1_0000 % 256, v / 0x100_0000 % 256];
    LittleFour(v, 4);
  }

  lemma LittleFour(v: nat, width: nat)
    requires width >= 4
    ensures Little(v, width) ==
      [v % 256, v / 0x100 % 256, v / 0x1_0000 % 256, v / 0x100_0000 % 256] + Little(v / 0x1_0000_0000, width - 4)
  {
    var w := v / 0x1_0000;
    LittleTwice(v, width);
    LittleTwice(w, width - 2);
    assert w / 0x100 == v / 0x100_0000 && w / 0x1_0000 == v / 0x1_0000_0000;
  }

  method EncodeU64Little(v: u64) returns (out: seq<u8>)
    ensures out == Little(v, 8)
  {
    out := [v % 256, v / 0x100 % 256, v / 0x1_0000 % 256, v / 0x100_0000 % 256,
            v / 0x1_0000_0000 % 256, v / 0x100_0000_0000 % 256, v / 0x1_0000_0000_0000 % 256, v / 0x100_0000_0000_0000 % 256];
    var w := v / 0x1_0000_0000;
    LittleFour(v, 8);
    LittleFour(w, 4);
    HighHalf(v);
  }

  lemma HighHalf(v: nat)
    ensures var w := v / 0x1_0000_0000;
      w / 0x100 == v / 0x100_0000_0000 && w / 0x1_0000 == v / 0x1_0000_0000_0000 && w / 0x100_0000 == v / 0x100_0000_0000_0000
  {}

  lemma FromLittleTwice(bs: seq<u8>)
    requires |bs| >= 2
    ensures FromLittle(bs) == bs[0] + 0x100 * bs[1] + 0x1_0000 * FromLittle(bs[2..])
  {
    assert bs[1..][1..] == bs[2..];
    assert FromLittle(bs[1..]) == bs[1] + 256 * FromLittle(bs[2..]);
  }

  function DecodeU16Little(bs: seq<u8>): (v: u16)
    requires |bs| == 2
    ensures v == FromLittle(bs)
  {
    FromLittleTwice(bs);
    bs[0] as int + bs[1] as int * 0x100
  }

  function DecodeU32Little(bs: seq<u8>): (v: u32)
    requires |bs| == 4
    ensures v == FromLittle(bs)
  {
    FromLittleTwice(bs);
    FromLittleTwice(bs[2..]);
    assert bs[2..][2..] == [];
    bs[0] as int + bs[1] as int * 0x100 + bs[2] as int * 0x1_0000 + bs[3] as int * 0x100_0000
  }

  function DecodeU64Little(bs: seq<u8>): (v: u64)
    requires |bs| == 8
    ensures v == FromLittle(bs)
  {
    FromLittleTwice(bs);
    FromLittleTwice(bs[2..]);
    FromLittleTwice(bs[4..]);
    FromLittleTwice(bs[6..]);
    assert bs[2..][2..] == bs[4..] && bs[4..][2..] == bs[6..] && bs[6..][2..] == [];
    bs[0] as int + bs[1] as int * 0x100 + bs[2] as int * 0x1_0000 + bs[3] as int * 0x100_0000
    + bs[4] as int * 0x1_0000_0000 + bs[5] as int * 0x100_0000_0000 + bs[6] as int * 0x1_0000_0000_0000 + bs[7] as int * 0x100_0000_0000_0000
  }

  method AppendU16Big(v: u16) returns (out: seq<u8>)
    ensures out == Big(v, 2)
  {
    out := [v / 0x100 % 256, v % 256];
    BigTwice(v, 2);
  }

  lemma BigTwice(v: nat, width: nat)
    requires width >= 2
    ensures Big(v, width) == Big(v / 0x1_0000, width - 2) + [v / 0x100 % 256, v % 256]
  {
    assert Big(v, width) == Big(v / 0x100, width - 1) + [v % 256];
    assert Big(v / 0x100, width - 1) == Big(v / 0x100 / 0x100, width - 2) + [v / 0x100 % 256];
    assert v / 0x100 / 0x100 == v / 0x1_0000;
  }

  method AppendU32Big(v: u32) returns (out: seq<u8>)
    ensures out == Big(v, 4)
  {
    out := [v / 0x100_0000 % 256, v / 0x1_0000 % 256, v / 0x100 % 256, v % 256];
    BigFour(v, 4);
  }

  lemma BigFour(v: nat, width: nat)
    requires width >= 4
    ensures Big(v, width) ==
      Big(v / 0x1_0000_0000, width - 4) + [v / 0x100_0000 % 256, v / 0x1_0000 % 256, v / 0x100 % 256, v % 256]
  {
    var w := v / 0x1_0000;
    BigTwice(v, width);
    BigTwice(w, width - 2);
    assert w / 0x100 == v / 0x100_0000 && w / 0x1_0000 == v / 0x1_0000_0000;
  }

  method AppendU64Big(v: u64) returns (out: seq<u8>)
    ensures out == Big(v, 8)
  {
    out := [v / 0x100_0000_0000_0000 % 256, v / 0x1_0000_0000_0000 % 256, v / 0x100_0000_0000 % 256, v / 0x1_0000_0000 % 256,
            v / 0x100_0000 % 256, v / 0x1_0000 % 256, v / 0x100 % 256, v % 256];
    var w := v / 0x1_0000_0000;
    BigFour(v, 8);
    BigFour(w, 4);
    HighHalf(v);
  }

  lemma FromBigTwice(bs: seq<u8>)
    requires |bs| >= 2
    ensures FromBig(bs) == FromBig(bs[..|bs| - 2]) * 0x1_0000 + bs[|bs| - 2] as int * 0x100 + bs[|bs| - 1]
  {
    var n := |bs|;
    assert bs[..n - 1][..n - 2] == bs[..n - 2];
    assert FromBig(bs[..n - 1]) == FromBig(bs[..n - 2]) * 256 + bs[n - 2];
  }

  function DecodeU16Big(bs: seq<u8>): (v: u16)
    requires |bs| == 2
    ensures v == FromBig(bs)
  {
    FromBigTwice(bs);
    bs[0] as int * 0x100 + bs[1]
  }

  function DecodeU32Big(bs: seq<u8>): (v: u32)
    requires |bs| == 4
    ensures v == FromBig(bs)
  {
    FromBigTwice(bs);
    FromBigTwice(bs[..2]);
    assert bs[..2][..0] == [];
    bs[0] as int * 0x100_0000 + bs[1] as int * 0x1_0000 + bs[2] as int * 0x100 + bs[3]
  }

  function DecodeU64Big(bs: seq<u8>): (v: u64)
    requires |bs| == 8
    ensures v == FromBig(bs)
  {
    FromBigTwice(bs);
    FromBigTwice(bs[..6]);
    FromBigTwice(bs[..4]);
    FromBigTwice(bs[..2]);
    assert bs[..6][..4] == bs[..4] && bs[..4][..2] == bs[..2] && bs[..2][..0] == [];
    bs[0] as int * 0x100_0000_0000_0000 + bs[1] as int * 0x1_0000_0000_0000 + bs[2] as int * 0x100_0000_0000 + bs[3] as int * 0x1_0000_0000
    + bs[4] as int * 0x100_0000 + bs[5] as int * 0x1_0000 + bs[6] as int * 0x100 + bs[7]
  }

  // ---- Strings: every character of a std::string is a byte ----

  predicate IsBytes(s: string) {
    forall i :: 0 <= i < |s| ==> s[i] as int < 256
  }

  function ToBytes(s: string): (bs: seq<u8>)
    ensures |bs| == |s|
  {
    seq(|s|, i requires 0 <= i < |s| => s[i] as int % 256)
  }

  function FromBytes(bs: seq<u8>): (s: string)
    ensures |s| == |bs| && IsBytes(s)
  {
    seq(|bs|, i requires 0 <= i < |bs| => bs[i] as char)
  }

  lemma BytesRoundTrip(s: string)
    requires IsBytes(s)
    ensures FromBytes(ToBytes(s)) == s
  {}

  lemma BytesOfFrom(bs: seq<u8>)
    ensures ToBytes(FromBytes(bs)) == bs
  {}

  // ---- Signed 64-bit numbers as two's complement ----

  function Unsigned(v: i64): u64 {
    if v < 0 then v + 0x1_0000_0000_0000_0000 else v
  }

  function Signed(v: u64): i64 {
    if v >= 0x8000_0000_0000_0000 then v - 0x1_0000_0000_0000_0000 else v
  }
}
