/** The base64 codec both programs share (section 4 of RFC 4648), and the gateway's estimate of
    the decoded size. */
module Base64 {
  import opened Domain

  // ---- The alphabet ----

  function Symbol(v: nat): (c: char)
    requires v < 64
    ensures c != '='
  {
    if v < 26 then (v + 'A' as int) as char
    else if v < 52 then (v - 26 + 'a' as int) as char
    else if v < 62 then (v - 52 + '0' as int) as char
    else if v == 62 then '+'
    else '/'
  }

  /** The decoding table. */
  function Index(c: char): (r: Option<nat>)
    ensures r.Some? ==> r.value < 64
  {
    if 'A' <= c <= 'Z' then Some(c as int - 'A' as int)
    else if 'a' <= c <= 'z' then Some(c as int - 'a' as int + 26)
    else if '0' <= c <= '9' then Some(c as int - '0' as int + 52)
    else if c == '+' then Some(62)
    else if c == '/' then Some(63)
    else None
  }

  lemma SymbolIndexed(v: nat)
    requires v < 64
    ensures Index(Symbol(v)) == Some(v)
  {}

  // ---- Encoding ----

  function Sextets(chunk: nat): (s: string)
    requires chunk < 0x100_0000
    ensures |s| == 4
  {
    [Symbol(chunk / 0x4_0000 % 64), Symbol(chunk / 0x1000 % 64), Symbol(chunk / 64 % 64), Symbol(chunk % 64)]
  }

  function Chunk(a: u8, b: u8, c: u8): (r: nat)
    ensures r < 0x100_0000
  {
    a as int * 0x1_0000 + b as int * 0x100 + c
  }

  function Encode(raw: seq<u8>): string {
    if raw == [] then ""
    else if |raw| == 1 then Sextets(Chunk(raw[0], 0, 0))[..2] + "=="
    else if |raw| == 2 then Sextets(Chunk(raw[0], raw[1], 0))[..3] + "="
    else Sextets(Chunk(raw[0], raw[1], raw[2])) + Encode(raw[3..])
  }

  method Base64Encode(raw: seq<u8>) returns (out: string)
    ensures out == Encode(raw)
  {
    out := "";
    var index := 0;
    while index + 3 <= |raw|
      invariant 0 <= index <= |raw|
      invariant out + Encode(raw[index..]) == Encode(raw)
    {
      var chunk := Chunk(raw[index], raw[index + 1], raw[index + 2]);
      assert raw[index..][3..] == raw[index + 3..];
      out := out + [Symbol(chunk / 0x4_0000 % 64), Symbol(chunk / 0x1000 % 64), Symbol(chunk / 64 % 64), Symbol(chunk % 64)];
      index := index + 3;
    }
    var tail := |raw| - index;
    if tail == 1 {
      var chunk := Chunk(raw[index], 0, 0);
      out := out + [Symbol(chunk / 0x4_0000 % 64), Symbol(chunk / 0x1000 % 64), '=', '='];
    } else if tail == 2 {
      var chunk := Chunk(raw[index], raw[index + 1], 0);
      out := out + [Symbol(chunk / 0x4_0000 % 64), Symbol(chunk / 0x1000 % 64), Symbol(chunk / 64 % 64), '='];
    }
  }

  // ---- Decoding ----

  function Pack(v0: nat, v1: nat, v2: nat, v3: nat): nat {
    v0 * 0x4_0000 + v1 * 0x1000 + v2 * 64 + v3
  }

  /** The bytes of a chunk that padding leaves. */
  function Unpack(chunk: nat, second: bool, third: bool): (bs: seq<u8>)
    ensures |bs| == 1 + (if second then 1 else 0) + (if third then 1 else 0)
  {
    [chunk / 0x1_0000 % 256] + (if second then [chunk / 0x100 % 256] else []) + (if third then [chunk % 256] else [])
  }

  function Place(c: char): nat {
    if c == '=' || Index(c).None? then 0 else Index(c).value
  }

  /** Padding is looked for in the last two places of every group, not only the last group. */
  function DecodeGroup(c0: char, c1: char, c2: char, c3: char): (r: Option<seq<u8>>)
    ensures r.Some? ==> |r.value| == 3 - (if c2 == '=' then 1 else 0) - (if c3 == '=' then 1 else 0)
    ensures r.Some? ==> c0 != '=' && c1 != '='
  {
    if Index(c0).None? || Index(c1).None? || (c2 != '=' && Index(c2).None?) || (c3 != '=' && Index(c3).None?) then None
    else Some(Unpack(Pack(Place(c0), Place(c1), Place(c2), Place(c3)), c2 != '=', c3 != '='))
  }

  function DecodeGroups(text: string): Option<seq<u8>> {
    if text == "" then Some([])
    else if |text| < 4 then None
    else
      match DecodeGroup(text[0], text[1], text[2], text[3])
      case None => None
      case Some(g) =>
        match DecodeGroups(text[4..])
        case None => None
        case Some(rest) => Some(g + rest)
  }

  function Decode(text: string): Option<seq<u8>> {
    if |text| % 4 != 0 then None else DecodeGroups(text)
  }

  /** The body of the decoding loop. */
  method DecodeFour(c0: char, c1: char, c2: char, c3: char) returns (r: Option<seq<u8>>)
    ensures r == DecodeGroup(c0, c1, c2, c3)
  {
    hide Index, Pack;
    if Index(c0).None? || Index(c1).None? {
      return None;
    }
    if (c2 != '=' && Index(c2).None?) || (c3 != '=' && Index(c3).None?) {
      return None;
    }
    NoIndex();
    var v0, v1 := Index(c0).value, Index(c1).value;
    var v2 := if c2 == '=' then 0 else Index(c2).value;
    var v3 := if c3 == '=' then 0 else Index(c3).value;
    var chunk := Pack(v0, v1, v2, v3);
    var out: seq<u8> := [chunk / 0x1_0000 % 256];
    if c2 != '=' {
      out := out + [chunk / 0x100 % 256];
    }
    if c3 != '=' {
      out := out + [chunk % 256];
    }
    assert out == Unpack(chunk, c2 != '=', c3 != '=');
    r := Some(out);
  }

  lemma NoIndex()
    ensures Index('=').None?
  {}

  method Base64Decode(encoded: string) returns (r: Option<seq<u8>>)
    ensures r == Decode(encoded)
  {
    if |encoded| % 4 != 0 {
      return None;
    }
    hide DecodeGroups, DecodeGroup, Behind;
    var out: seq<u8> := [];
    var i := 0;
    ghost var left: nat := |encoded| / 4;
    BehindNothing(encoded);
    while i < |encoded|
      invariant |encoded| == i + 4 * left
      invariant DecodeGroups(encoded) == Behind(out, DecodeGroups(encoded[i..]))
      decreases left
    {
      GroupTurn(encoded, i, out);
      NoneBehind(out);
      var group := DecodeFour(encoded[i], encoded[i + 1], encoded[i + 2], encoded[i + 3]);
      if group.None? {
        return None;
      }
      out := out + group.value;
      i := i + 4;
      left := left - 1;
    }
    BehindEverything(encoded, out);
    r := Some(out);
  }

  lemma NoneBehind(out: seq<u8>)
    ensures Behind(out, None) == None
  {}

  lemma BehindEverything(text: string, out: seq<u8>)
    ensures Behind(out, DecodeGroups(text[|text|..])) == Some(out)
  {
    assert out + [] == out;
  }

  lemma BehindNothing(text: string)
    ensures Behind([], DecodeGroups(text[0..])) == DecodeGroups(text)
  {
    assert text[0..] == text;
    if DecodeGroups(text).Some? { assert [] + DecodeGroups(text).value == DecodeGroups(text).value; }
  }

  function Behind(out: seq<u8>, rest: Option<seq<u8>>): Option<seq<u8>> {
    match rest
    case None => None
    case Some(bs) => Some(out + bs)
  }

  lemma GroupTurn(text: string, i: nat, out: seq<u8>)
    requires i + 4 <= |text|
    ensures var g := DecodeGroup(text[i], text[i + 1], text[i + 2], text[i + 3]);
      Behind(out, DecodeGroups(text[i..])) == if g.None? then None else Behind(out + g.value, DecodeGroups(text[i + 4..]))
  {
    hide DecodeGroup;
    var g, rest := DecodeGroup(text[i], text[i + 1], text[i + 2], text[i + 3]), DecodeGroups(text[i + 4..]);
    GroupsUnfold(text[i..]);
    assert text[i..][4..] == text[i + 4..];
    hide DecodeGroups;
    if g.Some? && rest.Some? {
      assert out + (g.value + rest.value) == (out + g.value) + rest.value;
    }
  }

  lemma GroupsUnfold(text: string)
    requires |text| >= 4
    ensures var g, rest := DecodeGroup(text[0], text[1], text[2], text[3]), DecodeGroups(text[4..]);
      DecodeGroups(text) == if g.None? || rest.None? then None else Some(g.value + rest.value)
  {
    hide DecodeGroup;
  }

  lemma LastGroup(text: string, g: seq<u8>)
    requires |text| == 4 && DecodeGroup(text[0], text[1], text[2], text[3]) == Some(g)
    ensures Decode(text) == Some(g)
  {
    GroupsUnfold(text);
    assert text[4..] == "" && g + [] == g;
    hide DecodeGroup;
  }

  // ---- Round trip ----

  lemma Placed(v: nat)
    requires v < 64
    ensures Symbol(v) != '=' && Index(Symbol(v)) == Some(v) && Place(Symbol(v)) == v
  {
    SymbolIndexed(v);
  }

  lemma SextetsPacked(chunk: nat)
    requires chunk < 0x100_0000
    ensures Pack(chunk / 0x4_0000 % 64, chunk / 0x1000 % 64, chunk / 64 % 64, chunk % 64) == chunk
  {
    assert chunk / 0x1000 == chunk / 64 / 64 && chunk / 0x4_0000 == chunk / 0x1000 / 64;
  }

  lemma ChunkUnpacked(a: u8, b: u8, c: u8, second: bool, third: bool)
    ensures Unpack(Chunk(a, b, c), second, third) == [a] + (if second then [b] else []) + (if third then [c] else [])
  {
    var chunk := Chunk(a, b, c);
    assert chunk / 0x1_0000 == a && chunk / 0x100 == a as int * 0x100 + b;
  }

  /** Four symbols of a chunk decode to the chunk; a padded place must stand for 0. */
  lemma SextetsDecode(chunk: nat, c2: char, c3: char)
    requires chunk < 0x100_0000
    requires c2 == Sextets(chunk)[2] || (c2 == '=' && chunk / 64 % 64 == 0)
    requires c3 == Sextets(chunk)[3] || (c3 == '=' && chunk % 64 == 0)
    ensures DecodeGroup(Sextets(chunk)[0], Sextets(chunk)[1], c2, c3) == Some(Unpack(chunk, c2 != '=', c3 != '='))
  {
    hide Symbol, Index, Pack, Unpack, Place;
    Placed(chunk / 0x4_0000 % 64);
    Placed(chunk / 0x1000 % 64);
    Placed(chunk / 64 % 64);
    Placed(chunk % 64);
    NoPlace();
    SextetsPacked(chunk);
  }

  lemma NoPlace()
    ensures Place('=') == 0
  {}

  lemma PaddedIsZero(a: u8, b: u8)
    ensures Chunk(a, b, 0) % 64 == 0
    ensures Chunk(a, 0, 0) % 64 == 0 && Chunk(a, 0, 0) / 64 % 64 == 0
  {
    MultipleOf64(Chunk(a, b, 0), a as int * 1024 + b as int * 4);
    MultipleOf64(Chunk(a, 0, 0), a as int * 1024);
    MultipleOf64(a as int * 1024, a as int * 16);
  }

  lemma MultipleOf64(n: nat, k: nat)
    requires n == 64 * k
    ensures n % 64 == 0 && n / 64 == k
  {}

  lemma {:induction false} EncodeLength(raw: seq<u8>)
    ensures |Encode(raw)| == (|raw| + 2) / 3 * 4
  {
    hide Sextets, Chunk;
    if |raw| >= 3 {
      EncodeLength(raw[3..]);
      assert (|raw| + 2) / 3 == (|raw| - 3 + 2) / 3 + 1;
    }
  }

  /** Main result: decoding what was encoded gives the bytes back, for all byte strings. */
  lemma {:induction false} DecodeEncode(raw: seq<u8>)
    ensures Decode(Encode(raw)) == Some(raw)
  {
    hide Sextets, DecodeGroup, DecodeGroups, Chunk, Unpack;
    EncodeLength(raw);
    var text := Encode(raw);
    if raw == [] {
      NothingDecodes();
    } else if |raw| == 1 {
      PaddedIsZero(raw[0], 0);
      SextetsDecode(Chunk(raw[0], 0, 0), '=', '=');
      ChunkUnpacked(raw[0], 0, 0, false, false);
      assert raw == [raw[0]] + [] + [];
      LastGroup(text, raw);
    } else if |raw| == 2 {
      PaddedIsZero(raw[0], raw[1]);
      SextetsDecode(Chunk(raw[0], raw[1], 0), text[2], '=');
      ChunkUnpacked(raw[0], raw[1], 0, true, false);
      SextetsPlain(Chunk(raw[0], raw[1], 0));
      assert raw == [raw[0]] + [raw[1]] + [];
      LastGroup(text, raw);
    } else {
      EncodeLength(raw[3..]);
      SextetsDecode(Chunk(raw[0], raw[1], raw[2]), text[2], text[3]);
      ChunkUnpacked(raw[0], raw[1], raw[2], true, true);
      SextetsPlain(Chunk(raw[0], raw[1], raw[2]));
      DecodeEncode(raw[3..]);
      assert text[4..] == Encode(raw[3..]);
      GroupsUnfold(text);
      assert raw == [raw[0]] + [raw[1]] + [raw[2]] + raw[3..];
    }
  }

  lemma NothingDecodes()
    ensures Encode([]) == "" && Decode("") == Some([])
  {}

  lemma SextetsPlain(chunk: nat)
    requires chunk < 0x100_0000
    ensures forall i :: 0 <= i < 4 ==> Sextets(chunk)[i] != '='
  {
    hide Symbol;
  }

  // ---- The size estimate ----

  function EstimateDecodedSize(encoded: string): Option<nat> {
    if encoded == "" then Some(0)
    else if |encoded| % 4 != 0 then None
    else
      var n := |encoded|;
      Some(n / 4 * 3 - (if encoded[n - 1] == '=' then 1 else 0) - (if encoded[n - 2] == '=' then 1 else 0))
  }

  /** How many padding characters the last two places of the groups hold. */
  function Paddings(text: string): nat
    requires |text| % 4 == 0
  {
    if text == "" then 0
    else (if text[2] == '=' then 1 else 0) + (if text[3] == '=' then 1 else 0) + Paddings(text[4..])
  }

  lemma {:induction false} DecodedSize(text: string)
    requires |text| % 4 == 0 && DecodeGroups(text).Some?
    ensures |DecodeGroups(text).value| + Paddings(text) == |text| / 4 * 3
  {
    hide DecodeGroup;
    if text != "" {
      GroupsUnfold(text);
      hide DecodeGroups;
      DecodedSize(text[4..]);
    }
  }

  /** The first two places of a group are never padded in an accepted text. */
  lemma {:induction false} PlainPlaces(text: string)
    requires |text| % 4 == 0 && DecodeGroups(text).Some?
    ensures forall i :: 0 <= i < |text| && i % 4 < 2 ==> text[i] != '='
  {
    hide DecodeGroup;
    if text != "" {
      GroupsUnfold(text);
      hide DecodeGroups;
      PlainPlaces(text[4..]);
      forall i | 0 <= i < |text| && i % 4 < 2 ensures text[i] != '=' {
        if i >= 4 { assert text[i] == text[4..][i - 4]; }
      }
    }
  }

  lemma {:induction false} PaddingsSplit(text: string)
    requires |text| % 4 == 0 && text != ""
    ensures var n := |text|;
      Paddings(text) == Paddings(text[..n - 4]) + (if text[n - 2] == '=' then 1 else 0) + (if text[n - 1] == '=' then 1 else 0)
  {
    if |text| > 4 {
      var n := |text|;
      PaddingsSplit(text[4..]);
      assert text[4..][..n - 8] == text[..n - 4][4..];
    } else {
      assert text[..0] == "" && text[4..] == "";
    }
  }

  lemma {:induction false} NoPaddings(text: string)
    requires |text| % 4 == 0 && forall i :: 0 <= i < |text| && i % 4 < 2 ==> text[i] != '='
    ensures Paddings(text) == 0 <==> '=' !in text
  {
    if text != "" {
      forall i | 0 <= i < |text| - 4 && i % 4 < 2 ensures text[4..][i] != '=' { assert text[i + 4] != '='; }
      NoPaddings(text[4..]);
      assert text == [text[0], text[1], text[2], text[3]] + text[4..];
    }
  }

  /** Main result: every accepted text has an estimate, which bounds the decoded size, and meets it
      exactly when no group but the last has padding. */
  lemma EstimateBounds(text: string)
    requires Decode(text).Some?
    ensures EstimateDecodedSize(text).Some? && |Decode(text).value| <= EstimateDecodedSize(text).value
    ensures |Decode(text).value| == EstimateDecodedSize(text).value <==> text == "" || '=' !in text[..|text| - 4]
  {
    hide DecodeGroups, Paddings;
    DecodedSize(text);
    PlainPlaces(text);
    NoText();
    if text != "" {
      PaddingsSplit(text);
      var front := text[..|text| - 4];
      forall i | 0 <= i < |front| && i % 4 < 2 ensures front[i] != '=' { assert text[i] != '='; }
      NoPaddings(front);
    }
  }

  lemma NoText()
    ensures Paddings("") == 0
  {}

  /** On the program's own encodings the estimate is the size. */
  lemma {:induction false} EstimateOfEncoding(raw: seq<u8>)
    ensures EstimateDecodedSize(Encode(raw)) == Some(|raw|)
  {
    DecodeEncode(raw);
    EstimateBounds(Encode(raw));
    if raw != [] { PaddingOnlyAtEnd(raw); }
  }

  lemma {:induction false} PaddingOnlyAtEnd(raw: seq<u8>)
    requires raw != []
    ensures |Encode(raw)| >= 4 && '=' !in Encode(raw)[..|Encode(raw)| - 4]
  {
    hide Sextets, Chunk;
    EncodeLength(raw);
    if |raw| > 3 {
      PaddingOnlyAtEnd(raw[3..]);
      var group, rest := Sextets(Chunk(raw[0], raw[1], raw[2])), Encode(raw[3..]);
      assert Encode(raw)[..|Encode(raw)| - 4] == group + rest[..|rest| - 4];
      SextetsPlain(Chunk(raw[0], raw[1], raw[2]));
    }
  }

  // ---- Against the standard ----

  /** The alphabet of table 1 of RFC 4648. */
  predicate InAlphabet(c: char) {
    'A' <= c <= 'Z' || 'a' <= c <= 'z' || '0' <= c <= '9' || c == '+' || c == '/'
  }

  /** Its order, by the values of the first and the last of each range, both ways. */
  lemma AlphabetIs(v: nat, c: char)
    requires v < 64
    ensures Symbol(0) == 'A' && Symbol(25) == 'Z' && Symbol(26) == 'a' && Symbol(51) == 'z'
    ensures Symbol(52) == '0' && Symbol(61) == '9' && Symbol(62) == '+' && Symbol(63) == '/'
    ensures v !in {25, 51, 61, 62, 63} ==> Symbol(v + 1) as int == Symbol(v) as int + 1
    ensures Index(c) == Some(v) <==> c == Symbol(v)
    ensures Index(c).Some? <==> InAlphabet(c)
  {}

  /** Every bit of a group: four symbols of six bits are three bytes of eight. */
  lemma GroupBits(v0: nat, v1: nat, v2: nat, v3: nat)
    requires v0 < 64 && v1 < 64 && v2 < 64 && v3 < 64
    ensures DecodeGroup(Symbol(v0), Symbol(v1), Symbol(v2), Symbol(v3)) ==
      Some([4 * v0 + v1 / 16, 16 * (v1 % 16) + v2 / 4, 64 * (v2 % 4) + v3])
    ensures DecodeGroup(Symbol(v0), Symbol(v1), Symbol(v2), '=') == Some([4 * v0 + v1 / 16, 16 * (v1 % 16) + v2 / 4])
    ensures DecodeGroup(Symbol(v0), Symbol(v1), '=', '=') == Some([4 * v0 + v1 / 16])
    ensures DecodeGroup(Symbol(v0), Symbol(v1), '=', Symbol(v3)) == Some([4 * v0 + v1 / 16, v3])
  {
    hide Symbol, Index, Place, DecodeGroup, Pack, Unpack;
    UnpackIs(Pack(v0, v1, v2, v3));
    UnpackIs(Pack(v0, v1, v2, 0));
    UnpackIs(Pack(v0, v1, 0, 0));
    UnpackIs(Pack(v0, v1, 0, v3));
    Placed(v0);
    Placed(v1);
    Placed(v2);
    Placed(v3);
    NoPlace();
    GroupUnpacked(Symbol(v0), Symbol(v1), Symbol(v2), Symbol(v3));
    GroupUnpacked(Symbol(v0), Symbol(v1), Symbol(v2), '=');
    GroupUnpacked(Symbol(v0), Symbol(v1), '=', '=');
    GroupUnpacked(Symbol(v0), Symbol(v1), '=', Symbol(v3));
    PackBytes(v0, v1, v2, v3);
    PackBytes(v0, v1, v2, 0);
    PackBytes(v0, v1, 0, 0);
    PackBytes(v0, v1, 0, v3);
  }

  lemma UnpackIs(chunk: nat)
    ensures Unpack(chunk, true, true) == [chunk / 0x1_0000 % 256, chunk / 0x100 % 256, chunk % 256]
    ensures Unpack(chunk, true, false) == [chunk / 0x1_0000 % 256, chunk / 0x100 % 256]
    ensures Unpack(chunk, false, true) == [chunk / 0x1_0000 % 256, chunk % 256]
    ensures Unpack(chunk, false, false) == [chunk / 0x1_0000 % 256]
  {}

  lemma GroupUnpacked(c0: char, c1: char, c2: char, c3: char)
    requires Index(c0).Some? && Index(c1).Some? && (c2 == '=' || Index(c2).Some?) && (c3 == '=' || Index(c3).Some?)
    ensures DecodeGroup(c0, c1, c2, c3) == Some(Unpack(Pack(Place(c0), Place(c1), Place(c2), Place(c3)), c2 != '=', c3 != '='))
  {
    hide Index, Place, Pack, Unpack;
  }

  lemma PackBytes(v0: nat, v1: nat, v2: nat, v3: nat)
    requires v0 < 64 && v1 < 64 && v2 < 64 && v3 < 64
    ensures var chunk := Pack(v0, v1, v2, v3);
      && chunk / 0x1_0000 % 256 == 4 * v0 + v1 / 16
      && chunk / 0x100 % 256 == 16 * (v1 % 16) + v2 / 4
      && chunk % 256 == 64 * (v2 % 4) + v3
  {
    var b0, b1, b2 := 4 * v0 + v1 / 16, 16 * (v1 % 16) + v2 / 4, 64 * (v2 % 4) + v3;
    assert Pack(v0, v1, v2, v3) == b0 * 0x1_0000 + b1 * 0x100 + b2;
    BytesOf(b0, b1, b2);
  }

  lemma BytesOf(b0: u8, b1: u8, b2: u8)
    ensures var chunk := b0 * 0x1_0000 + b1 * 0x100 + b2;
      chunk / 0x1_0000 == b0 && chunk / 0x100 % 256 == b1 && chunk % 256 == b2
  {
    var chunk := b0 * 0x1_0000 + b1 * 0x100 + b2;
    assert chunk / 0x100 == b0 * 0x100 + b1;
  }

  /** Which texts decode: whole groups of symbols, with padding only in the last two places of a group. */
  lemma DecodesIff(text: string)
    ensures Decode(text).Some? <==> |text| % 4 == 0 && forall i :: 0 <= i < |text| ==> PlaceOk(text, i)
  {
    hide DecodeGroups, PlaceOk;
    if |text| % 4 == 0 { GroupsDecodeIff(text); }
  }

  predicate PlaceOk(text: string, i: nat)
    requires i < |text|
  {
    InAlphabet(text[i]) || (text[i] == '=' && i % 4 >= 2)
  }

  lemma {:induction false} GroupsDecodeIff(text: string)
    requires |text| % 4 == 0
    ensures DecodeGroups(text).Some? <==> forall i :: 0 <= i < |text| ==> PlaceOk(text, i)
  {
    hide DecodeGroup, PlaceOk;
    if text != "" {
      GroupsUnfold(text);
      hide DecodeGroups;
      GroupsDecodeIff(text[4..]);
      GroupDecodesIff(text);
      PlacesBehind(text);
    }
  }

  lemma PlacesBehind(text: string)
    requires |text| >= 4
    ensures (forall i :: 0 <= i < |text| ==> PlaceOk(text, i)) <==>
      (forall i :: 0 <= i < 4 ==> PlaceOk(text, i)) && forall i :: 0 <= i < |text[4..]| ==> PlaceOk(text[4..], i)
  {
    forall i: nat | i + 4 < |text| ensures PlaceOk(text[4..], i) <==> PlaceOk(text, i + 4) {
      assert (i + 4) % 4 == i % 4;
    }
    hide PlaceOk;
    if forall i :: 0 <= i < |text[4..]| ==> PlaceOk(text[4..], i) {
      forall i | 4 <= i < |text| ensures PlaceOk(text, i) { assert PlaceOk(text[4..], i - 4); }
    }
  }

  lemma GroupDecodesIff(text: string)
    requires |text| >= 4
    ensures DecodeGroup(text[0], text[1], text[2], text[3]).Some? <==> forall i :: 0 <= i < 4 ==> PlaceOk(text, i)
  {
    AlphabetIs(0, text[0]);
    AlphabetIs(0, text[1]);
    AlphabetIs(0, text[2]);
    AlphabetIs(0, text[3]);
    hide Index;
    assert (forall i :: 0 <= i < 4 ==> PlaceOk(text, i)) <==>
      PlaceOk(text, 0) && PlaceOk(text, 1) && PlaceOk(text, 2) && PlaceOk(text, 3);
  }

  lemma SextetsOf(v0: nat, v1: nat, v2: nat, v3: nat)
    requires v0 < 64 && v1 < 64 && v2 < 64 && v3 < 64
    ensures Pack(v0, v1, v2, v3) < 0x100_0000
    ensures Sextets(Pack(v0, v1, v2, v3)) == [Symbol(v0), Symbol(v1), Symbol(v2), Symbol(v3)]
  {
    hide Symbol;
    var chunk, q1, q2 := Pack(v0, v1, v2, v3), v0 * 0x1000 + v1 * 64 + v2, v0 * 64 + v1;
    Split64(chunk, q1, v3);
    Split64(q1, q2, v2);
    Split64(q2, v0, v1);
    assert chunk / 0x1000 == chunk / 64 / 64 && chunk / 0x4_0000 == chunk / 0x1000 / 64;
    hide Pack;
  }

  lemma Split64(n: nat, q: nat, r: nat)
    requires r < 64 && n == 64 * q + r
    ensures n / 64 == q && n % 64 == r
  {}

  lemma ShortVectors()
    ensures Encode([]) == "" && Encode([0x66]) == "Zg==" && Encode([0x66, 0x6F]) == "Zm8="
    ensures Encode([0x62]) == "Yg==" && Encode([0x62, 0x61]) == "YmE="
  {
    hide Sextets;
    SextetsOf(25, 32, 0, 0);
    SextetsOf(25, 38, 60, 0);
    SextetsOf(24, 32, 0, 0);
    SextetsOf(24, 38, 4, 0);
    assert Chunk(0x66, 0, 0) == Pack(25, 32, 0, 0) && Chunk(0x66, 0x6F, 0) == Pack(25, 38, 60, 0);
    assert Chunk(0x62, 0, 0) == Pack(24, 32, 0, 0) && Chunk(0x62, 0x61, 0) == Pack(24, 38, 4, 0);
  }

  lemma WholeVectors(rest: seq<u8>)
    ensures Encode([0x66, 0x6F, 0x6F] + rest) == "Zm9v" + Encode(rest)
    ensures Encode([0x62, 0x61, 0x72] + rest) == "YmFy" + Encode(rest)
  {
    hide Sextets, Chunk;
    assert ([0x66, 0x6F, 0x6F] + rest)[3..] == rest && ([0x62, 0x61, 0x72] + rest)[3..] == rest;
    WholeChunks();
  }

  lemma WholeChunks()
    ensures Sextets(Chunk(0x66, 0x6F, 0x6F)) == "Zm9v" && Sextets(Chunk(0x62, 0x61, 0x72)) == "YmFy"
  {
    hide Sextets;
    SextetsOf(25, 38, 61, 47);
    SextetsOf(24, 38, 5, 50);
    assert Chunk(0x66, 0x6F, 0x6F) == Pack(25, 38, 61, 47) && Chunk(0x62, 0x61, 0x72) == Pack(24, 38, 5, 50);
  }

  /** The test vectors of section 10 of RFC 4648. */
  lemma Vectors()
    ensures Encode([]) == "" && Encode([0x66]) == "Zg==" && Encode([0x66, 0x6F]) == "Zm8="
    ensures Encode([0x66, 0x6F, 0x6F]) == "Zm9v" && Encode([0x66, 0x6F, 0x6F, 0x62]) == "Zm9vYg=="
    ensures Encode([0x66, 0x6F, 0x6F, 0x62, 0x61]) == "Zm9vYmE=" && Encode([0x66, 0x6F, 0x6F, 0x62, 0x61, 0x72]) == "Zm9vYmFy"
  {
    hide Encode;
    ShortVectors();
    WholeVectors([]);
    WholeVectors([0x62]);
    WholeVectors([0x62, 0x61]);
    WholeVectors([0x62, 0x61, 0x72]);
    assert [0x62, 0x61, 0x72] + [] == [0x62, 0x61, 0x72] && "YmFy" + "" == "YmFy";
    assert [0x66, 0x6F, 0x6F] + [] == [0x66, 0x6F, 0x6F] && "Zm9v" + "" == "Zm9v";
    assert [0x66, 0x6F, 0x6F] + [0x62] == [0x66, 0x6F, 0x6F, 0x62] && "Zm9v" + "Yg==" == "Zm9vYg==";
    assert [0x66, 0x6F, 0x6F] + [0x62, 0x61] == [0x66, 0x6F, 0x6F, 0x62, 0x61] && "Zm9v" + "YmE=" == "Zm9vYmE=";
    assert [0x66, 0x6F, 0x6F] + [0x62, 0x61, 0x72] == [0x66, 0x6F, 0x6F, 0x62, 0x61, 0x72] && "Zm9v" + "YmFy" == "Zm9vYmFy";
  }
}
