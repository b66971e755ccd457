/** The gateway's check of a frame: it decodes the payload, validates the snapshot or the delta, and
    compares the host and the routing key with what the payload says. */
module MessageValidator {
  import opened DeltaValidator
  import opened Domain
  import opened Frames
  import opened Status
  import opened TreeTheorem
  import opened Validators
  import Serialization
  import SerializationStreams
  import Text

  datatype ValidatedRecord = ValidatedSnapshot(snapshot: Snapshot) | ValidatedDelta(delta: DeltaSnapshot)

  // ---- Routing keys of deltas ----

  predicate IsDigit(c: char) {
    '0' <= c <= '9'
  }

  predicate IsSpace(c: char) {
    c == ' ' || '\t' <= c <= '\r'
  }

  function SkipSpace(s: string): string {
    if s != "" && IsSpace(s[0]) then SkipSpace(s[1..]) else s
  }

  /** The digits that a text starts with. */
  function LeadingDigits(s: string): (d: string)
    ensures forall i :: 0 <= i < |d| ==> IsDigit(d[i])
  {
    if s != "" && IsDigit(s[0]) then [s[0]] + LeadingDigits(s[1..]) else ""
  }

  /** `std::stoull`: spaces, a sign, and digits, whatever follows them; a minus sign negates modulo
      2^64. Without digits, or out of range, it throws. */
  function Stoull(s: string): Option<u64> {
    var t := SkipSpace(s);
    var signed := t != "" && (t[0] == '-' || t[0] == '+');
    var digits := LeadingDigits(if signed then t[1..] else t);
    if digits == "" || Text.Value(digits) > U64_MAX then None
    else if signed && t[0] == '-' then Some((0x1_0000_0000_0000_0000 - Text.Value(digits)) % 0x1_0000_0000_0000_0000)
    else Some(Text.Value(digits))
  }

  /** Where `->` is first found. */
  function FindArrow(s: string): (r: Option<nat>)
    ensures r.Some? ==> r.value + 2 <= |s|
  {
    if |s| < 2 then None
    else if s[..2] == "->" then Some(0)
    else
      match FindArrow(s[1..])
      case None => None
      case Some(i) => Some(i + 1)
  }

  predicate RouteMatches(key: string, delta: DeltaSnapshot) {
    FindArrow(key).Some?
    && var i := FindArrow(key).value;
       Stoull(key[..i]) == Some(delta.baseSnapshotId) && Stoull(key[i + 2..]) == Some(delta.targetSnapshotId)
  }

  /** The key that the indexer gives to a delta. */
  function DeltaRoute(base: u64, target: u64): string {
    Text.Decimal(base) + "->" + Text.Decimal(target)
  }

  lemma {:induction false} LeadingDigitsAll(s: string)
    requires forall i :: 0 <= i < |s| ==> IsDigit(s[i])
    ensures LeadingDigits(s) == s
  {
    if s != "" {
      LeadingDigitsAll(s[1..]);
    }
  }

  /** What is printed is read back. */
  lemma StoullReadsDecimal(n: u64)
    ensures Stoull(Text.Decimal(n)) == Some(n)
  {
    LeadingDigitsAll(Text.Decimal(n));
    Text.DecimalValue(n);
  }

  lemma {:induction false} FindArrowAfter(digits: string, rest: string)
    requires forall i :: 0 <= i < |digits| ==> IsDigit(digits[i])
    ensures FindArrow(digits + "->" + rest) == Some(|digits|)
  {
    var s := digits + "->" + rest;
    if digits == "" {
      assert s[..2] == "->";
    } else {
      assert s[..2][0] == digits[0];
      assert s[1..] == digits[1..] + "->" + rest;
      FindArrowAfter(digits[1..], rest);
    }
  }

  /** The indexer's key of one delta matches another exactly when both have the same ends. */
  lemma RouteMatchesIff(base: u64, target: u64, delta: DeltaSnapshot)
    ensures RouteMatches(DeltaRoute(base, target), delta) <==> base == delta.baseSnapshotId && target == delta.targetSnapshotId
  {
    var b, t, key := Text.Decimal(base), Text.Decimal(target), DeltaRoute(base, target);
    FindArrowAfter(b, t);
    assert key[..|b|] == b && key[|b| + 2..] == t;
    StoullReadsDecimal(base);
    StoullReadsDecimal(target);
  }

  /** `->` is found where it first stands. */
  lemma {:induction false} FindArrowIff(s: string, i: nat)
    ensures FindArrow(s) == Some(i) <==>
      i + 2 <= |s| && ArrowAt(s, i) && forall j :: 0 <= j < i ==> !ArrowAt(s, j)
    ensures FindArrow(s) == None <==> forall j :: 0 <= j < |s| - 1 ==> !ArrowAt(s, j)
  {
    if |s| >= 2 {
      assert s[..2] == "->" <==> ArrowAt(s, 0);
      forall j: nat | j + 1 < |s| ensures ArrowAt(s, j + 1) <==> ArrowAt(s[1..], j) {}
      if i > 0 { FindArrowIff(s[1..], i - 1); } else { FindArrowIff(s[1..], 0); }
      forall j | 0 < j < |s| - 1 ensures ArrowAt(s, j) <==> ArrowAt(s[1..], j - 1) {}
    }
  }

  predicate ArrowAt(s: string, i: int) {
    0 <= i < |s| - 1 && s[i] == '-' && s[i + 1] == '>'
  }

  /** White space of the C locale. */
  predicate AllSpace(s: string) {
    forall i :: 0 <= i < |s| ==> s[i] as int in {32, 9, 10, 11, 12, 13}
  }

  predicate AllDigits(s: string) {
    forall i :: 0 <= i < |s| ==> '0' <= s[i] <= '9'
  }

  lemma {:induction false} SpacesSkipped(spaces: string, s: string)
    requires AllSpace(spaces) && (s == "" || !AllSpace(s[..1]))
    ensures SkipSpace(spaces + s) == s
  {
    if spaces == "" {
      assert "" + s == s;
      if s != "" { assert s[..1][0] == s[0]; }
    } else {
      assert (spaces + s)[1..] == spaces[1..] + s;
      SpacesSkipped(spaces[1..], s);
    }
  }

  lemma {:induction false} DigitsTaken(digits: string, rest: string)
    requires AllDigits(digits) && (rest == "" || !AllDigits(rest[..1]))
    ensures LeadingDigits(digits + rest) == digits
  {
    if digits == "" {
      assert "" + rest == rest;
      if rest != "" { assert rest[..1][0] == rest[0]; }
    } else {
      assert (digits + rest)[1..] == digits[1..] + rest;
      DigitsTaken(digits[1..], rest);
    }
  }

  lemma StartsWith(sign: string, digits: string, rest: string)
    requires sign in {"", "+", "-"} && AllDigits(digits)
    requires sign == "" && digits == "" && rest != "" ==> !AllSpace(rest[..1])
    ensures var t := sign + (digits + rest); t == "" || !AllSpace(t[..1])
  {
    var t, tail := sign + (digits + rest), digits + rest;
    if t != "" {
      assert t[..1][0] == t[0];
      if sign != "" {
        assert t[0] == sign[0];
      } else if digits != "" {
        assert t == tail && tail[0] == digits[0];
      } else {
        assert t == tail == rest;
      }
    }
  }

  /** Main result: how a number is read: spaces, perhaps a sign, and digits up to the first other character; without
      digits or beyond 64 bits nothing is read, and a minus sign negates modulo 2^64. */
  lemma StoullReads(spaces: string, sign: string, digits: string, rest: string)
    requires AllSpace(spaces) && sign in {"", "+", "-"} && AllDigits(digits)
    requires rest == "" || !AllDigits(rest[..1])
    requires sign == "" && digits == "" && rest != "" ==> rest[0] !in {'+', '-'} && !AllSpace(rest[..1])
    ensures Stoull(spaces + (sign + (digits + rest))) ==
      if digits == "" || Text.Value(digits) > 0xFFFF_FFFF_FFFF_FFFF then None
      else if sign == "-" && Text.Value(digits) > 0 then Some(0x1_0000_0000_0000_0000 - Text.Value(digits))
      else Some(Text.Value(digits))
  {
    hide SkipSpace, LeadingDigits, AllSpace, Text.Value, AllDigits;
    var t, tail := sign + (digits + rest), digits + rest;
    StartsWith(sign, digits, rest);
    SpacesSkipped(spaces, t);
    DigitsTaken(digits, rest);
    SignSplits(sign, digits, rest);
  }

  lemma SignSplits(sign: string, digits: string, rest: string)
    requires sign in {"", "+", "-"} && AllDigits(digits)
    requires sign == "" && digits == "" && rest != "" ==> rest[0] !in {'+', '-'}
    ensures var t := sign + (digits + rest);
      var signed := t != "" && (t[0] == '-' || t[0] == '+');
      && (signed <==> sign != "") && (signed ==> t[0] == sign[0]) && (if signed then t[1..] else t) == digits + rest
  {
    var t, tail := sign + (digits + rest), digits + rest;
    if sign == "" {
      assert t == tail;
      if digits != "" { assert tail[0] == digits[0]; } else { assert tail == rest; }
    } else {
      assert t[1..] == tail && t[0] == sign[0];
    }
  }

  // ---- The check ----

  /** The verdict on a decoded snapshot. */
  ghost function JudgeSnapshot(s: Snapshot, routingKey: string, expectedHost: string): StatusOr<ValidatedRecord> {
    if !Accepted(s) then Err(ValidationError)
    else if expectedHost != "" && s.hostIdentifier != expectedHost then Err(ValidationError)
    else if routingKey != "" && routingKey != s.hostIdentifier then Err(ValidationError)
    else Ok(ValidatedSnapshot(s))
  }

  function JudgeDelta(d: DeltaSnapshot, routingKey: string): StatusOr<ValidatedRecord> {
    if !DeltaOk(d, None, None) || !RouteMatches(routingKey, d) then Err(ValidationError)
    else Ok(ValidatedDelta(d))
  }

  ghost function Judge(f: MuninnFrame, expectedHost: string): StatusOr<ValidatedRecord> {
    if f.kind == SNAPSHOT_RECORD then
      var parsed := Serialization.ReadSnapshot(f.payload);
      if parsed.Fail? then Err(ParseError) else JudgeSnapshot(parsed.value, f.routingKey, expectedHost)
    else if f.kind == DELTA_RECORD then
      var parsed := Serialization.ReadDelta(f.payload);
      if parsed.Fail? then Err(ParseError) else JudgeDelta(parsed.value, f.routingKey)
    else Err(ValidationError)
  }

  method ValidateAndDecode(f: MuninnFrame, expectedHost: string, now: i64) returns (r: StatusOr<ValidatedRecord>)
    ensures r == Judge(f, expectedHost)
  {
    hide Accepted, HasErrors, DeltaOk, Serialization.ReadSnapshot, Serialization.ReadDelta;
    if f.kind == SNAPSHOT_RECORD {
      var parsed := SerializationStreams.DeserializeSnapshot(f.payload);
      if parsed.Fail? {
        return Err(ParseError);
      }
      var issues := Validate(parsed.value, now);
      if HasErrors(issues) {
        return Err(ValidationError);
      }
      if expectedHost != "" && parsed.value.hostIdentifier != expectedHost {
        return Err(ValidationError);
      }
      if f.routingKey != "" && f.routingKey != parsed.value.hostIdentifier {
        return Err(ValidationError);
      }
      return Ok(ValidatedSnapshot(parsed.value));
    }
    if f.kind == DELTA_RECORD {
      var parsed := SerializationStreams.DeserializeDelta(f.payload);
      if parsed.Fail? {
        return Err(ParseError);
      }
      var issues := DeltaPass(parsed.value, None, None);
      if HasErrors(issues) {
        return Err(ValidationError);
      }
      if !RouteMatches(f.routingKey, parsed.value) {
        return Err(ValidationError);
      }
      return Ok(ValidatedDelta(parsed.value));
    }
    r := Err(ValidationError);
  }

  // ---- What the indexer sends ----

  /** The frames the store enqueues for a snapshot and for a delta. */
  function SnapshotFrame(s: Snapshot, createdAt: u64): MuninnFrame {
    MuninnFrame(SNAPSHOT_RECORD, createdAt, s.hostIdentifier, Serialization.SnapshotBytes(s))
  }

  function DeltaFrame(d: DeltaSnapshot, createdAt: u64): MuninnFrame {
    MuninnFrame(DELTA_RECORD, createdAt, DeltaRoute(d.baseSnapshotId, d.targetSnapshotId), Serialization.DeltaBytes(d))
  }

  /** Main result: the gateway takes the indexer's frame of a snapshot, and decodes it unchanged,
      exactly when the validator accepts the snapshot and it is of the host that is expected. */
  lemma SnapshotTakenIff(s: Snapshot, createdAt: u64, expectedHost: string)
    requires Serialization.SnapshotFits(s)
    ensures Judge(SnapshotFrame(s, createdAt), expectedHost) ==
      if Accepted(s) && (expectedHost == "" || expectedHost == s.hostIdentifier) then Ok(ValidatedSnapshot(s)) else Err(ValidationError)
  {
    hide Accepted, Serialization.SnapshotBytes, Serialization.ReadSnapshot, Serialization.SnapshotFits;
    Serialization.SnapshotRoundTrip(s, []);
    assert Serialization.SnapshotBytes(s) + [] == Serialization.SnapshotBytes(s);
  }

  /** The same with whatever routing key the frame has: none, or the host's own. */
  lemma SnapshotTakenWithKeyIff(s: Snapshot, createdAt: u64, routingKey: string, expectedHost: string)
    requires Serialization.SnapshotFits(s)
    ensures Judge(MuninnFrame(1, createdAt, routingKey, Serialization.SnapshotBytes(s)), expectedHost) ==
      if Accepted(s) && expectedHost in {"", s.hostIdentifier} && routingKey in {"", s.hostIdentifier}
      then Ok(ValidatedSnapshot(s)) else Err(ValidationError)
  {
    hide Accepted, Serialization.SnapshotBytes, Serialization.ReadSnapshot, Serialization.SnapshotFits;
    Serialization.SnapshotRoundTrip(s, []);
    assert Serialization.SnapshotBytes(s) + [] == Serialization.SnapshotBytes(s);
  }

  /** Main result: it takes the indexer's frame of a delta exactly when the delta is sound by itself;
      the routing key never stands in the way. */
  lemma DeltaTakenIff(d: DeltaSnapshot, createdAt: u64, expectedHost: string)
    requires Serialization.DeltaFits(d)
    ensures Judge(DeltaFrame(d, createdAt), expectedHost) ==
      if DeltaOk(d, None, None) then Ok(ValidatedDelta(d)) else Err(ValidationError)
  {
    hide DeltaOk, RouteMatches, DeltaRoute, Serialization.DeltaBytes, Serialization.ReadDelta, Serialization.DeltaFits;
    RouteMatchesIff(d.baseSnapshotId, d.targetSnapshotId, d);
    Serialization.DeltaRoundTrip(d, []);
    assert Serialization.DeltaBytes(d) + [] == Serialization.DeltaBytes(d);
  }

  lemma NoArrowNoMatch(key: string, d: DeltaSnapshot)
    requires forall i :: 0 <= i < |key| - 1 ==> !ArrowAt(key, i)
    ensures !RouteMatches(key, d)
  {
    hide Stoull;
    FindArrowIff(key, 0);
  }

  /** A delta under the key of other ends is refused, and so is one under a key without an arrow. */
  lemma DeltaTakenWithKeyIff(d: DeltaSnapshot, createdAt: u64, base: u64, target: u64, malformed: string, expectedHost: string)
    requires Serialization.DeltaFits(d)
    requires forall i :: 0 <= i < |malformed| - 1 ==> !ArrowAt(malformed, i)
    ensures Judge(MuninnFrame(2, createdAt, DeltaRoute(base, target), Serialization.DeltaBytes(d)), expectedHost) ==
      if DeltaOk(d, None, None) && base == d.baseSnapshotId && target == d.targetSnapshotId
      then Ok(ValidatedDelta(d)) else Err(ValidationError)
    ensures Judge(MuninnFrame(2, createdAt, malformed, Serialization.DeltaBytes(d)), expectedHost) == Err(ValidationError)
  {
    hide DeltaOk, RouteMatches, DeltaRoute, Serialization.DeltaBytes, Serialization.ReadDelta, Serialization.DeltaFits;
    RouteMatchesIff(base, target, d);
    NoArrowNoMatch(malformed, d);
    Serialization.DeltaRoundTrip(d, []);
    assert Serialization.DeltaBytes(d) + [] == Serialization.DeltaBytes(d);
  }

  /** A frame with a payload that is cut short is never taken. */
  lemma CutPayloadIsRefused(s: Snapshot, createdAt: u64, routingKey: string, expectedHost: string, n: nat)
    requires Serialization.SnapshotFits(s) && n < |Serialization.SnapshotBytes(s)|
    ensures Judge(MuninnFrame(SNAPSHOT_RECORD, createdAt, routingKey, Serialization.SnapshotBytes(s)[..n]), expectedHost) == Err(ParseError)
  {
    hide Serialization.SnapshotBytes, Serialization.ReadSnapshot, Serialization.SnapshotFits;
    Serialization.SnapshotPrefixRejected(s, n);
  }

  lemma OkWithoutEnds(d: DeltaSnapshot, base: Snapshot, target: Snapshot)
    requires DeltaOk(d, Some(base), Some(target))
    ensures DeltaOk(d, None, None)
  {}
}
