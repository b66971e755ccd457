/** The gateway's wire protocol: a twelve-byte header and eight kinds of messages. */
module Wire {
  import opened ByteCodec
  import opened Bytes
  import opened Domain
  import opened Status

  const MAGIC: u32 := 0x4C455347
  const PROTOCOL_VERSION: u16 := 1
  const HEADER_SIZE := 12

  datatype Message =
    | ClientHello(hostId: string, clientInstanceId: string, requestedVersion: u16,
                  resumeFrom: u64, capabilities: u32, authToken: string)
    | ServerHello(accepted: bool, negotiatedVersion: u16, sessionId: u64,
                  serverCheckpoint: u64, requestedResumeFrom: u64, reason: string)
    | Data(hostId: string, sequence: u64, codecMajor: u16, codecMinor: u16,
           sentAt: u64, frameCrc: u32, frame: seq<u8>)
    | Ack(hostId: string, ackInclusive: u64, expectedNext: u64)
    | Nack(hostId: string, expected: u64, received: u64, reason: string)
    | Error(errorCode: u16, message: string)
    | Ping(unixSeconds: u64)
    | Pong(unixSeconds: u64)

  function KindOf(m: Message): u8 {
    match m
    case ClientHello(_, _, _, _, _, _) => 1
    case ServerHello(_, _, _, _, _, _) => 2
    case Data(_, _, _, _, _, _, _) => 3
    case Ack(_, _, _) => 4
    case Nack(_, _, _, _) => 5
    case Error(_, _) => 6
    case Ping(_) => 7
    case Pong(_) => 8
  }

  // ---- Payloads ----

  function PayloadOf(m: Message): seq<u8> {
    match m
    case ClientHello(hostId, instance, version, resume, capabilities, token) =>
      PutString(hostId, PutString(instance, Put(version, 2, Put(resume, 8, Put(capabilities, 4, PutString(token, []))))))
    case ServerHello(accepted, version, session, checkpoint, resume, reason) =>
      [if accepted then 1 else 0] + Put(version, 2, Put(session, 8, Put(checkpoint, 8, Put(resume, 8, PutString(reason, [])))))
    case Data(hostId, sequence, major, minor, sentAt, crc, frame) =>
      PutString(hostId, Put(sequence, 8, Put(major, 2, Put(minor, 2, Put(sentAt, 8, Put(crc, 4, PutBlob(frame, [])))))))
    case Ack(hostId, ack, next) => PutString(hostId, Put(ack, 8, Put(next, 8, [])))
    case Nack(hostId, expected, received, reason) => PutString(hostId, Put(expected, 8, Put(received, 8, PutString(reason, []))))
    case Error(code, message) => Put(code, 2, PutString(message, []))
    case Ping(seconds) => Put(seconds, 8, [])
    case Pong(seconds) => Put(seconds, 8, [])
  }

  function TakeClientHello(bs: seq<u8>): Taken<Message> {
    var (hostId, r1) :- TakeString(bs);
    var (instance, r2) :- TakeString(r1);
    var (version, r3) :- TakeU16(r2);
    var (resume, r4) :- TakeU64(r3);
    var (capabilities, r5) :- TakeU32(r4);
    var (token, r6) :- TakeString(r5);
    Took(ClientHello(hostId, instance, version, resume, capabilities, token), r6)
  }

  function TakeServerHello(bs: seq<u8>): Taken<Message> {
    var (accepted, r1) :- TakeBytes(bs, 1);
    var (version, r2) :- TakeU16(r1);
    var (session, r3) :- TakeU64(r2);
    var (checkpoint, r4) :- TakeU64(r3);
    var (resume, r5) :- TakeU64(r4);
    var (reason, r6) :- TakeString(r5);
    Took(ServerHello(accepted != [0], version, session, checkpoint, resume, reason), r6)
  }

  function TakeData(bs: seq<u8>): Taken<Message> {
    var (hostId, r1) :- TakeString(bs);
    var (sequence, r2) :- TakeU64(r1);
    var (major, r3) :- TakeU16(r2);
    var (minor, r4) :- TakeU16(r3);
    var (sentAt, r5) :- TakeU64(r4);
    var (crc, r6) :- TakeU32(r5);
    var (frame, r7) :- TakeBlob(r6);
    Took(Data(hostId, sequence, major, minor, sentAt, crc, frame), r7)
  }

  function TakeAck(bs: seq<u8>): Taken<Message> {
    var (hostId, r1) :- TakeString(bs);
    var (ack, r2) :- TakeU64(r1);
    var (next, r3) :- TakeU64(r2);
    Took(Ack(hostId, ack, next), r3)
  }

  function TakeNack(bs: seq<u8>): Taken<Message> {
    var (hostId, r1) :- TakeString(bs);
    var (expected, r2) :- TakeU64(r1);
    var (received, r3) :- TakeU64(r2);
    var (reason, r4) :- TakeString(r3);
    Took(Nack(hostId, expected, received, reason), r4)
  }

  function TakeError(bs: seq<u8>): Taken<Message> {
    var (code, r1) :- TakeU16(bs);
    var (message, r2) :- TakeString(r1);
    Took(Error(code, message), r2)
  }

  function TakePing(bs: seq<u8>): Taken<Message> {
    var (seconds, r) :- TakeU64(bs);
    Took(Ping(seconds), r)
  }

  function TakePong(bs: seq<u8>): Taken<Message> {
    var (seconds, r) :- TakeU64(bs);
    Took(Pong(seconds), r)
  }

  function TakePayload(kind: u8, bs: seq<u8>): Taken<Message> {
    if kind == 1 then TakeClientHello(bs)
    else if kind == 2 then TakeServerHello(bs)
    else if kind == 3 then TakeData(bs)
    else if kind == 4 then TakeAck(bs)
    else if kind == 5 then TakeNack(bs)
    else if kind == 6 then TakeError(bs)
    else if kind == 7 then TakePing(bs)
    else if kind == 8 then TakePong(bs)
    else Short
  }

  // ---- Serialising ----

  function Header(kind: u8, flags: u8, length: nat): (h: seq<u8>)
    ensures |h| == HEADER_SIZE
  {
    Big(MAGIC, 4) + Big(PROTOCOL_VERSION, 2) + [kind, flags] + Big(length % LENGTHS, 4)
  }

  /** The bytes of a message with the flags that the program writes, which is none. */
  function MessageBytes(m: Message): seq<u8> {
    Header(KindOf(m), 0, |PayloadOf(m)|) + PayloadOf(m)
  }

  method MakeFrame(kind: u8, payload: seq<u8>) returns (out: seq<u8>)
    ensures out == Header(kind, 0, |payload|) + payload
  {
    hide Big;
    out := AppendU32Big(MAGIC);
    var version := AppendU16Big(PROTOCOL_VERSION);
    out := out + version + [kind] + [0];
    var length := AppendU32Big(|payload| % LENGTHS);
    out := out + length;
    out := out + payload;
  }

  method EncodeClientHello(m: Message) returns (payload: seq<u8>)
    requires m.ClientHello?
    ensures payload == PayloadOf(m)
  {
    hide Big, PutString;
    payload := AppendString([], m.hostId);
    payload := AppendString(payload, m.clientInstanceId);
    var version := AppendU16Big(m.requestedVersion);
    var resume := AppendU64Big(m.resumeFrom);
    var capabilities := AppendU32Big(m.capabilities);
    payload := payload + version + resume + capabilities;
    payload := AppendString(payload, m.authToken);
    var tail := Put(m.requestedVersion, 2, Put(m.resumeFrom, 8, Put(m.capabilities, 4, PutString(m.authToken, []))));
    PutStringAppends(m.clientInstanceId, tail);
    PutStringAppends(m.hostId, PutString(m.clientInstanceId, tail));
  }

  method EncodeServerHello(m: Message) returns (payload: seq<u8>)
    requires m.ServerHello?
    ensures payload == PayloadOf(m)
  {
    hide Big, PutString;
    payload := [if m.accepted then 1 else 0];
    var version := AppendU16Big(m.negotiatedVersion);
    var session := AppendU64Big(m.sessionId);
    var checkpoint := AppendU64Big(m.serverCheckpoint);
    var resume := AppendU64Big(m.requestedResumeFrom);
    payload := payload + version + session + checkpoint + resume;
    payload := AppendString(payload, m.reason);
  }

  method EncodeData(m: Message) returns (payload: seq<u8>)
    requires m.Data?
    ensures payload == PayloadOf(m)
  {
    hide Big, PutString;
    payload := AppendString([], m.hostId);
    var sequence := AppendU64Big(m.sequence);
    var major := AppendU16Big(m.codecMajor);
    var minor := AppendU16Big(m.codecMinor);
    var sentAt := AppendU64Big(m.sentAt);
    var crc := AppendU32Big(m.frameCrc);
    var length := AppendU32Big(|m.frame| % LENGTHS);
    payload := payload + sequence + major + minor + sentAt + crc + length + m.frame;
    assert m.frame + [] == m.frame;
    PutStringAppends(m.hostId, Put(m.sequence, 8, Put(m.codecMajor, 2, Put(m.codecMinor, 2,
      Put(m.sentAt, 8, Put(m.frameCrc, 4, PutBlob(m.frame, [])))))));
  }

  method EncodeAck(m: Message) returns (payload: seq<u8>)
    requires m.Ack?
    ensures payload == PayloadOf(m)
  {
    hide Big, PutString;
    payload := AppendString([], m.hostId);
    var ack := AppendU64Big(m.ackInclusive);
    var next := AppendU64Big(m.expectedNext);
    payload := payload + ack + next;
    PutStringAppends(m.hostId, Put(m.ackInclusive, 8, Put(m.expectedNext, 8, [])));
  }

  method EncodeNack(m: Message) returns (payload: seq<u8>)
    requires m.Nack?
    ensures payload == PayloadOf(m)
  {
    hide Big, PutString;
    payload := AppendString([], m.hostId);
    var expected := AppendU64Big(m.expected);
    var received := AppendU64Big(m.received);
    payload := payload + expected + received;
    payload := AppendString(payload, m.reason);
    PutStringAppends(m.hostId, Put(m.expected, 8, Put(m.received, 8, PutString(m.reason, []))));
  }

  method SerializeMessage(m: Message) returns (out: seq<u8>)
    ensures out == MessageBytes(m)
  {
    hide Big, PutString;
    var payload;
    match m {
      case ClientHello(_, _, _, _, _, _) => payload := EncodeClientHello(m);
      case ServerHello(_, _, _, _, _, _) => payload := EncodeServerHello(m);
      case Data(_, _, _, _, _, _, _) => payload := EncodeData(m);
      case Ack(_, _, _) => payload := EncodeAck(m);
      case Nack(_, _, _, _) => payload := EncodeNack(m);
      case Error(code, message) =>
        payload := AppendU16Big(code);
        payload := AppendString(payload, message);
      case Ping(seconds) => payload := AppendU64Big(seconds);
      case Pong(seconds) => payload := AppendU64Big(seconds);
    }
    assert payload == PayloadOf(m);
    out := MakeFrame(KindOf(m), payload);
  }

  // ---- Parsing ----

  /** The header is checked before anything behind it is looked at. */
  function HeaderError(raw: seq<u8>): Option<ErrorCode> {
    if |raw| < HEADER_SIZE then Some(ParseError)
    else if FromBig(raw[..4]) != MAGIC then Some(ParseError)
    else if FromBig(raw[4..6]) != PROTOCOL_VERSION then Some(UnsupportedVersion)
    else if |raw| != HEADER_SIZE + FromBig(raw[8..12]) then Some(ParseError)
    else None
  }

  function Parse(raw: seq<u8>): StatusOr<Message> {
    if HeaderError(raw).Some? then Err(HeaderError(raw).value)
    else
      match TakePayload(raw[6], raw[HEADER_SIZE..])
      case Short => Err(ParseError)
      case Took(m, rest) => if rest == [] then Ok(m) else Err(ParseError)
  }

  method ParseHeader(raw: seq<u8>) returns (error: Option<ErrorCode>, kind: u8)
    ensures error == HeaderError(raw)
    ensures error.None? ==> kind == raw[6]
  {
    kind := 0;
    if |raw| < HEADER_SIZE {
      return Some(ParseError), kind;
    }
    var offset: nat := 0;
    var ok, magic, version, length;
    ok, magic, offset := ReadU32(raw, offset);
    assert raw[0..][..4] == raw[..4] && ok && offset == 4;
    if magic != MAGIC {
      return Some(ParseError), kind;
    }
    ok, version, offset := ReadU16(raw, offset);
    assert raw[4..][..2] == raw[4..6] && ok && offset == 6;
    if version != PROTOCOL_VERSION {
      return Some(UnsupportedVersion), kind;
    }
    kind := raw[offset];
    offset := offset + 2;
    ok, length, offset := ReadU32(raw, offset);
    assert raw[8..][..4] == raw[8..12] && ok;
    if |raw| != HEADER_SIZE + length {
      return Some(ParseError), kind;
    }
    error := None;
  }

  /** Reads the payload of one kind at a moving offset; trailing bytes are an error. */
  method ParsePayload(kind: u8, payload: seq<u8>) returns (r: StatusOr<Message>)
    ensures r == match TakePayload(kind, payload)
      case Short => Err(ParseError)
      case Took(m, rest) => if rest == [] then Ok(m) else Err(ParseError)
  {
    hide TakeClientHello, TakeServerHello, TakeData, TakeAck, TakeNack, TakeError, TakeU64;
    assert payload[0..] == payload;
    var ok, m, offset := false, Ping(0), 0;
    if kind == 1 {
      ok, m, offset := ReadClientHello(payload);
    } else if kind == 2 {
      ok, m, offset := ReadServerHello(payload);
    } else if kind == 3 {
      ok, m, offset := ReadData(payload);
    } else if kind == 4 {
      ok, m, offset := ReadAck(payload);
    } else if kind == 5 {
      ok, m, offset := ReadNack(payload);
    } else if kind == 6 {
      ok, m, offset := ReadError(payload);
    } else if kind == 7 || kind == 8 {
      var seconds;
      ok, seconds, offset := ReadU64(payload, 0);
      m := if kind == 7 then Ping(seconds) else Pong(seconds);
    }
    if !ok || offset != |payload| {
      return Err(ParseError);
    }
    r := Ok(m);
  }

  ghost predicate ReadAs(p: Taken<Message>, payload: seq<u8>, ok: bool, m: Message, offset: nat) {
    if ok then offset <= |payload| && p == Took(m, payload[offset..]) else p == Short
  }

  method ReadClientHello(payload: seq<u8>) returns (ok: bool, m: Message, offset: nat)
    ensures ReadAs(TakeClientHello(payload), payload, ok, m, offset)
  {
    hide TakeString, TakeU16, TakeU32, TakeU64;
    assert payload[0..] == payload;
    m := Ping(0);
    var hostId, instance, version, resume, capabilities, token;
    ok, hostId, offset := ReadString(payload, 0);
    if !ok { return; }
    ok, instance, offset := ReadString(payload, offset);
    if !ok { return; }
    ok, version, offset := ReadU16(payload, offset);
    if !ok { return; }
    ok, resume, offset := ReadU64(payload, offset);
    if !ok { return; }
    ok, capabilities, offset := ReadU32(payload, offset);
    if !ok { return; }
    ok, token, offset := ReadString(payload, offset);
    m := ClientHello(hostId, instance, version, resume, capabilities, token);
  }

  method ReadServerHello(payload: seq<u8>) returns (ok: bool, m: Message, offset: nat)
    ensures ReadAs(TakeServerHello(payload), payload, ok, m, offset)
  {
    hide TakeString, TakeU16, TakeU32, TakeU64;
    m, offset := Ping(0), 0;
    if payload == [] {
      return false, m, offset;
    }
    var accepted := payload[0] != 0;
    offset := 1;
    assert payload[..1] == [payload[0]];
    var version, session, checkpoint, resume, reason;
    ok, version, offset := ReadU16(payload, offset);
    if !ok { return; }
    ok, session, offset := ReadU64(payload, offset);
    if !ok { return; }
    ok, checkpoint, offset := ReadU64(payload, offset);
    if !ok { return; }
    ok, resume, offset := ReadU64(payload, offset);
    if !ok { return; }
    ok, reason, offset := ReadString(payload, offset);
    m := ServerHello(accepted, version, session, checkpoint, resume, reason);
  }

  method ReadData(payload: seq<u8>) returns (ok: bool, m: Message, offset: nat)
    ensures ReadAs(TakeData(payload), payload, ok, m, offset)
  {
    hide TakeString, TakeU16, TakeU32, TakeU64, TakeBytes;
    assert payload[0..] == payload;
    m := Ping(0);
    var hostId, sequence, major, minor, sentAt, crc, length, frame;
    ok, hostId, offset := ReadString(payload, 0);
    if !ok { return; }
    ok, sequence, offset := ReadU64(payload, offset);
    if !ok { return; }
    ok, major, offset := ReadU16(payload, offset);
    if !ok { return; }
    ok, minor, offset := ReadU16(payload, offset);
    if !ok { return; }
    ok, sentAt, offset := ReadU64(payload, offset);
    if !ok { return; }
    ok, crc, offset := ReadU32(payload, offset);
    if !ok { return; }
    ok, length, offset := ReadU32(payload, offset);
    if !ok { return; }
    ok, frame, offset := ReadBytes(payload, offset, length);
    m := Data(hostId, sequence, major, minor, sentAt, crc, frame);
  }

  method ReadAck(payload: seq<u8>) returns (ok: bool, m: Message, offset: nat)
    ensures ReadAs(TakeAck(payload), payload, ok, m, offset)
  {
    hide TakeString, TakeU64;
    assert payload[0..] == payload;
    m := Ping(0);
    var hostId, ack, next;
    ok, hostId, offset := ReadString(payload, 0);
    if !ok { return; }
    ok, ack, offset := ReadU64(payload, offset);
    if !ok { return; }
    ok, next, offset := ReadU64(payload, offset);
    m := Ack(hostId, ack, next);
  }

  method ReadNack(payload: seq<u8>) returns (ok: bool, m: Message, offset: nat)
    ensures ReadAs(TakeNack(payload), payload, ok, m, offset)
  {
    hide TakeString, TakeU64;
    assert payload[0..] == payload;
    m := Ping(0);
    var hostId, expected, received, reason;
    ok, hostId, offset := ReadString(payload, 0);
    if !ok { return; }
    ok, expected, offset := ReadU64(payload, offset);
    if !ok { return; }
    ok, received, offset := ReadU64(payload, offset);
    if !ok { return; }
    ok, reason, offset := ReadString(payload, offset);
    m := Nack(hostId, expected, received, reason);
  }

  method ReadError(payload: seq<u8>) returns (ok: bool, m: Message, offset: nat)
    ensures ReadAs(TakeError(payload), payload, ok, m, offset)
  {
    hide TakeString, TakeU16;
    assert payload[0..] == payload;
    m := Ping(0);
    var code, message;
    ok, code, offset := ReadU16(payload, 0);
    if !ok { return; }
    ok, message, offset := ReadString(payload, offset);
    m := Error(code, message);
  }

  method ParseMessage(raw: seq<u8>) returns (r: StatusOr<Message>)
    ensures r == Parse(raw)
  {
    hide HeaderError, TakePayload;
    var error, kind := ParseHeader(raw);
    if error.Some? {
      return Err(error.value);
    }
    HeaderIsThere(raw);
    r := ParsePayload(kind, raw[HEADER_SIZE..]);
  }

  lemma HeaderIsThere(raw: seq<u8>)
    requires HeaderError(raw).None?
    ensures |raw| >= HEADER_SIZE
  {}

  // ---- Taking a payload that was put ----

  /** Every length that is written in 32 bits fits in 32 bits. */
  predicate PayloadFits(m: Message) {
    match m
    case ClientHello(hostId, instance, _, _, _, token) => StringFits(hostId) && StringFits(instance) && StringFits(token)
    case ServerHello(_, _, _, _, _, reason) => StringFits(reason)
    case Data(hostId, _, _, _, _, _, frame) => StringFits(hostId) && BlobFits(frame)
    case Ack(hostId, _, _) => StringFits(hostId)
    case Nack(hostId, _, _, reason) => StringFits(hostId) && StringFits(reason)
    case Error(_, message) => StringFits(message)
    case Ping(_) => true
    case Pong(_) => true
  }

  predicate MessageFits(m: Message) {
    PayloadFits(m) && |PayloadOf(m)| < LENGTHS
  }

  lemma ClientHelloTaken(m: Message)
    requires m.ClientHello? && PayloadFits(m)
    ensures TakeClientHello(PayloadOf(m)) == Took(m, [])
  {
    hide TakeString, TakeU16, TakeU32, TakeU64, PutString, Put;
    var r5 := PutString(m.authToken, []);
    var r4 := Put(m.capabilities, 4, r5);
    var r3 := Put(m.resumeFrom, 8, r4);
    var r2 := Put(m.requestedVersion, 2, r3);
    StringTaken(m.hostId, PutString(m.clientInstanceId, r2));
    StringTaken(m.clientInstanceId, r2);
    FieldTaken(m.requestedVersion, r3);
    FieldTaken(m.resumeFrom, r4);
    FieldTaken(m.capabilities, r5);
    StringTaken(m.authToken, []);
  }

  lemma ServerHelloTaken(m: Message)
    requires m.ServerHello? && PayloadFits(m)
    ensures TakeServerHello(PayloadOf(m)) == Took(m, [])
  {
    hide TakeString, TakeU16, TakeU32, TakeU64, PutString, Put;
    var r5 := PutString(m.reason, []);
    var r4 := Put(m.requestedResumeFrom, 8, r5);
    var r3 := Put(m.serverCheckpoint, 8, r4);
    var r2 := Put(m.sessionId, 8, r3);
    var r1 := Put(m.negotiatedVersion, 2, r2);
    assert PayloadOf(m)[..1] == [if m.accepted then 1 else 0] && PayloadOf(m)[1..] == r1;
    FieldTaken(m.negotiatedVersion, r2);
    FieldTaken(m.sessionId, r3);
    FieldTaken(m.serverCheckpoint, r4);
    FieldTaken(m.requestedResumeFrom, r5);
    StringTaken(m.reason, []);
  }

  lemma DataTaken(m: Message)
    requires m.Data? && PayloadFits(m)
    ensures TakeData(PayloadOf(m)) == Took(m, [])
  {
    hide TakeString, TakeBlob, TakeU16, TakeU32, TakeU64, PutString, PutBlob, Put;
    var r6 := PutBlob(m.frame, []);
    var r5 := Put(m.frameCrc, 4, r6);
    var r4 := Put(m.sentAt, 8, r5);
    var r3 := Put(m.codecMinor, 2, r4);
    var r2 := Put(m.codecMajor, 2, r3);
    var r1 := Put(m.sequence, 8, r2);
    StringTaken(m.hostId, r1);
    FieldTaken(m.sequence, r2);
    FieldTaken(m.codecMajor, r3);
    FieldTaken(m.codecMinor, r4);
    FieldTaken(m.sentAt, r5);
    FieldTaken(m.frameCrc, r6);
    BlobTaken(m.frame, []);
  }

  lemma AckTaken(m: Message)
    requires m.Ack? && PayloadFits(m)
    ensures TakeAck(PayloadOf(m)) == Took(m, [])
  {
    hide TakeString, TakeU16, TakeU32, TakeU64, PutString, Put;
    StringTaken(m.hostId, Put(m.ackInclusive, 8, Put(m.expectedNext, 8, [])));
    FieldTaken(m.ackInclusive, Put(m.expectedNext, 8, []));
    FieldTaken(m.expectedNext, []);
  }

  lemma NackTaken(m: Message)
    requires m.Nack? && PayloadFits(m)
    ensures TakeNack(PayloadOf(m)) == Took(m, [])
  {
    hide TakeString, TakeU16, TakeU32, TakeU64, PutString, Put;
    var r3 := PutString(m.reason, []);
    StringTaken(m.hostId, Put(m.expected, 8, Put(m.received, 8, r3)));
    FieldTaken(m.expected, Put(m.received, 8, r3));
    FieldTaken(m.received, r3);
    StringTaken(m.reason, []);
  }

  lemma PayloadTaken(m: Message)
    requires PayloadFits(m)
    ensures TakePayload(KindOf(m), PayloadOf(m)) == Took(m, [])
  {
    hide TakeClientHello, TakeServerHello, TakeData, TakeAck, TakeNack, TakeString, TakeU16, TakeU32, TakeU64, PutString, Put;
    match m
    case ClientHello(_, _, _, _, _, _) => ClientHelloTaken(m);
    case ServerHello(_, _, _, _, _, _) => ServerHelloTaken(m);
    case Data(_, _, _, _, _, _, _) => DataTaken(m);
    case Ack(_, _, _) => AckTaken(m);
    case Nack(_, _, _, _) => NackTaken(m);
    case Error(code, message) => FieldTaken(code, PutString(message, [])); StringTaken(message, []);
    case Ping(seconds) => FieldTaken(seconds, []);
    case Pong(seconds) => FieldTaken(seconds, []);
  }

  // ---- Putting a payload that was taken ----

  lemma ClientHelloPut(bs: seq<u8>)
    requires TakeClientHello(bs).Took? && TakeClientHello(bs).rest == []
    ensures var m := TakeClientHello(bs).value; PayloadFits(m) && bs == PayloadOf(m)
  {
    hide TakeString, TakeU16, TakeU32, TakeU64, PutString, Put;
    var r1 := TakeString(bs).rest;
    var r2 := TakeString(r1).rest;
    var r3 := TakeU16(r2).rest;
    var r4 := TakeU64(r3).rest;
    var r5 := TakeU32(r4).rest;
    StringPut(bs);
    StringPut(r1);
    FieldPut(r2);
    FieldPut(r3);
    FieldPut(r4);
    StringPut(r5);
  }

  /** Any byte but 0 reads as accepted; only 1 is written. */
  lemma ServerHelloPut(bs: seq<u8>)
    requires TakeServerHello(bs).Took? && TakeServerHello(bs).rest == []
    ensures var m := TakeServerHello(bs).value;
      PayloadFits(m) && bs != [] && [if bs[0] == 0 then 0 else 1] + bs[1..] == PayloadOf(m)
  {
    hide TakeString, TakeU16, TakeU32, TakeU64, PutString, Put;
    assert bs[..1] == [bs[0]];
    var r1 := bs[1..];
    var r2 := TakeU16(r1).rest;
    var r3 := TakeU64(r2).rest;
    var r4 := TakeU64(r3).rest;
    var r5 := TakeU64(r4).rest;
    FieldPut(r1);
    FieldPut(r2);
    FieldPut(r3);
    FieldPut(r4);
    StringPut(r5);
  }

  lemma DataPut(bs: seq<u8>)
    requires TakeData(bs).Took? && TakeData(bs).rest == []
    ensures var m := TakeData(bs).value; PayloadFits(m) && bs == PayloadOf(m)
  {
    hide TakeString, TakeBlob, TakeU16, TakeU32, TakeU64, PutString, PutBlob, Put;
    var r1 := TakeString(bs).rest;
    var r2 := TakeU64(r1).rest;
    var r3 := TakeU16(r2).rest;
    var r4 := TakeU16(r3).rest;
    var r5 := TakeU64(r4).rest;
    var r6 := TakeU32(r5).rest;
    StringPut(bs);
    FieldPut(r1);
    FieldPut(r2);
    FieldPut(r3);
    FieldPut(r4);
    FieldPut(r5);
    BlobPut(r6);
  }

  lemma AckPut(bs: seq<u8>)
    requires TakeAck(bs).Took? && TakeAck(bs).rest == []
    ensures var m := TakeAck(bs).value; PayloadFits(m) && bs == PayloadOf(m)
  {
    hide TakeString, TakeU16, TakeU32, TakeU64, PutString, Put;
    var r1 := TakeString(bs).rest;
    StringPut(bs);
    FieldPut(r1);
    FieldPut(TakeU64(r1).rest);
  }

  lemma NackPut(bs: seq<u8>)
    requires TakeNack(bs).Took? && TakeNack(bs).rest == []
    ensures var m := TakeNack(bs).value; PayloadFits(m) && bs == PayloadOf(m)
  {
    hide TakeString, TakeU16, TakeU32, TakeU64, PutString, Put;
    var r1 := TakeString(bs).rest;
    var r2 := TakeU64(r1).rest;
    StringPut(bs);
    FieldPut(r1);
    FieldPut(r2);
    StringPut(TakeU64(r2).rest);
  }

  /** The first payload byte of a server hello as the program would write it. */
  function Canonical(kind: u8, bs: seq<u8>): seq<u8> {
    if kind == 2 && bs != [] && bs[0] != 0 then [1] + bs[1..] else bs
  }

  lemma PayloadPut(kind: u8, bs: seq<u8>)
    requires TakePayload(kind, bs).Took? && TakePayload(kind, bs).rest == []
    ensures var m := TakePayload(kind, bs).value;
      KindOf(m) == kind && PayloadFits(m) && Canonical(kind, bs) == PayloadOf(m)
  {
    hide TakeString, TakeU16, TakeU32, TakeU64, PutString, Put;
    if kind == 1 {
      hide PayloadOf, PayloadFits;
      ClientHelloPut(bs);
    } else if kind == 2 {
      hide PayloadOf, PayloadFits;
      ServerHelloPut(bs);
      assert bs[0] == 0 ==> [bs[0]] + bs[1..] == bs;
    } else if kind == 3 {
      hide PayloadOf, PayloadFits;
      DataPut(bs);
    } else if kind == 4 {
      hide PayloadOf, PayloadFits;
      AckPut(bs);
    } else if kind == 5 {
      hide PayloadOf, PayloadFits;
      NackPut(bs);
    } else if kind == 6 {
      FieldPut(bs);
      StringPut(TakeU16(bs).rest);
    } else {
      FieldPut(bs);
    }
  }

  // ---- The two main results ----

  lemma HeaderTaken(kind: u8, flags: u8, payload: seq<u8>)
    requires |payload| < LENGTHS
    ensures var raw := Header(kind, flags, |payload|) + payload;
      HeaderError(raw).None? && raw[6] == kind && raw[HEADER_SIZE..] == payload
  {
    hide Big, FromBig;
    Widths();
    var raw := Header(kind, flags, |payload|) + payload;
    BigRoundTrip(MAGIC, 4);
    BigRoundTrip(PROTOCOL_VERSION, 2);
    BigRoundTrip(|payload|, 4);
    assert raw[..4] == Big(MAGIC, 4) && raw[4..6] == Big(PROTOCOL_VERSION, 2) && raw[8..12] == Big(|payload|, 4);
  }

  /** Main result: all eight messages round trip. */
  lemma MessageRoundTrip(m: Message)
    requires MessageFits(m)
    ensures Parse(MessageBytes(m)) == Ok(m)
  {
    hide Header, HeaderError, PayloadOf, PayloadFits, TakePayload;
    HeaderTaken(KindOf(m), 0, PayloadOf(m));
    PayloadTaken(m);
  }

  lemma HeaderPut(raw: seq<u8>)
    requires HeaderError(raw).None?
    ensures |raw| >= HEADER_SIZE && |raw| - HEADER_SIZE < LENGTHS
    ensures raw == Header(raw[6], raw[7], |raw| - HEADER_SIZE) + raw[HEADER_SIZE..]
  {
    hide Big, FromBig;
    Widths();
    BigOfFrom(raw[..4]);
    BigOfFrom(raw[4..6]);
    BigOfFrom(raw[8..12]);
    FromBigBound(raw[8..12]);
    var h := raw[..12];
    assert h == raw[..4] + raw[4..6] + [raw[6], raw[7]] + raw[8..12];
    assert raw == h + raw[12..];
  }

  /** Main result: an accepted frame is the serialisation of the message it is read as, except for
      the flags byte, and for a byte other than 0 or 1 where a server hello says accepted. */
  lemma AcceptedIsSerialized(raw: seq<u8>, m: Message)
    requires Parse(raw) == Ok(m)
    ensures MessageFits(m) && |raw| >= HEADER_SIZE
    ensures raw[..7] + [0] + raw[8..HEADER_SIZE] + Canonical(raw[6], raw[HEADER_SIZE..]) == MessageBytes(m)
  {
    hide PayloadOf, PayloadFits, TakePayload, Big, FromBig, HeaderError;
    HeaderPut(raw);
    var payload := raw[HEADER_SIZE..];
    PayloadPut(raw[6], payload);
    assert |Canonical(raw[6], payload)| == |payload|;
    assert raw[..7] + [0] + raw[8..HEADER_SIZE] == Header(raw[6], 0, |payload|);
  }
}
