/** The wire form of a message: static headers, dynamic headers in schema order, body.
    src/sdk/message/static_headers.cc, dynamic_header.cc and the *_generated.cc files. */
module Codec {
  import opened Bytes

  const STATUS: Byte := 0x00
  const SEQUENCE_ID: Byte := 0x01
  const PAGE_ID: Byte := 0x02
  const AUDIT_LOG: Byte := 0x04
  const ERROR_DETAIL: Byte := 0x05
  const ALIAS_COUNT: Byte := 0x08
  const PRIORITY: Byte := 0x10
  const NO_STREAM: Byte := 0x11
  const QOS: Byte := 0x12
  const QUEUE_SIZE: Byte := 0x14
  const QUEUE_TIME: Byte := 0x15
  const REFRESHED: Byte := 0x20
  const PUB_PATH: Byte := 0x21
  const SKIPPABLE: Byte := 0x30
  const MAX_PERMISSION: Byte := 0x32
  const ATTRIBUTE_FIELD: Byte := 0x41
  const PERMISSION_TOKEN: Byte := 0x60
  const TARGET_PATH: Byte := 0x80
  const SOURCE_PATH: Byte := 0x81

  const STATIC_SIZE: nat := 15

  datatype Header = BoolHeader | ByteHeader(b: Byte) | IntHeader(n: Int32) | StringHeader(s: Bytes)

  datatype MessageType =
    | SubscribeRequest | ListRequest | InvokeRequest | SetRequest
    | SubscribeResponse | ListResponse | InvokeResponse | SetResponse
    | CloseRequest

  /** `headers` are the dynamic header fields that are not null; a null body is the empty one. */
  datatype Message = Message(kind: MessageType, headers: map<Byte, Header>, body: Bytes)

  datatype Decoded = Decoded(message: Message, rid: Int32, ackId: Int32)

  function TypeCode(t: MessageType): Byte
  {
    match t
    case SubscribeRequest => 0x01
    case ListRequest => 0x02
    case InvokeRequest => 0x03
    case SetRequest => 0x04
    case SubscribeResponse => 0x81
    case ListResponse => 0x82
    case InvokeResponse => 0x83
    case SetResponse => 0x84
    case CloseRequest => 0x0F
  }

  function TypeOf(code: Byte): Result<MessageType>
  {
    if code == 0x01 then Ok(SubscribeRequest)
    else if code == 0x02 then Ok(ListRequest)
    else if code == 0x03 then Ok(InvokeRequest)
    else if code == 0x04 then Ok(SetRequest)
    else if code == 0x81 then Ok(SubscribeResponse)
    else if code == 0x82 then Ok(ListResponse)
    else if code == 0x83 then Ok(InvokeResponse)
    else if code == 0x84 then Ok(SetResponse)
    else if code == 0x0F then Ok(CloseRequest)
    else Err("invalid message type")
  }

  /** The dynamic headers of a message type, in the order write_dynamic_data emits them. */
  function Schema(t: MessageType): seq<Byte>
  {
    match t
    case SubscribeRequest =>
      [PRIORITY, ALIAS_COUNT, TARGET_PATH, PERMISSION_TOKEN, NO_STREAM, QOS, QUEUE_SIZE, QUEUE_TIME]
    case ListRequest =>
      [ALIAS_COUNT, TARGET_PATH, PERMISSION_TOKEN, NO_STREAM]
    case InvokeRequest =>
      [PRIORITY, SEQUENCE_ID, PAGE_ID, ALIAS_COUNT, TARGET_PATH, PERMISSION_TOKEN, MAX_PERMISSION, NO_STREAM, REFRESHED, SKIPPABLE]
    case SetRequest =>
      [PRIORITY, PAGE_ID, ALIAS_COUNT, TARGET_PATH, PERMISSION_TOKEN, NO_STREAM, ATTRIBUTE_FIELD]
    case SubscribeResponse =>
      [STATUS, SEQUENCE_ID, PAGE_ID, SOURCE_PATH]
    case ListResponse =>
      [STATUS, REFRESHED, SEQUENCE_ID, PUB_PATH, SOURCE_PATH]
    case InvokeResponse =>
      [STATUS, SEQUENCE_ID, PAGE_ID, REFRESHED, SKIPPABLE, AUDIT_LOG, ERROR_DETAIL]
    case SetResponse =>
      [STATUS, AUDIT_LOG, ERROR_DETAIL]
    case CloseRequest => []
  }

  predicate HasBody(t: MessageType)
  {
    t != SubscribeRequest && t != ListRequest && t != SetResponse && t != CloseRequest
  }

  datatype HeaderKind = BoolKind | ByteKind | IntKind | StringKind | UnknownKind

  /** The class of the message field that holds this header; ParseKind is what DynamicHeader::parse makes of it. */
  function FieldKind(key: Byte): HeaderKind
  {
    if Unparsable(key) then StringKind else ParseKind(key)
  }

  function ParseKind(key: Byte): HeaderKind
  {
    if key == STATUS || key == ALIAS_COUNT || key == QOS || key == MAX_PERMISSION then ByteKind
    else if key == SEQUENCE_ID || key == PAGE_ID || key == QUEUE_SIZE || key == QUEUE_TIME then IntKind
    else if key == PUB_PATH || key == ATTRIBUTE_FIELD || key == PERMISSION_TOKEN || key == TARGET_PATH || key == SOURCE_PATH then StringKind
    else if key == PRIORITY || key == REFRESHED || key == NO_STREAM || key == SKIPPABLE then BoolKind
    else UnknownKind
  }

  /** The two string headers a message can carry but DynamicHeader::parse has no case for. */
  predicate Unparsable(key: Byte) { key == AUDIT_LOG || key == ERROR_DETAIL }

  function KindOfHeader(h: Header): HeaderKind
  {
    match h
    case BoolHeader => BoolKind
    case ByteHeader(_) => ByteKind
    case IntHeader(_) => IntKind
    case StringHeader(_) => StringKind
  }

  /** What the C++ field types and the DynamicHeader constructors guarantee of a header field. */
  predicate WellTyped(key: Byte, h: Header)
  {
    FieldKind(key) == KindOfHeader(h) && HeaderSize(h) <= 0xFFFF
  }

  ghost predicate AllWellTyped(headers: map<Byte, Header>)
  {
    forall k :: k in headers ==> WellTyped(k, headers[k])
  }

  // ---------------------------------------------------------------- reading fields

  /** The static read_value functions: an absent field reads as 0, the empty string or false. */
  function ReadByte(headers: map<Byte, Header>, key: Byte): Byte
  {
    if key in headers && headers[key].ByteHeader? then headers[key].b else 0
  }

  function ReadInt(headers: map<Byte, Header>, key: Byte): Int32
  {
    if key in headers && headers[key].IntHeader? then headers[key].n else 0
  }

  function ReadString(headers: map<Byte, Header>, key: Byte): Bytes
  {
    if key in headers && headers[key].StringHeader? then headers[key].s else []
  }

  predicate ReadBool(headers: map<Byte, Header>, key: Byte)
  {
    key in headers
  }

  /** Reading the key gives the value of this header. */
  predicate Reads(headers: map<Byte, Header>, key: Byte, h: Header)
  {
    match h
    case BoolHeader => ReadBool(headers, key)
    case ByteHeader(b) => ReadByte(headers, key) == b
    case IntHeader(n) => ReadInt(headers, key) == n
    case StringHeader(s) => ReadString(headers, key) == s
  }

  // ---------------------------------------------------------------- writing

  function HeaderSize(h: Header): nat
  {
    match h
    case BoolHeader => 1
    case ByteHeader(_) => 2
    case IntHeader(_) => 5
    case StringHeader(s) => |s| + 3
  }

  function HeaderBytes(key: Byte, h: Header): Bytes
  {
    match h
    case BoolHeader => [key]
    case ByteHeader(b) => [key, b]
    case IntHeader(n) => [key] + Put32(n)
    case StringHeader(s) => [key] + Put16(|s|) + s
  }

  function HeadersSize(keys: seq<Byte>, headers: map<Byte, Header>): nat
  {
    if keys == [] then 0
    else (if keys[0] in headers then HeaderSize(headers[keys[0]]) else 0) + HeadersSize(keys[1..], headers)
  }

  function HeadersBytes(keys: seq<Byte>, headers: map<Byte, Header>): Bytes
  {
    if keys == [] then []
    else (if keys[0] in headers then HeaderBytes(keys[0], headers[keys[0]]) else []) + HeadersBytes(keys[1..], headers)
  }

  /** header_size and message_size as update_static_header computes them, before they are narrowed. */
  function TrueHeaderSize(m: Message): nat { STATIC_SIZE + HeadersSize(Schema(m.kind), m.headers) }

  function TrueSize(m: Message): nat { TrueHeaderSize(m) + if HasBody(m.kind) then |m.body| else 0 }

  function StaticBytes(messageSize: Int32, headerSize: nat, t: MessageType, rid: Int32, ackId: Int32): (b: Bytes)
    ensures |b| == STATIC_SIZE
  {
    Put32(messageSize) + Put16(headerSize) + [TypeCode(t)] + Put32(rid) + Put32(ackId)
  }

  function Payload(m: Message): Bytes
  {
    HeadersBytes(Schema(m.kind), m.headers) + if HasBody(m.kind) then m.body else []
  }

  /** What Message::write stores when the cached sizes are up to date. */
  function Encode(m: Message, rid: Int32, ackId: Int32): Bytes
    requires TrueSize(m) < 0x8000_0000
  {
    StaticBytes(TrueSize(m), TrueHeaderSize(m), m.kind, rid, ackId) + Payload(m)
  }

  // ---------------------------------------------------------------- parsing

  /** DynamicHeader::parse on the rest of the dynamic header block. */
  function ParseHeader(data: Bytes): (r: Result<(Byte, Header)>)
    requires data != []
    ensures r.Ok? ==> 0 < HeaderSize(r.value.1) <= |data|
  {
    match ParseValue(ParseKind(data[0]), data)
    case Ok(h) => Ok((data[0], h))
    case Err(e) => Err(e)
  }

  function ParseValue(kind: HeaderKind, data: Bytes): (r: Result<Header>)
    requires data != []
    ensures r.Ok? ==> 0 < HeaderSize(r.value) <= |data|
  {
    match kind
    case ByteKind => if |data| >= 2 then Ok(ByteHeader(data[1])) else Err("invalid size for DynamicByteHeader")
    case IntKind => if |data| >= 5 then Ok(IntHeader(Get32(data[1..]))) else Err("invalid size for DynamicIntHeader")
    case StringKind =>
      if |data| >= 3 && Get16(data[1..]) as int + 3 <= |data| then Ok(StringHeader(data[3..3 + Get16(data[1..])]))
      else Err("invalid size for DynamicStringHeader")
    case BoolKind => Ok(BoolHeader)
    case UnknownKind => Err("invalid dynamic header key")
  }

  /** The loop of parse_dynamic_data: a later header replaces an earlier one with the same key. */
  function ParseHeaders(schema: seq<Byte>, data: Bytes, acc: map<Byte, Header>): Result<map<Byte, Header>>
    decreases |data|
  {
    if data == [] then Ok(acc)
    else
      match ParseHeader(data)
      case Err(e) => Err(e)
      case Ok(kh) =>
        if kh.0 !in schema then Err("Invalid dynamic header")
        else ParseHeaders(schema, data[HeaderSize(kh.1)..], acc[kh.0 := kh.1])
  }

  /** The constructor of the message class that Message::parse_message selects. Frames whose declared header block does not
      lie inside the frame are reported as errors here. A CLOSE_REQUEST is read up to its static headers only. */
  function Decode(frame: Bytes): Result<Decoded>
  {
    if |frame| < STATIC_SIZE then Err("short frame")
    else
      match TypeOf(frame[6])
      case Err(e) => Err(e)
      case Ok(t) =>
        var headerSize: nat := Get16(frame[4..]);
        if t == CloseRequest then Ok(Decoded(Message(t, map[], []), Get32(frame[7..]), Get32(frame[11..])))
        else if headerSize < STATIC_SIZE || headerSize > |frame| then Err("header size outside the frame")
        else
          match ParseHeaders(Schema(t), frame[STATIC_SIZE..headerSize], map[])
          case Err(e) => Err(e)
          case Ok(hs) =>
            Ok(Decoded(Message(t, hs, if HasBody(t) then frame[headerSize..] else []),
                       Get32(frame[7..]), Get32(frame[11..])))
  }

  // ---------------------------------------------------------------- round trip

  /** The part of a message that its type can put on the wire. */
  function OnWire(m: Message): Message
  {
    Message(m.kind, Restrict(m.headers, Schema(m.kind)), if HasBody(m.kind) then m.body else [])
  }

  function Restrict(headers: map<Byte, Header>, keys: seq<Byte>): map<Byte, Header>
  {
    map k | k in headers && k in keys :: headers[k]
  }

  lemma HeaderSizeExact(key: Byte, h: Header)
    ensures |HeaderBytes(key, h)| == HeaderSize(h)
  {
  }

  lemma {:induction false} HeadersSizeExact(keys: seq<Byte>, headers: map<Byte, Header>)
    ensures |HeadersBytes(keys, headers)| == HeadersSize(keys, headers)
  {
    if keys != [] {
      HeadersSizeExact(keys[1..], headers);
    }
  }

  /** update_static_header predicts exactly how many bytes Message::write stores. */
  lemma SizePrediction(m: Message, rid: Int32, ackId: Int32)
    requires TrueSize(m) < 0x8000_0000
    ensures |Encode(m, rid, ackId)| == TrueSize(m)
  {
    HeadersSizeExact(Schema(m.kind), m.headers);
  }

  lemma IntRoundTrip(key: Byte, n: Int32, rest: Bytes)
    ensures ParseValue(IntKind, [key] + Put32(n) + rest) == Ok(IntHeader(n))
  {
    assert ([key] + Put32(n) + rest)[1..] == Put32(n) + rest;
    Get32Put32(n, rest);
  }

  lemma StringRoundTrip(key: Byte, s: Bytes, rest: Bytes)
    requires |s| + 3 <= 0xFFFF
    ensures ParseValue(StringKind, [key] + Put16(|s|) + s + rest) == Ok(StringHeader(s))
  {
  }

  lemma ValueRoundTrip(key: Byte, h: Header, rest: Bytes)
    requires HeaderSize(h) <= 0xFFFF
    ensures ParseValue(KindOfHeader(h), HeaderBytes(key, h) + rest) == Ok(h)
  {
    match h
    case BoolHeader =>
    case ByteHeader(_) =>
    case IntHeader(n) => IntRoundTrip(key, n, rest);
    case StringHeader(s) => StringRoundTrip(key, s, rest);
  }

  /** One header survives printing and parsing, whatever follows it, unless its key is unparsable. */
  lemma HeaderRoundTrip(key: Byte, h: Header, rest: Bytes)
    requires WellTyped(key, h)
    ensures !Unparsable(key) ==> ParseHeader(HeaderBytes(key, h) + rest) == Ok((key, h))
    ensures Unparsable(key) ==> ParseHeader(HeaderBytes(key, h) + rest).Err?
  {
    ValueRoundTrip(key, h, rest);
    assert (HeaderBytes(key, h) + rest)[0] == key;
  }

  /** Some header among `keys` has a key DynamicHeader::parse rejects. */
  predicate Blocked(keys: seq<Byte>, headers: map<Byte, Header>)
  {
    keys != [] && ((keys[0] in headers && Unparsable(keys[0])) || Blocked(keys[1..], headers))
  }

  lemma {:induction false} HeadersRoundTrip(schema: seq<Byte>, keys: seq<Byte>, headers: map<Byte, Header>, acc: map<Byte, Header>)
    requires AllWellTyped(headers)
    requires forall k :: k in keys ==> k in schema
    ensures !Blocked(keys, headers) ==>
              ParseHeaders(schema, HeadersBytes(keys, headers), acc) == Ok(acc + Restrict(headers, keys))
    ensures Blocked(keys, headers) ==> ParseHeaders(schema, HeadersBytes(keys, headers), acc).Err?
  {
    if keys == [] {
      assert acc + Restrict(headers, keys) == acc;
    } else {
      var k, rest := keys[0], HeadersBytes(keys[1..], headers);
      if k in headers {
        var h := headers[k];
        HeaderStep(schema, k, h, rest, acc);
        HeadersRoundTrip(schema, keys[1..], headers, acc[k := h]);
      } else {
        HeadersRoundTrip(schema, keys[1..], headers, acc);
        assert [] + rest == rest;
      }
      RestrictStep(keys, headers, acc);
    }
  }

  lemma RestrictStep(keys: seq<Byte>, headers: map<Byte, Header>, acc: map<Byte, Header>)
    requires keys != []
    ensures var k := keys[0];
            if k in headers then acc[k := headers[k]] + Restrict(headers, keys[1..]) == acc + Restrict(headers, keys)
            else Restrict(headers, keys[1..]) == Restrict(headers, keys)
  {
  }

  lemma HeaderStep(schema: seq<Byte>, k: Byte, h: Header, rest: Bytes, acc: map<Byte, Header>)
    requires WellTyped(k, h) && k in schema
    ensures var r := ParseHeaders(schema, HeaderBytes(k, h) + rest, acc);
            if Unparsable(k) then r.Err? else r == ParseHeaders(schema, rest, acc[k := h])
  {
    HeaderRoundTrip(k, h, rest);
    HeaderSizeExact(k, h);
    assert (HeaderBytes(k, h) + rest)[HeaderSize(h)..] == rest;
  }

  lemma BlockedExact(t: MessageType, headers: map<Byte, Header>)
    ensures var on := Restrict(headers, Schema(t));
            Blocked(Schema(t), headers) <==> AUDIT_LOG in on || ERROR_DETAIL in on
  {
    BlockedMember(Schema(t), headers);
  }

  lemma {:induction false} BlockedMember(keys: seq<Byte>, headers: map<Byte, Header>)
    ensures Blocked(keys, headers) <==> (AUDIT_LOG in keys && AUDIT_LOG in headers) || (ERROR_DETAIL in keys && ERROR_DETAIL in headers)
  {
    if keys != [] {
      BlockedMember(keys[1..], headers);
    }
  }

  lemma Layout(a: Bytes, b: Bytes, t: Byte, c: Bytes, d: Bytes, rest: Bytes)
    requires |a| == |c| == |d| == 4 && |b| == 2
    ensures var f := a + b + [t] + c + d + rest;
            f == a + f[4..] && f[4..] == b + f[6..] && f[6] == t && f[7..] == c + f[11..] && f[11..] == d + rest
  {
  }

  lemma StaticFields(messageSize: Int32, headerSize: nat, t: MessageType, rid: Int32, ackId: Int32, rest: Bytes)
    ensures var f := StaticBytes(messageSize, headerSize, t, rid, ackId) + rest;
            Get32(f) == messageSize && Get16(f[4..]) == headerSize % 0x1_0000 && TypeOf(f[6]) == Ok(t)
            && Get32(f[7..]) == rid && Get32(f[11..]) == ackId
  {
    var f := StaticBytes(messageSize, headerSize, t, rid, ackId) + rest;
    Layout(Put32(messageSize), Put16(headerSize), TypeCode(t), Put32(rid), Put32(ackId), rest);
    Get32Put32(messageSize, f[4..]);
    Get16Put16(headerSize, f[6..]);
    Get32Put32(rid, f[11..]);
    Get32Put32(ackId, rest);
  }

  /** Decode once the header fields are known. */
  lemma DecodeParts(f: Bytes, t: MessageType, headerSize: nat)
    requires STATIC_SIZE <= headerSize <= |f|
    requires TypeOf(f[6]) == Ok(t) && Get16(f[4..]) == headerSize && t != CloseRequest
    ensures Decode(f) ==
            match ParseHeaders(Schema(t), f[STATIC_SIZE..headerSize], map[])
            case Err(e) => Err(e)
            case Ok(hs) => Ok(Decoded(Message(t, hs, if HasBody(t) then f[headerSize..] else []), Get32(f[7..]), Get32(f[11..])))
  {
  }

  lemma EncodeFields(m: Message, rid: Int32, ackId: Int32)
    requires TrueSize(m) <= MAX_MESSAGE_SIZE
    ensures var f := Encode(m, rid, ackId);
            |f| >= STATIC_SIZE && Get32(f) == TrueSize(m) && Get16(f[4..]) == TrueHeaderSize(m) && TypeOf(f[6]) == Ok(m.kind)
            && Get32(f[7..]) == rid && Get32(f[11..]) == ackId
  {
    var size: Int32, headerSize: UInt16 := TrueSize(m), TrueHeaderSize(m);
    assert headerSize % 0x1_0000 == headerSize;
    StaticFields(size, headerSize, m.kind, rid, ackId, Payload(m));
  }

  /** Where the header block and the body lie in an encoded message. */
  lemma EncodeParts(m: Message, rid: Int32, ackId: Int32)
    requires TrueSize(m) <= MAX_MESSAGE_SIZE
    ensures var f := Encode(m, rid, ackId); var end := TrueHeaderSize(m);
            |f| == TrueSize(m) && f[STATIC_SIZE..end] == HeadersBytes(Schema(m.kind), m.headers)
            && f[end..] == (if HasBody(m.kind) then m.body else [])
  {
    var block := HeadersBytes(Schema(m.kind), m.headers);
    HeadersSizeExact(Schema(m.kind), m.headers);
    ThreeParts(StaticBytes(TrueSize(m), TrueHeaderSize(m), m.kind, rid, ackId), block, if HasBody(m.kind) then m.body else []);
  }

  lemma ThreeParts(a: Bytes, b: Bytes, c: Bytes)
    ensures var f := a + (b + c);
            |f| == |a| + |b| + |c| && f[|a|..|a| + |b|] == b && f[|a| + |b|..] == c
  {
  }

  /** Every message that fits the protocol's size limit reads back as itself, with the rid and the ack id
      given to write, exactly when it carries neither AUDIT_LOG nor ERROR_DETAIL; otherwise parsing fails. */
  lemma CodecRoundTrip(m: Message, rid: Int32, ackId: Int32)
    requires AllWellTyped(m.headers) && TrueSize(m) <= MAX_MESSAGE_SIZE
    ensures Decode(Encode(m, rid, ackId)) == Ok(Decoded(OnWire(m), rid, ackId))
            <==> AUDIT_LOG !in OnWire(m).headers && ERROR_DETAIL !in OnWire(m).headers
    ensures Decode(Encode(m, rid, ackId)).Ok?
            <==> AUDIT_LOG !in OnWire(m).headers && ERROR_DETAIL !in OnWire(m).headers
  {
    var schema := Schema(m.kind);
    EncodeParts(m, rid, ackId);
    EncodeFields(m, rid, ackId);
    if m.kind == CloseRequest {
      return;
    }
    DecodeParts(Encode(m, rid, ackId), m.kind, TrueHeaderSize(m));
    HeadersRoundTrip(schema, schema, m.headers, map[]);
    assert map[] + Restrict(m.headers, schema) == Restrict(m.headers, schema);
    BlockedExact(m.kind, m.headers);
  }

  /** The size field at the front of an encoded message is the length of the encoding. */
  lemma EncodedFrame(m: Message, rid: Int32, ackId: Int32)
    requires TrueSize(m) <= MAX_MESSAGE_SIZE
    ensures var f := Encode(m, rid, ackId); STATIC_SIZE <= |f| <= MAX_MESSAGE_SIZE && Get32(f) == |f|
  {
    EncodeParts(m, rid, ackId);
    EncodeFields(m, rid, ackId);
  }

  // ---------------------------------------------------------------- short messages

  const SHORT_SIZE: nat := 7
  const ACK: Byte := 0xF8
  const PING: Byte := 0xF9

  /** Everything a session sends: messages with the full static headers, acknowledgements and pings. */
  datatype AnyMessage = Full(message: Message) | Ack(ack: Int32) | Ping

  datatype Received = Received(what: AnyMessage, rid: Int32, ackId: Int32)

  function Size(a: AnyMessage): nat
  {
    match a
    case Full(m) => TrueSize(m)
    case Ack(_) => SHORT_SIZE + 4
    case Ping => SHORT_SIZE
  }

  /** Message::write. From type 0xF0 on, the static headers end behind the type. */
  function Write(a: AnyMessage, rid: Int32, ackId: Int32): Bytes
    requires Size(a) < 0x8000_0000
  {
    match a
    case Full(m) => Encode(m, rid, ackId)
    case Ack(n) => Put32(SHORT_SIZE + 4) + Put16(SHORT_SIZE) + [ACK] + Put32(n)
    case Ping => Put32(SHORT_SIZE) + Put16(SHORT_SIZE) + [PING]
  }

  /** Message::parse_message. Of an ACK, rid and ack id are 0; a PING is not read at all. */
  function Parse(frame: Bytes): Result<Received>
  {
    if |frame| < SHORT_SIZE then Err("short frame")
    else if frame[6] == ACK then
      if |frame| < SHORT_SIZE + 4 then Err("short frame") else Ok(Received(Ack(Get32(frame[7..])), 0, 0))
    else if frame[6] == PING then Ok(Received(Ping, 0, 0))
    else
      match Decode(frame)
      case Ok(d) => Ok(Received(Full(d.message), d.rid, d.ackId))
      case Err(e) => Err(e)
  }

  /** Without the two headers that the parser does not know. */
  ghost predicate Parsable(a: AnyMessage)
  {
    a.Full? ==> AUDIT_LOG !in OnWire(a.message).headers && ERROR_DETAIL !in OnWire(a.message).headers
  }

  /** What arrives of a message: an acknowledgement and a ping lose the ids that they were written under. */
  function Arrival(a: AnyMessage, rid: Int32, ackId: Int32): Received
  {
    match a
    case Full(m) => Received(Full(OnWire(m)), rid, ackId)
    case Ack(_) => Received(a, 0, 0)
    case Ping => Received(a, 0, 0)
  }

  /** Every message within the limit is a frame of the size that was predicted for it. */
  lemma WrittenFrame(a: AnyMessage, rid: Int32, ackId: Int32)
    requires Size(a) <= MAX_MESSAGE_SIZE
    ensures var f := Write(a, rid, ackId); SHORT_SIZE <= |f| == Size(a) <= MAX_MESSAGE_SIZE && Get32(f) == |f|
  {
    match a
    case Full(m) =>
      EncodedFrame(m, rid, ackId);
      SizePrediction(m, rid, ackId);
    case Ack(n) =>
      Get32Put32(SHORT_SIZE + 4, Put16(SHORT_SIZE) + [ACK] + Put32(n));
      assert Write(a, rid, ackId) == Put32(SHORT_SIZE + 4) + (Put16(SHORT_SIZE) + [ACK] + Put32(n));
    case Ping =>
      Get32Put32(SHORT_SIZE, Put16(SHORT_SIZE) + [PING]);
      assert Write(a, rid, ackId) == Put32(SHORT_SIZE) + (Put16(SHORT_SIZE) + [PING]);
  }

  /** Every message within the limit reads back as what arrives of it, exactly when the parser knows its headers. */
  lemma WrittenReads(a: AnyMessage, rid: Int32, ackId: Int32)
    requires Size(a) <= MAX_MESSAGE_SIZE && (a.Full? ==> AllWellTyped(a.message.headers))
    ensures Parse(Write(a, rid, ackId)) == Ok(Arrival(a, rid, ackId)) <==> Parsable(a)
    ensures Parse(Write(a, rid, ackId)).Ok? <==> Parsable(a)
  {
    match a
    case Full(m) =>
      CodecRoundTrip(m, rid, ackId);
      EncodeFields(m, rid, ackId);
    case Ack(n) =>
      var f := Write(a, rid, ackId);
      assert f[7..] == Put32(n) + [];
      Get32Put32(n, []);
    case Ping =>
  }
}
