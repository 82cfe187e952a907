/** The wire format as a table of fields, apart from the tables that the encoder and the parser of Codec.dfy work with: which
    message can hold which field, of which class, under which number, and in which place. */
module WireFormat {
  import opened Bytes
  import opened Codec

  /** Messages of this type have a field of this class with this key. */
  predicate HasField(t: MessageType, key: Byte, kind: HeaderKind)
  {
    match kind
    case BoolKind =>
      || (key == PRIORITY && (t.SubscribeRequest? || t.InvokeRequest? || t.SetRequest?))
      || (key == NO_STREAM && (t.SubscribeRequest? || t.ListRequest? || t.InvokeRequest? || t.SetRequest?))
      || (key == REFRESHED && (t.InvokeRequest? || t.InvokeResponse? || t.ListResponse?))
      || (key == SKIPPABLE && (t.InvokeRequest? || t.InvokeResponse?))
    case ByteKind =>
      || (key == STATUS && (t.SubscribeResponse? || t.ListResponse? || t.InvokeResponse? || t.SetResponse?))
      || (key == ALIAS_COUNT && (t.SubscribeRequest? || t.ListRequest? || t.InvokeRequest? || t.SetRequest?))
      || (key == QOS && t.SubscribeRequest?)
      || (key == MAX_PERMISSION && t.InvokeRequest?)
    case IntKind =>
      || (key == SEQUENCE_ID && (t.InvokeRequest? || t.SubscribeResponse? || t.ListResponse? || t.InvokeResponse?))
      || (key == PAGE_ID && (t.InvokeRequest? || t.SetRequest? || t.SubscribeResponse? || t.InvokeResponse?))
      || ((key == QUEUE_SIZE || key == QUEUE_TIME) && t.SubscribeRequest?)
    case StringKind =>
      || ((key == TARGET_PATH || key == PERMISSION_TOKEN) && (t.SubscribeRequest? || t.ListRequest? || t.InvokeRequest? || t.SetRequest?))
      || (key == ATTRIBUTE_FIELD && t.SetRequest?)
      || (key == SOURCE_PATH && (t.SubscribeResponse? || t.ListResponse?))
      || (key == PUB_PATH && t.ListResponse?)
      || ((key == AUDIT_LOG || key == ERROR_DETAIL) && (t.InvokeResponse? || t.SetResponse?))
    case UnknownKind => false
  }

  /** Messages of this type have a body. */
  predicate CarriesBody(t: MessageType)
  {
    t.InvokeRequest? || t.InvokeResponse? || t.SetRequest? || t.SubscribeResponse? || t.ListResponse?
  }

  /** A message as its class can be built: with fields of its own only. */
  ghost predicate Buildable(m: Message)
  {
    && (forall k :: k in m.headers ==> HasField(m.kind, k, KindOfHeader(m.headers[k])) && HeaderSize(m.headers[k]) <= 0xFFFF)
    && (m.body == [] || CarriesBody(m.kind))
  }

  lemma FieldTable(t: MessageType, key: Byte, h: Header)
    ensures HasField(t, key, KindOfHeader(h)) <==> key in Schema(t) && FieldKind(key) == KindOfHeader(h)
  {
  }

  lemma BodyTable(t: MessageType)
    ensures CarriesBody(t) <==> HasBody(t)
  {
  }

  /** Nothing is lost on the wire exactly of the messages that a class can be built with. */
  lemma BuildableExact(m: Message)
    ensures Buildable(m) <==> AllWellTyped(m.headers) && OnWire(m) == m
  {
    BodyTable(m.kind);
    forall k | k in m.headers ensures HasField(m.kind, k, KindOfHeader(m.headers[k])) <==> k in Schema(m.kind) && FieldKind(k) == KindOfHeader(m.headers[k]) {
      FieldTable(m.kind, k, m.headers[k]);
    }
    if forall k :: k in m.headers ==> k in Schema(m.kind) {
      assert Restrict(m.headers, Schema(m.kind)) == m.headers;
    } else {
      var k :| k in m.headers && k !in Schema(m.kind);
      assert k !in Restrict(m.headers, Schema(m.kind));
    }
  }

  /** Every field that a message can hold, and its body, reads back as it was written; but a message with one of the two
      fields that the parser does not know is refused. */
  lemma FieldsRoundTrip(m: Message, rid: Int32, ackId: Int32)
    requires Buildable(m) && TrueSize(m) <= MAX_MESSAGE_SIZE
    ensures if AUDIT_LOG in m.headers || ERROR_DETAIL in m.headers then Decode(Encode(m, rid, ackId)).Err?
            else Decode(Encode(m, rid, ackId)) == Ok(Decoded(m, rid, ackId))
  {
    hide Buildable, Encode, Decode, TrueSize;
    BuildableExact(m);
    CodecRoundTrip(m, rid, ackId);
  }

  // ---------------------------------------------------------------- what the parser takes and what it refuses

  /** A header as it can stand in a block. */
  datatype Item = Item(key: Byte, header: Header)

  function Block(items: seq<Item>): Bytes
  {
    if items == [] then [] else HeaderBytes(items[0].key, items[0].header) + Block(items[1..])
  }

  /** The fields that these headers fill: of two with the same key the later one counts. */
  function Filled(fields: map<Byte, Header>, items: seq<Item>): map<Byte, Header>
    decreases |items|
  {
    if items == [] then fields else Filled(fields[items[0].key := items[0].header], items[1..])
  }

  /** The parser of this message type takes the header. */
  predicate Known(t: MessageType, i: Item)
  {
    HasField(t, i.key, KindOfHeader(i.header)) && i.key != AUDIT_LOG && i.key != ERROR_DETAIL
  }

  /** The headers of a block may come in any order and more than once; one that the message type does not have, wherever it
      stands, and the block is refused. */
  lemma {:induction false} AnyOrder(t: MessageType, items: seq<Item>, fields: map<Byte, Header>)
    requires forall i :: i in items ==> WellTyped(i.key, i.header)
    ensures (forall i :: i in items ==> Known(t, i)) ==> ParseHeaders(Schema(t), Block(items), fields) == Ok(Filled(fields, items))
    ensures ParseHeaders(Schema(t), Block(items), fields).Ok? <==> forall i :: i in items ==> Known(t, i)
    decreases |items|
  {
    hide ParseHeader, HeaderBytes, HasField, Schema, WellTyped;
    if items != [] {
      var i, rest := items[0], Block(items[1..]);
      assert i in items;
      OneItem(t, i, rest);
      AnyOrder(t, items[1..], fields[i.key := i.header]);
      if Known(t, i) {
        assert (HeaderBytes(i.key, i.header) + rest)[HeaderSize(i.header)..] == rest;
      }
    }
  }

  lemma OneItem(t: MessageType, i: Item, rest: Bytes)
    requires WellTyped(i.key, i.header)
    ensures |HeaderBytes(i.key, i.header)| == HeaderSize(i.header) > 0
    ensures Known(t, i) <==> i.key in Schema(t) && ParseHeader(HeaderBytes(i.key, i.header) + rest) == Ok((i.key, i.header))
    ensures ParseHeader(HeaderBytes(i.key, i.header) + rest).Ok? ==> ParseHeader(HeaderBytes(i.key, i.header) + rest) == Ok((i.key, i.header))
  {
    hide ParseHeader, HasField, Schema;
    HeaderSizeExact(i.key, i.header);
    HeaderRoundTrip(i.key, i.header, rest);
    FieldTable(t, i.key, i.header);
  }

  /** Whatever the bytes, what the parser makes of them is a message that its class can be built with, from the type and the
      ids at their places and, for a body, all bytes behind the headers. */
  lemma DecodeSound(frame: Bytes)
    requires Decode(frame).Ok?
    ensures |frame| >= 15
    ensures var d := Decode(frame).value; var n := Get16(frame[4..]) as int;
            && frame[6] == TypeNumber(d.message.kind) && d.rid == Get32(frame[7..]) && d.ackId == Get32(frame[11..])
            && (forall k :: k in d.message.headers ==> HasField(d.message.kind, k, KindOfHeader(d.message.headers[k])))
            && (if CarriesBody(d.message.kind) then 15 <= n <= |frame| && d.message.body == frame[n..] else d.message.body == [])
  {
    hide ParseHeaders, Get16, Get32, Schema, HasField;
    var d := Decode(frame).value;
    TypeTable(frame[6]);
    BodyTable(d.message.kind);
    if d.message.kind != CloseRequest {
      FieldsSound(d.message.kind, frame[15..Get16(frame[4..])], map[]);
    }
  }

  lemma TypeTable(code: Byte)
    ensures TypeOf(code).Ok? <==> exists t :: TypeNumber(t) == code
    ensures TypeOf(code).Ok? ==> TypeNumber(TypeOf(code).value) == code
  {
    if t :| TypeNumber(t) == code {
    }
  }

  /** A frame of any other type is refused. */
  lemma OtherTypeRefused(frame: Bytes)
    requires |frame| >= 15 && forall t :: TypeNumber(t) != frame[6]
    ensures Decode(frame).Err? && (frame[6] != 0xF8 && frame[6] != 0xF9 ==> Parse(frame).Err?)
  {
    TypeTable(frame[6]);
  }

  lemma {:induction false} FieldsSound(t: MessageType, data: Bytes, fields: map<Byte, Header>)
    requires ParseHeaders(Schema(t), data, fields).Ok?
    requires forall k :: k in fields ==> HasField(t, k, KindOfHeader(fields[k]))
    ensures var all := ParseHeaders(Schema(t), data, fields).value; forall k :: k in all ==> HasField(t, k, KindOfHeader(all[k]))
    decreases |data|
  {
    hide ParseHeader, HasField, Schema;
    if data != [] {
      var (key, h) := ParseHeader(data).value;
      ParsedKind(data);
      FieldTable(t, key, h);
      FieldsSound(t, data[HeaderSize(h)..], fields[key := h]);
    }
  }

  lemma ParsedKind(data: Bytes)
    requires data != [] && ParseHeader(data).Ok?
    ensures var (key, h) := ParseHeader(data).value; FieldKind(key) == KindOfHeader(h)
  {
    hide Get16, Get32;
  }

  // ---------------------------------------------------------------- bytes

  /** The field with this number, if the message has it. */
  function Field(h: map<Byte, Header>, key: Byte): Bytes
  {
    if key !in h then []
    else
      match h[key]
      case BoolHeader => [key]
      case ByteHeader(b) => [key, b]
      case IntHeader(n) => [key] + Word(n)
      case StringHeader(s) => [key, |s| % 0x100, |s| / 0x100 % 0x100] + s
  }

  /** A 32-bit number in two's complement, the lowest byte first. */
  function Word(n: Int32): Bytes
  {
    var u := if n < 0 then n + 0x1_0000_0000 else n;
    [u % 0x100, u / 0x100 % 0x100, u / 0x1_0000 % 0x100, u / 0x100_0000]
  }

  /** The numbers of the fields of a message, in the order in which they are written. */
  function Order(t: MessageType): seq<Byte>
  {
    match t
    case SubscribeRequest => [0x10, 0x08, 0x80, 0x60, 0x11, 0x12, 0x14, 0x15]
    case ListRequest => [0x08, 0x80, 0x60, 0x11]
    case InvokeRequest => [0x10, 0x01, 0x02, 0x08, 0x80, 0x60, 0x32, 0x11, 0x20, 0x30]
    case SetRequest => [0x10, 0x02, 0x08, 0x80, 0x60, 0x11, 0x41]
    case SubscribeResponse => [0x00, 0x01, 0x02, 0x81]
    case ListResponse => [0x00, 0x20, 0x01, 0x21, 0x81]
    case InvokeResponse => [0x00, 0x01, 0x02, 0x20, 0x30, 0x04, 0x05]
    case SetResponse => [0x00, 0x04, 0x05]
    case CloseRequest => []
  }

  function Fields(keys: seq<Byte>, h: map<Byte, Header>): Bytes
  {
    if keys == [] then [] else Field(h, keys[0]) + Fields(keys[1..], h)
  }

  function TypeNumber(t: MessageType): Byte
  {
    match t
    case SubscribeRequest => 1
    case ListRequest => 2
    case InvokeRequest => 3
    case SetRequest => 4
    case CloseRequest => 15
    case SubscribeResponse => 0x80 + 1
    case ListResponse => 0x80 + 2
    case InvokeResponse => 0x80 + 3
    case SetResponse => 0x80 + 4
  }

  /** The 15 bytes in front: the size of the frame, the size of all headers, the type, the rid and the ack id. */
  function Front(size: Int32, headers: nat, t: Byte, rid: Int32, ackId: Int32): Bytes
  {
    Word(size) + [headers % 0x100, headers / 0x100 % 0x100, t] + Word(rid) + Word(ackId)
  }

  lemma WordIs(n: Int32)
    ensures Put32(n) == Word(n)
  {
    hide Word, Put16;
    var u := n % 0x1_0000_0000;
    assert u == if n < 0 then n + 0x1_0000_0000 else n;
    Halves(u / 0x1_0000, u % 0x1_0000);
    assert Word(n) == Four(u) by { FourOf(n); }
  }

  function Four(u: nat): Bytes
  {
    [u % 0x100, u / 0x100 % 0x100, u / 0x1_0000 % 0x100, u / 0x100_0000 % 0x100]
  }

  lemma FourOf(n: Int32)
    ensures Word(n) == Four(if n < 0 then n + 0x1_0000_0000 else n)
  {
  }

  lemma Halves(high: nat, low: nat)
    requires high < 0x1_0000 && low < 0x1_0000
    ensures Put16(low) + Put16(high) == Four(high * 0x1_0000 + low)
  {
    hide Four, Put16;
    var a, b, c, d := low % 0x100, low / 0x100, high % 0x100, high / 0x100;
    TwoDigits(a, b);
    TwoDigits(c, d);
    FourDigits(a, b, c, d);
  }

  lemma TwoDigits(a: nat, b: nat)
    requires a < 0x100 && b < 0x100
    ensures Put16(a + 0x100 * b) == [a, b]
  {
  }

  lemma FourDigits(a: nat, b: nat, c: nat, d: nat)
    requires a < 0x100 && b < 0x100 && c < 0x100 && d < 0x100
    ensures Four(a + 0x100 * b + 0x1_0000 * (c + 0x100 * d)) == [a, b, c, d]
  {
    var u := a + 0x100 * b + 0x1_0000 * (c + 0x100 * d);
    LowByte(u, a, b + 0x100 * (c + 0x100 * d));
    LowByte(b + 0x100 * (c + 0x100 * d), b, c + 0x100 * d);
    LowByte(c + 0x100 * d, c, d);
    LowHalf(u, a + 0x100 * b, c + 0x100 * d);
    LowThree(u, a + 0x100 * b + 0x1_0000 * c, d);
  }

  lemma LowByte(u: nat, low: nat, high: nat)
    requires low < 0x100 && u == low + 0x100 * high
    ensures u % 0x100 == low && u / 0x100 == high
  {
  }

  lemma LowHalf(u: nat, low: nat, high: nat)
    requires low < 0x1_0000 && u == low + 0x1_0000 * high
    ensures u / 0x1_0000 == high
  {
  }

  lemma LowThree(u: nat, low: nat, high: nat)
    requires low < 0x100_0000 && high < 0x100 && u == low + 0x100_0000 * high
    ensures u / 0x100_0000 % 0x100 == high
  {
  }

  lemma {:induction false} FieldsAre(keys: seq<Byte>, h: map<Byte, Header>)
    ensures HeadersBytes(keys, h) == Fields(keys, h)
  {
    hide Put32, Word;
    if keys != [] {
      FieldsAre(keys[1..], h);
      if keys[0] in h && h[keys[0]].IntHeader? {
        WordIs(h[keys[0]].n);
      }
    }
  }

  /** Every byte of an encoded message. */
  lemma FrameBytes(m: Message, rid: Int32, ackId: Int32)
    requires TrueSize(m) < 0x8000_0000
    ensures var fields, body := Fields(Order(m.kind), m.headers), if CarriesBody(m.kind) then m.body else [];
            15 + |fields| + |body| == TrueSize(m)
            && Encode(m, rid, ackId) == Front(15 + |fields| + |body|, 15 + |fields|, TypeNumber(m.kind), rid, ackId) + (fields + body)
  {
    hide Put32, Word, Fields, HeadersBytes;
    BodyTable(m.kind);
    OrderTable(m.kind);
    FieldsAre(Schema(m.kind), m.headers);
    HeadersSizeExact(Schema(m.kind), m.headers);
    WordIs(TrueSize(m));
    WordIs(rid);
    WordIs(ackId);
  }

  lemma OrderTable(t: MessageType)
    ensures Order(t) == Schema(t) && TypeNumber(t) == TypeCode(t)
  {
  }

  /** An ACK and a PING are told by their type alone; bytes behind them do not matter, and neither do the sizes in front. */
  lemma ShortReads(frame: Bytes)
    requires |frame| >= 7
    ensures frame[6] == 0xF8 ==> if |frame| >= 11 then Parse(frame) == Ok(Received(Ack(Get32(frame[7..])), 0, 0)) else Parse(frame).Err?
    ensures frame[6] == 0xF9 ==> Parse(frame) == Ok(Received(Ping, 0, 0))
  {
    hide Get32, Decode;
  }

  /** And of the two short messages. */
  lemma ShortBytes(n: Int32, rid: Int32, ackId: Int32)
    ensures Write(Ack(n), rid, ackId) == [11, 0, 0, 0, 7, 0, 0xF8] + Word(n)
    ensures Write(Ping, rid, ackId) == [7, 0, 0, 0, 7, 0, 0xF9]
  {
    WordIs(n);
  }
}
