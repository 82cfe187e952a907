/** Message objects: header fields behind setters, a cached size, and the loops that write and parse
    a buffer. src/sdk/message/base_message.cc, dynamic_header.h and the *_generated.cc files. */
module Messages {
  import opened Bytes
  import opened Codec

  /** The static write_value functions of dynamic_header.h: the new field map and the returned flag,
      on which the setters of the message reset the cached size. */
  function WriteValue(headers: map<Byte, Header>, key: Byte, h: Header): (map<Byte, Header>, bool)
  {
    match h
    case BoolHeader => (headers[key := h], key !in headers)
    case ByteHeader(b) => if b == 0 then (headers - {key}, key in headers) else (headers[key := h], key in headers)
    case IntHeader(n) => if n == 0 then (headers - {key}, key in headers) else (headers[key := h], key !in headers)
    case StringHeader(s) => if s == [] then (headers - {key}, key in headers) else (headers[key := h], true)
  }

  /** DynamicBoolHeader::write_value(false). */
  function WriteFalse(headers: map<Byte, Header>, key: Byte): (map<Byte, Header>, bool)
  {
    (headers - {key}, key in headers)
  }

  /** Zero and the empty string are not stored. */
  predicate Blank(h: Header)
  {
    h == ByteHeader(0) || h == IntHeader(0) || h == StringHeader([])
  }

  /** The two maps agree on every key but this one. */
  ghost predicate OnlyChanges(before: map<Byte, Header>, after: map<Byte, Header>, key: Byte)
  {
    forall k :: k != key ==> (k in after <==> k in before) && (k in after ==> after[k] == before[k])
  }

  /** What was written is what is read, a blank value leaves no field behind, and no other field changes. */
  lemma WriteThenRead(before: map<Byte, Header>, key: Byte, h: Header)
    ensures var after := WriteValue(before, key, h).0;
            && Reads(after, key, h) && (key in after <==> !Blank(h)) && (key in after ==> after[key] == h)
            && OnlyChanges(before, after, key)
    ensures var after := WriteFalse(before, key).0; !ReadBool(after, key) && OnlyChanges(before, after, key)
  {
  }

  ghost predicate Distinct(keys: seq<Byte>)
  {
    forall i, j :: 0 <= i < j < |keys| ==> keys[i] != keys[j]
  }

  lemma SchemaDistinct(t: MessageType)
    ensures Distinct(Schema(t))
  {
  }

  function FieldSize(headers: map<Byte, Header>, key: Byte): nat
  {
    if key in headers then HeaderSize(headers[key]) else 0
  }

  /** Two field maps that differ in one key differ in header size by that key's field, if it is written. */
  lemma {:induction false} HeadersSizeChange(keys: seq<Byte>, before: map<Byte, Header>, after: map<Byte, Header>, key: Byte)
    requires Distinct(keys) && OnlyChanges(before, after, key)
    ensures key in keys ==> HeadersSize(keys, after) - HeadersSize(keys, before) == FieldSize(after, key) - FieldSize(before, key)
    ensures key !in keys ==> HeadersSize(keys, after) == HeadersSize(keys, before)
  {
    if keys != [] {
      HeadersSizeChange(keys[1..], before, after, key);
    }
  }

  /** The returned flag tells the truth about a change of length for every header class except one:
      adding a byte header changes the length and returns false. */
  lemma FlagCoversLengthChange(t: MessageType, before: map<Byte, Header>, key: Byte, h: Header)
    requires AllWellTyped(before) && WellTyped(key, h)
    ensures var (after, flag) := WriteValue(before, key, h);
            !flag && HeadersSize(Schema(t), after) != HeadersSize(Schema(t), before)
            <==> h.ByteHeader? && h.b != 0 && key !in before && key in Schema(t)
    ensures var (after, flag) := WriteFalse(before, key);
            !flag ==> HeadersSize(Schema(t), after) == HeadersSize(Schema(t), before)
  {
    SchemaDistinct(t);
    var (after, flag) := WriteValue(before, key, h);
    HeadersSizeChange(Schema(t), before, after, key);
    HeadersSizeChange(Schema(t), before, WriteFalse(before, key).0, key);
    if key in before {
      assert WellTyped(key, before[key]);
    }
  }

  /** parse_dynamic_data on the header block of a frame. */
  method ParseDynamicData(schema: seq<Byte>, data: Bytes) returns (r: Result<map<Byte, Header>>)
    ensures r == ParseHeaders(schema, data, map[])
  {
    var rest := data;
    var fields: map<Byte, Header> := map[];
    while rest != []
      invariant ParseHeaders(schema, rest, fields) == ParseHeaders(schema, data, map[])
      decreases |rest|
    {
      var header := ParseHeader(rest);
      if header.Err? {
        return Err(header.reason);
      }
      if header.value.0 !in schema {
        return Err("Invalid dynamic header");
      }
      rest, fields := rest[HeaderSize(header.value.1)..], fields[header.value.0 := header.value.1];
    }
    r := Ok(fields);
  }

  class MessageObject {
    const kind: MessageType
    var messageSize: int
    var headerSize: nat
    var headers: map<Byte, Header>
    var body: Bytes

    ghost function Value(): Message
      reads this
    {
      Message(kind, headers, body)
    }

    /** Sizes stay in the ranges of the int32_t and uint16_t fields that hold them. */
    ghost predicate Sized()
      reads this
    {
      TrueSize(Value()) < 0x8000_0000 && TrueHeaderSize(Value()) < 0x1_0000
    }

    /** The cached sizes are either invalidated or right. */
    ghost predicate Fresh()
      reads this
    {
      messageSize == 0 || (messageSize == TrueSize(Value()) && headerSize == TrueHeaderSize(Value()))
    }

    constructor (kind: MessageType)
      ensures this.kind == kind && headers == map[] && body == [] && messageSize == 0 && Fresh()
    {
      this.kind := kind;
      messageSize, headerSize, headers, body := 0, 0, map[], [];
    }

    method UpdateStaticHeader()
      requires Sized()
      modifies `messageSize, `headerSize
      ensures messageSize == TrueSize(Value()) && headerSize == TrueHeaderSize(Value())
    {
      var keys, i, size := Schema(kind), 0, STATIC_SIZE;
      while i < |keys|
        invariant 0 <= i <= |keys|
        invariant size + HeadersSize(keys[i..], headers) == TrueHeaderSize(Value())
      {
        if keys[i] in headers {
          size := size + HeaderSize(headers[keys[i]]);
        }
        assert keys[i..][1..] == keys[i + 1..];
        i := i + 1;
      }
      headerSize := size;
      messageSize := if HasBody(kind) then size + |body| else size;
    }

    method Size() returns (n: int)
      requires Sized()
      modifies `messageSize, `headerSize
      ensures n == messageSize && messageSize != 0
      ensures old(messageSize) != 0 ==> messageSize == old(messageSize) && headerSize == old(headerSize)
      ensures old(Fresh()) ==> Fresh() && n == TrueSize(Value())
    {
      if messageSize == 0 {
        UpdateStaticHeader();
      }
      n := messageSize;
    }

    /** set_sequence_id, set_page_id, set_refreshed, set_pub_path, set_status, set_qos and the other setters.
        Every one keeps the cached size right, except that adding a byte header to a message whose
        size has been computed leaves the cached size two bytes short. */
    method SetHeader(key: Byte, h: Header)
      requires AllWellTyped(headers) && WellTyped(key, h)
      modifies `headers, `messageSize
      ensures AllWellTyped(headers) && headers == WriteValue(old(headers), key, h).0
      ensures Reads(headers, key, h) && (key in headers <==> !Blank(h)) && OnlyChanges(old(headers), headers, key)
      ensures old(Fresh()) ==>
                (Fresh() <==> !(h.ByteHeader? && h.b != 0 && key !in old(headers) && key in Schema(kind) && old(messageSize) != 0))
    {
      FlagCoversLengthChange(kind, headers, key, h);
      WriteThenRead(headers, key, h);
      var (fields, flag) := WriteValue(headers, key, h);
      headers := fields;
      if flag {
        messageSize := 0;
      }
    }

    /** The setters of priority, no_stream, refreshed and skippable. */
    method SetFlag(key: Byte, value: bool)
      requires AllWellTyped(headers) && WellTyped(key, BoolHeader)
      modifies `headers, `messageSize
      ensures AllWellTyped(headers) && ReadBool(headers, key) == value && OnlyChanges(old(headers), headers, key)
      ensures old(Fresh()) ==> Fresh()
    {
      if value {
        SetHeader(key, BoolHeader);
      } else {
        FlagCoversLengthChange(kind, headers, key, BoolHeader);
        WriteThenRead(headers, key, BoolHeader);
        var (fields, flag) := WriteFalse(headers, key);
        headers := fields;
        if flag {
          messageSize := 0;
        }
      }
    }

    method SetBody(b: Bytes)
      modifies `body, `messageSize
      ensures body == b && Fresh()
    {
      messageSize := 0;
      body := b;
    }

    /** write_dynamic_data: header fields in schema order, then the body. */
    method WriteDynamicData(buf: array<Byte>, pos: nat)
      requires pos + |Payload(Value())| <= buf.Length
      modifies buf
      ensures buf[..] == old(buf[..pos]) + Payload(Value()) + old(buf[pos + |Payload(Value())|..])
    {
      hide *;
      PayloadParts();
      ghost var original, block, tail := buf[..], HeadersBytes(Schema(kind), headers), if HasBody(kind) then body else [];
      var cur := WriteHeaders(buf, pos);
      ghost var before := buf[..];
      if HasBody(kind) {
        Store(buf, cur, body);
      } else {
        assert before == before[..cur] + [] + before[cur..];
      }
      StoreExtends(original, before, buf[..], pos, block, tail);
    }

    lemma PayloadParts()
      ensures Payload(Value()) == HeadersBytes(Schema(kind), headers) + if HasBody(kind) then body else []
    {
    }

    method WriteHeaders(buf: array<Byte>, pos: nat) returns (cur: nat)
      requires pos + |HeadersBytes(Schema(kind), headers)| <= buf.Length
      modifies buf
      ensures var block := HeadersBytes(Schema(kind), headers);
              cur == pos + |block| && buf[..] == old(buf[..pos]) + block + old(buf[cur..])
    {
      hide *;
      var keys, i := Schema(kind), 0;
      ghost var original, block := buf[..], HeadersBytes(Schema(kind), headers);
      ghost var done: Bytes := [];
      cur := pos;
      while i < |keys|
        invariant 0 <= i <= |keys|
        invariant done + HeadersBytes(keys[i..], headers) == block && cur == pos + |done|
        invariant buf[..] == original[..pos] + done + original[cur..]
      {
        BlockStep(keys, headers, i, done);
        if keys[i] in headers {
          var h := HeaderBytes(keys[i], headers[keys[i]]);
          ghost var before := buf[..];
          Store(buf, cur, h);
          StoreExtends(original, before, buf[..], pos, done, h);
          cur := cur + |h|;
          done := done + h;
        }
        i := i + 1;
      }
      NothingLeft(keys, headers);
    }

    /** Message::write. It throws when the size was never computed; otherwise it stores the static header
        with the cached sizes. With right cached sizes the stored bytes are the encoding of the message. */
    method Write(buf: array<Byte>, pos: nat, rid: Int32, ackId: Int32) returns (ok: bool)
      requires Sized() && -0x8000_0000 <= messageSize < 0x8000_0000
      requires pos + STATIC_SIZE + |Payload(Value())| <= buf.Length
      modifies buf
      ensures ok <==> messageSize != 0
      ensures !ok ==> buf[..] == old(buf[..])
      ensures ok ==> buf[..] == old(buf[..pos]) + (StaticBytes(messageSize, headerSize, kind, rid, ackId) + Payload(Value()))
                                + old(buf[pos + STATIC_SIZE + |Payload(Value())|..])
      ensures ok && Fresh() ==> buf[..] == old(buf[..pos]) + Encode(Value(), rid, ackId)
                                            + old(buf[pos + STATIC_SIZE + |Payload(Value())|..])
    {
      hide Payload, HeadersBytes, StaticBytes, Encode, HeadersSize;
      if messageSize == 0 {
        return false;
      }
      var fixed := StaticBytes(messageSize, headerSize, kind, rid, ackId);
      Store(buf, pos, fixed);
      ghost var before := buf[..];
      WriteDynamicData(buf, pos + STATIC_SIZE);
      StoreExtends(old(buf[..]), before, buf[..], pos, fixed, Payload(Value()));
      FreshEncodes(rid, ackId);
      ok := true;
    }

    lemma FreshEncodes(rid: Int32, ackId: Int32)
      requires Sized()
      ensures Fresh() && messageSize != 0 ==>
                Encode(Value(), rid, ackId) == StaticBytes(messageSize, headerSize, kind, rid, ackId) + Payload(Value())
    {
    }
  }

  /** Moving one header from the rest of the block to the part already written. */
  lemma BlockStep(keys: seq<Byte>, headers: map<Byte, Header>, i: nat, done: Bytes)
    requires i < |keys|
    ensures done + HeadersBytes(keys[i..], headers)
            == (if keys[i] in headers then done + HeaderBytes(keys[i], headers[keys[i]]) else done) + HeadersBytes(keys[i + 1..], headers)
  {
  }

  lemma NothingLeft(keys: seq<Byte>, headers: map<Byte, Header>)
    ensures HeadersBytes(keys[|keys|..], headers) == []
  {
  }

  /** Two adjacent stores act like one store of the concatenation. */
  lemma StoreExtends(original: Bytes, before: Bytes, after: Bytes, pos: nat, done: Bytes, h: Bytes)
    requires pos + |done| + |h| <= |original| == |before|
    requires before == original[..pos] + done + original[pos + |done|..]
    requires after == before[..pos + |done|] + h + before[pos + |done| + |h|..]
    ensures after == original[..pos] + (done + h) + original[pos + |done + h|..]
  {
  }
}
