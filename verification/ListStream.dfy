/** The responder's end of a list: pending changes, conflated by key, drained in messages of limited size.
    src/sdk/stream/responder/outgoing_list_stream.cc. */
module ListStream {
  import opened Bytes
  import opened ListBody
  import opened Codec
  import opened Messages

  const STATUS_OK: Byte := 0x00
  const STATUS_INITIALIZING: Byte := 0x01

  /** How many entries at the front fit into `room` bytes. */
  function Fitting(entries: seq<Entry>, room: int): (n: nat)
    ensures n <= |entries|
  {
    if entries == [] || EntrySize(entries[0]) > room then 0 else 1 + Fitting(entries[1..], room - EntrySize(entries[0]))
  }

  /** They fit, and one more would not. */
  lemma {:induction false} FittingExact(entries: seq<Entry>, room: int)
    requires room >= 0
    ensures var n := Fitting(entries, room);
            EntriesSize(entries[..n]) <= room && (n < |entries| ==> EntriesSize(entries[..n + 1]) > room)
    decreases |entries|
  {
    if entries != [] {
      var e, rest := entries[0], entries[1..];
      PrefixSize(entries, 0);
      if EntrySize(e) <= room {
        var n := Fitting(rest, room - EntrySize(e));
        FittingExact(rest, room - EntrySize(e));
        PrefixSize(entries, n);
        if n < |rest| {
          PrefixSize(entries, n + 1);
        }
      }
    }
  }

  lemma PrefixSize(entries: seq<Entry>, n: nat)
    requires n < |entries|
    ensures EntriesSize(entries[..n + 1]) == EntrySize(entries[0]) + EntriesSize(entries[1..][..n])
  {
    assert entries[..n + 1] == [entries[0]] + entries[1..][..n];
  }

  /** A message sized for the entries that fit takes exactly those entries. */
  lemma {:induction false} FittingAgain(entries: seq<Entry>, room: int)
    requires room >= 0
    ensures var n := Fitting(entries, room); Fitting(entries, EntriesSize(entries[..n])) == n
    decreases |entries|
  {
    if entries != [] && EntrySize(entries[0]) <= room {
      FittingAgain(entries[1..], room - EntrySize(entries[0]));
      PrefixSize(entries, Fitting(entries[1..], room - EntrySize(entries[0])));
    }
  }

  /** The size of the message that a drain into `available` bytes makes. */
  function DrainSize(headers: nat, entries: seq<Entry>, available: int): nat
  {
    headers + EntriesSize(entries[..Fitting(entries, available - headers)])
  }

  /** A list message respects the protocol's size limit, whatever is pending, exactly when the room it is offered does.
      write_loop offers the limit to the first message of a buffer and the rest of the buffer to the later ones. */
  lemma LimitExact(headers: nat, available: int)
    requires headers + 4 <= available
    ensures available <= MAX_MESSAGE_SIZE
            <==> forall entries :: DrainSize(headers, entries, available) <= MAX_MESSAGE_SIZE
  {
    if available <= MAX_MESSAGE_SIZE {
      forall entries ensures DrainSize(headers, entries, available) <= MAX_MESSAGE_SIZE {
        FittingExact(entries, available - headers);
      }
    } else {
      var one := [Entry([], seq(available - headers - 4, i => 0))];
      assert one[..1] == one && one[1..] == [];
      assert EntriesSize(one) == EntrySize(one[0]) + EntriesSize([]);
      assert DrainSize(headers, one, available) == available;
    }
  }

  /** The dynamic headers of a list response. */
  function ListHeaders(status: Byte, refreshed: bool, pubPath: Bytes): map<Byte, Header>
  {
    (if status != STATUS_OK then map[STATUS := ByteHeader(status)] else map[])
    + (if refreshed then map[REFRESHED := BoolHeader] else map[])
    + (if pubPath != [] then map[PUB_PATH := StringHeader(pubPath)] else map[])
  }

  function HeaderPart(status: Byte, refreshed: bool, pubPath: Bytes): nat
  {
    STATIC_SIZE + (if refreshed then 1 else 0) + (if status != STATUS_OK then 2 else 0) + (if pubPath != [] then |pubPath| + 3 else 0)
  }

  /** What peek adds up for the headers is what the message will need for them. */
  lemma HeaderPartExact(status: Byte, refreshed: bool, pubPath: Bytes, body: Bytes)
    requires HeaderPart(status, refreshed, pubPath) < 0x1_0000
    ensures var m := Message(ListResponse, ListHeaders(status, refreshed, pubPath), body);
            TrueHeaderSize(m) == HeaderPart(status, refreshed, pubPath) && TrueSize(m) == TrueHeaderSize(m) + |body|
            && AllWellTyped(m.headers)
  {
    hide HeadersSize;
    var h := ListHeaders(status, refreshed, pubPath);
    var keys := [STATUS, REFRESHED, SEQUENCE_ID, PUB_PATH, SOURCE_PATH];
    HeadersStep(keys, h);
    assert keys[1..] == [REFRESHED, SEQUENCE_ID, PUB_PATH, SOURCE_PATH];
    HeadersStep(keys[1..], h);
    assert keys[1..][1..] == [SEQUENCE_ID, PUB_PATH, SOURCE_PATH];
    HeadersStep([SEQUENCE_ID, PUB_PATH, SOURCE_PATH], h);
    assert [SEQUENCE_ID, PUB_PATH, SOURCE_PATH][1..] == [PUB_PATH, SOURCE_PATH];
    HeadersStep([PUB_PATH, SOURCE_PATH], h);
    assert [PUB_PATH, SOURCE_PATH][1..] == [SOURCE_PATH];
    HeadersStep([SOURCE_PATH], h);
    assert [SOURCE_PATH][1..] == [];
  }

  lemma MessageSize(status: Byte, refreshed: bool, pubPath: Bytes, entries: seq<Entry>)
    requires HeaderPart(status, refreshed, pubPath) < 0x1_0000
    ensures TrueSize(Message(ListResponse, ListHeaders(status, refreshed, pubPath), BodyBytes(entries)))
         == HeaderPart(status, refreshed, pubPath) + EntriesSize(entries)
  {
    hide HeaderPart, ListHeaders, TrueSize, TrueHeaderSize, EntriesSize, AllWellTyped;
    HeaderPartExact(status, refreshed, pubPath, BodyBytes(entries));
  }

  /** The receiver of the message reads what was pending. */
  lemma HeadersRead(status: Byte, refreshed: bool, pubPath: Bytes)
    ensures var h := ListHeaders(status, refreshed, pubPath);
            && ReadByte(h, 0x00) == status && ReadBool(h, 0x20) == refreshed && ReadString(h, 0x21) == pubPath
            && forall k :: k in h ==> k in {0x00, 0x20, 0x21}
  {
  }

  /** The setters make these headers. */
  lemma HeadersWritten(status: Byte, refreshed: bool, pubPath: Bytes)
    requires HeaderPart(status, refreshed, pubPath) < 0x1_0000
    ensures AllWellTyped(map[])
    ensures status != STATUS_OK ==> WellTyped(STATUS, ByteHeader(status))
    ensures WellTyped(REFRESHED, BoolHeader) && (pubPath != [] ==> WellTyped(PUB_PATH, StringHeader(pubPath)))
    ensures var one := if status != STATUS_OK then WriteValue(map[], STATUS, ByteHeader(status)).0 else map[];
            var two := if refreshed then WriteValue(one, REFRESHED, BoolHeader).0 else one;
            (if pubPath != [] then WriteValue(two, PUB_PATH, StringHeader(pubPath)).0 else two) == ListHeaders(status, refreshed, pubPath)
  {
  }

  lemma HeadersStep(keys: seq<Byte>, headers: map<Byte, Header>)
    requires keys != []
    ensures HeadersSize(keys, headers) == FieldSize(headers, keys[0]) + HeadersSize(keys[1..], headers)
    ensures HeadersSize([], headers) == 0
  {
  }

  /** One more entry: for the size of a prefix and for what fits behind it. */
  lemma NextEntry(entries: seq<Entry>, i: nat, room: int)
    requires i < |entries|
    ensures EntriesSize(entries[..i + 1]) == EntriesSize(entries[..i]) + EntrySize(entries[i])
    ensures Fitting(entries[i..], room)
            == if EntrySize(entries[i]) > room then 0 else 1 + Fitting(entries[i + 1..], room - EntrySize(entries[i]))
  {
    assert entries[..i + 1] == entries[..i] + [entries[i]];
    SizeAppend(entries[..i], [entries[i]]);
    assert EntriesSize([entries[i]]) == EntrySize(entries[i]) + EntriesSize([]);
    assert entries[i..][1..] == entries[i + 1..];
  }

  /** What a list stream has still to send, and a list response as the requester sees it. */
  datatype Pending = Pending(entries: seq<Entry>, refreshed: bool)

  datatype Packet = Packet(refreshed: bool, body: Bytes)

  /** A message with the first `n` pending entries. */
  function Sent(p: Pending, n: nat): (Packet, Pending)
    requires n <= |p.entries|
  {
    (Packet(p.refreshed, BodyBytes(p.entries[..n])), Pending(p.entries[n..], false))
  }

  function AsPacket(m: Message): Packet { Packet(REFRESHED in m.headers, m.body) }

  lemma PacketOf(status: Byte, refreshed: bool, pubPath: Bytes, body: Bytes)
    ensures AsPacket(Message(ListResponse, ListHeaders(status, refreshed, pubPath), body)) == Packet(refreshed, body)
  {
  }

  class OutgoingListStream {
    /** The pending changes, in the iteration order of the hash table that holds them. */
    var cachedMap: seq<Entry>
    var nextSize: nat
    var statusChanged: bool
    var status: Byte
    var pendingPubPath: Bytes
    var refreshed: bool

    ghost predicate Valid()
      reads this
    {
      DistinctKeys(cachedMap)
    }

    function Abs(): Pending
      reads this
    {
      Pending(cachedMap, refreshed)
    }

    function Headers(): nat
      reads this
    {
      HeaderPart(status, refreshed, pendingPubPath)
    }

    /** _next_size is not initialised: `junk`. */
    constructor (junk: nat)
      ensures Valid() && Abs() == Pending([], true) && status == STATUS_INITIALIZING && pendingPubPath == [] && !statusChanged
    {
      cachedMap, nextSize, statusChanged, status, pendingPubPath, refreshed := [], junk, false, STATUS_INITIALIZING, [], true;
    }

    /** update_list_value: the entry of the key is replaced or inserted, whatever iteration order the table then has. Always
        asks to be written. */
    method UpdateListValue(key: Bytes, value: Bytes, order: seq<Bytes>)
      requires Valid() && IsOrder(order, ToMap(cachedMap).Keys + {key})
      modifies `cachedMap
      ensures Valid() && ToMap(cachedMap) == old(ToMap(cachedMap))[key := value]
      ensures |cachedMap| == |order| && forall i :: 0 <= i < |order| ==> cachedMap[i].key == order[i]
    {
      var table := ToMap(cachedMap)[key := value];
      InOrderIsTable(table, order);
      cachedMap := InOrder(table, order);
    }

    method UpdateResponseStatus(s: Byte) returns (asks: bool)
      modifies `status, `statusChanged
      ensures status == s && asks == (old(status) != s) && statusChanged == (old(statusChanged) || asks)
    {
      asks := status != s;
      if asks {
        statusChanged, status := true, s;
      }
    }

    /** update_list_refreshed. It does not ask to be written: the refresh goes out with the next change. */
    method UpdateListRefreshed()
      modifies `refreshed, `cachedMap
      ensures Valid() && Abs() == Pending([], true)
    {
      refreshed := true;
      cachedMap := [];
    }

    method UpdateListPubPath(path: Bytes) returns (asks: bool)
      modifies `pendingPubPath
      ensures asks == (path != []) && pendingPubPath == if path != [] then path else old(pendingPubPath)
    {
      asks := path != [];
      if asks {
        pendingPubPath := path;
      }
    }

    /** peek_next_message_size: the size of the message for `available` bytes. A first entry that does not fit is reported
        with its size and not remembered. */
    method PeekNextMessageSize(available: int, time: int) returns (size: nat)
      modifies `nextSize
      ensures cachedMap == [] && !statusChanged ==> size == 0 && nextSize == old(nextSize)
      ensures cachedMap == [] && statusChanged ==> size == nextSize == Headers()
      ensures cachedMap != [] ==>
                var n := Fitting(cachedMap, available - Headers());
                if n == 0 then size == Headers() + EntrySize(cachedMap[0]) > available && nextSize == old(nextSize)
                else size == nextSize == Headers() + EntriesSize(cachedMap[..n]) <= available
    {
      if cachedMap == [] && !statusChanged {
        return 0;
      }
      size := STATIC_SIZE;
      if refreshed {
        size := size + 1;
      }
      if status != STATUS_OK {
        size := size + 2;
      }
      if pendingPubPath != [] {
        size := size + |pendingPubPath| + 3;
      }
      if cachedMap != [] {
        size := size + EntrySize(cachedMap[0]);
        if size > available {
          return size;
        }
        size := AddFitting(available, size);
      }
      nextSize := size;
    }

    /** The loop of peek_next_message_size over the entries behind the first. */
    method AddFitting(available: int, first: nat) returns (size: nat)
      requires cachedMap != [] && first == Headers() + EntrySize(cachedMap[0]) <= available
      ensures var n := Fitting(cachedMap, available - Headers()); n > 0 && size == Headers() + EntriesSize(cachedMap[..n]) <= available
    {
      hide EntriesSize, EntrySize, Fitting, HeaderPart;
      size := first;
      var i := 1;
      NextEntry(cachedMap, 0, available - Headers());
      assert cachedMap[0..] == cachedMap;
      assert EntriesSize(cachedMap[..0]) == 0 by { NoEntries(); }
      while i < |cachedMap|
        invariant 1 <= i <= |cachedMap| && size == Headers() + EntriesSize(cachedMap[..i]) <= available
        invariant Fitting(cachedMap, available - Headers()) == i + Fitting(cachedMap[i..], available - size)
      {
        NextEntry(cachedMap, i, available - size);
        var thisSize := EntrySize(cachedMap[i]);
        if thisSize + size > available {
          break;
        }
        size := size + thisSize;
        i := i + 1;
      }
      NoEntries();
    }

    /** get_next_message: takes the entries that fit into the size that peek remembered. A remembered size below that of the
        headers wraps around in the subtraction, and the allocation of the body fails: the flags are gone by then. */
    method GetNextMessage() returns (m: MessageObject?)
      requires Valid() && Headers() < 0x1_0000
      modifies `cachedMap, `statusChanged, `refreshed, `pendingPubPath
      ensures m == null <==> nextSize < old(Headers())
      ensures m == null ==> cachedMap == old(cachedMap)
      ensures m != null ==>
                var n := Fitting(old(cachedMap), nextSize - old(Headers()));
                && fresh(m) && m.Fresh()
                && m.Value() == Message(ListResponse, ListHeaders(status, old(refreshed), old(pendingPubPath)),
                                        BodyBytes(old(cachedMap)[..n]))
                && TrueSize(m.Value()) == old(Headers()) + EntriesSize(old(cachedMap)[..n])
                && cachedMap == old(cachedMap)[n..]
      ensures Valid() && !refreshed && !statusChanged && pendingPubPath == []
    {
      hide *;
      ghost var entries, flags, size := cachedMap, (refreshed, pendingPubPath), Headers();
      var made, headerSize := TakeHeaders();
      if nextSize < headerSize {
        return null;
      }
      var body := DrainEntries(nextSize - headerSize);
      MessageSize(status, flags.0, flags.1, entries[..Fitting(entries, nextSize - size)]);
      PutBody(made, body);
      m := made;
    }

    /** The headers of the next message; the flags that ask for them are cleared. */
    method TakeHeaders() returns (m: MessageObject, headerSize: nat)
      requires Valid() && Headers() < 0x1_0000
      modifies `statusChanged, `refreshed, `pendingPubPath
      ensures Valid() && !refreshed && !statusChanged && pendingPubPath == []
      ensures fresh(m) && m.Value() == Message(ListResponse, ListHeaders(status, old(refreshed), old(pendingPubPath)), [])
      ensures headerSize == old(Headers()) == HeaderPart(status, old(refreshed), old(pendingPubPath)) < 0x1_0000
    {
      hide HeaderPart, ListHeaders, TrueHeaderSize, TrueSize, AllWellTyped, DistinctKeys, BodyBytes;
      m := MakeHeaders();
      HeaderPartExact(status, refreshed, pendingPubPath, []);
      headerSize := m.Size();
      statusChanged, refreshed, pendingPubPath := false, false, [];
    }

    method MakeHeaders() returns (m: MessageObject)
      requires Headers() < 0x1_0000
      ensures fresh(m) && m.Value() == Message(ListResponse, ListHeaders(status, refreshed, pendingPubPath), []) && m.Fresh()
    {
      hide TrueSize, TrueHeaderSize, HeadersSize, MessageObject.Fresh, Schema, WriteValue, ListHeaders, AllWellTyped, WellTyped, HeaderPart;
      HeadersWritten(status, refreshed, pendingPubPath);
      m := new MessageObject(ListResponse);
      if status != STATUS_OK {
        m.SetHeader(STATUS, ByteHeader(status));
      }
      if refreshed {
        m.SetHeader(REFRESHED, BoolHeader);
      }
      if pendingPubPath != [] {
        m.SetHeader(PUB_PATH, StringHeader(pendingPubPath));
      }
    }

    method PutBody(m: MessageObject, body: Bytes)
      modifies m
      ensures m.Value() == Message(old(m.Value()).kind, old(m.Value()).headers, body) && m.Fresh()
    {
      hide TrueSize, TrueHeaderSize;
      m.SetBody(body);
    }

    /** The loop of get_next_message. */
    method DrainEntries(available: nat) returns (body: Bytes)
      requires Valid()
      modifies `cachedMap
      ensures var n := Fitting(old(cachedMap), available);
              body == BodyBytes(old(cachedMap)[..n]) && cachedMap == old(cachedMap)[n..]
      ensures Valid()
    {
      hide EntryBytes, BodyBytes, EntriesSize, EntrySize, Fitting;
      body := [];
      var room, n := available, 0;
      BodyNil();
      NoEntries();
      while cachedMap != []
        invariant 0 <= n <= |old(cachedMap)| && cachedMap == old(cachedMap)[n..] && room >= 0
        invariant body == BodyBytes(old(cachedMap)[..n])
        invariant Fitting(old(cachedMap), available) == n + Fitting(cachedMap, room)
        decreases |cachedMap|
      {
        var e := cachedMap[0];
        var thisSize := EntrySize(e);
        NextEntry(old(cachedMap), n, room);
        if thisSize > room {
          break;
        }
        assert old(cachedMap)[..n + 1] == old(cachedMap)[..n] + [e];
        BodyAppend(old(cachedMap)[..n], [e]);
        BodyOne(e);
        room := room - thisSize;
        body := body + EntryBytes(e);
        cachedMap := cachedMap[1..];
        n := n + 1;
      }
    }

    /** One message through the steps of the session: peek_next_message with `available` bytes, the test against the room in
        the write buffer, the second peek of get_next_ready_stream, and get_next_message. If the first entry fits, the size
        announced is the size of the message, at least one entry leaves when any waits, and entries stay behind exactly when
        all together do not fit. If it does not fit but passes the test, what goes out is decided by a size remembered from
        an earlier message. */
    method Drain(available: int, room: int, time: int) returns (size: nat, m: MessageObject?)
      requires Valid() && Headers() < 0x1_0000
      modifies this
      ensures Valid()
      ensures !(0 < size < room) ==> m == null && Abs() == old(Abs())
      ensures size > 0 <==> old(cachedMap) != [] || old(statusChanged)
      ensures size > available ==> size == 0 || old(cachedMap) == [] || size == old(Headers()) + EntrySize(old(cachedMap)[0])
      ensures 0 < size < room && (size <= available || old(cachedMap) == []) ==>
                var n := Fitting(old(cachedMap), available - old(Headers()));
                && m != null && fresh(m) && m.Fresh() && TrueSize(m.Value()) == size
                && m.Value() == Message(ListResponse, ListHeaders(status, old(refreshed), old(pendingPubPath)),
                                        BodyBytes(old(cachedMap)[..n]))
                && (AsPacket(m.Value()), Abs()) == Sent(old(Abs()), n)
                && (old(cachedMap) != [] ==> n > 0)
                && (cachedMap == [] <==> old(cachedMap) == [] || old(Headers()) + EntriesSize(old(cachedMap)) <= available)
      ensures available < size < room && old(cachedMap) != [] ==>
                if old(nextSize) < old(Headers()) then m == null && Abs() == Pending(old(cachedMap), false)
                else
                  var n := Fitting(old(cachedMap), old(nextSize) - old(Headers()));
                  m != null && fresh(m) && m.Fresh() && (AsPacket(m.Value()), Abs()) == Sent(old(Abs()), n)
    {
      hide EntriesSize, HeaderPart, ListHeaders, BodyBytes, TrueHeaderSize, TrueSize, DistinctKeys;
      m := null;
      NoEntries();
      SomeHeader(status, refreshed, pendingPubPath);
      size := PeekNextMessageSize(available, time);
      if size == 0 || size >= room {
        return;
      }
      if size <= available {
        FittingAgain(cachedMap, if cachedMap == [] then 0 else available - Headers());
      }
      FittingAll(cachedMap, available - Headers());
      assert cachedMap[..0] == [];
      var again := PeekNextMessageSize(0, time);
      PacketOf(status, refreshed, pendingPubPath, BodyBytes(cachedMap[..Fitting(cachedMap, nextSize - Headers())]));
      m := GetNextMessage();
    }
  }

  lemma SomeHeader(status: Byte, refreshed: bool, pubPath: Bytes)
    ensures HeaderPart(status, refreshed, pubPath) > 0
  {
  }

  lemma {:induction false} FittingAll(entries: seq<Entry>, room: int)
    ensures Fitting(entries, room) == |entries| <==> entries == [] || EntriesSize(entries) <= room
  {
    if entries != [] {
      FittingAll(entries[1..], room - EntrySize(entries[0]));
      FittingBelow(entries[1..], room - EntrySize(entries[0]));
    }
  }

  lemma FittingBelow(entries: seq<Entry>, room: int)
    ensures Fitting(entries, room) <= |entries| && EntriesSize(entries) >= 0
  {
  }

  lemma NoEntries()
    ensures EntriesSize([]) == 0 && forall room :: Fitting([], room) == 0
  {
  }

  lemma BodyOne(e: Entry)
    ensures BodyBytes([e]) == EntryBytes(e)
  {
  }
}
