/** The body of a list response: key and value pairs with 16-bit lengths.
    src/sdk/stream/responder/outgoing_list_stream.cc and src/sdk/message/response/list_response_message.cc. */
module ListBody {
  import opened Bytes

  /** A value is the encoded form of a Var; a blank value, which means removal, is encoded as no bytes. */
  datatype Entry = Entry(key: Bytes, value: Bytes)

  function EntrySize(e: Entry): nat { |e.key| + |e.value| + 4 }

  function EntriesSize(entries: seq<Entry>): nat
  {
    if entries == [] then 0 else EntrySize(entries[0]) + EntriesSize(entries[1..])
  }

  /** What get_next_message writes for one entry; lengths are cut to 16 bits. */
  function EntryBytes(e: Entry): (b: Bytes)
    ensures |b| == EntrySize(e)
  {
    Put16(|e.key|) + e.key + Put16(|e.value|) + e.value
  }

  function BodyBytes(entries: seq<Entry>): (b: Bytes)
    ensures |b| == EntriesSize(entries)
  {
    if entries == [] then [] else EntryBytes(entries[0]) + BodyBytes(entries[1..])
  }

  /** The unordered map that holds these entries; a later entry for a key replaces an earlier one. */
  function ToMap(entries: seq<Entry>): map<Bytes, Bytes>
  {
    if entries == [] then map[] else map[entries[0].key := entries[0].value] + ToMap(entries[1..])
  }

  predicate HasKey(entries: seq<Entry>, key: Bytes)
  {
    exists i :: 0 <= i < |entries| && entries[i].key == key
  }

  lemma {:induction false} ToMapKeys(entries: seq<Entry>, key: Bytes)
    ensures key in ToMap(entries) <==> HasKey(entries, key)
  {
    if entries != [] {
      ToMapKeys(entries[1..], key);
      assert HasKey(entries, key) <==> entries[0].key == key || HasKey(entries[1..], key) by {
        if HasKey(entries[1..], key) {
          var i :| 0 <= i < |entries[1..]| && entries[1..][i].key == key;
          assert entries[i + 1].key == key;
        }
        if HasKey(entries, key) && entries[0].key != key {
          var i :| 0 <= i < |entries| && entries[i].key == key;
          assert entries[1..][i - 1].key == key;
        }
      }
    }
  }

  predicate DistinctKeys(entries: seq<Entry>)
  {
    forall i, j :: 0 <= i < j < |entries| ==> entries[i].key != entries[j].key
  }

  /** An iteration order of a table with these keys. */
  ghost predicate IsOrder(order: seq<Bytes>, keys: set<Bytes>)
  {
    && (forall i, j :: 0 <= i < j < |order| ==> order[i] != order[j])
    && (forall k :: k in order <==> k in keys)
  }

  /** The entries of a table, in an iteration order of its keys. */
  function InOrder(table: map<Bytes, Bytes>, order: seq<Bytes>): (entries: seq<Entry>)
    requires forall k :: k in order ==> k in table
    ensures |entries| == |order| && forall i :: 0 <= i < |order| ==> entries[i] == Entry(order[i], table[order[i]])
  {
    if order == [] then [] else [Entry(order[0], table[order[0]])] + InOrder(table, order[1..])
  }

  /** Whatever the order, the entries are the table, and none of its keys comes twice. */
  lemma InOrderIsTable(table: map<Bytes, Bytes>, order: seq<Bytes>)
    requires IsOrder(order, table.Keys)
    ensures ToMap(InOrder(table, order)) == table && DistinctKeys(InOrder(table, order))
  {
    hide ToMap, InOrder;
    var entries := InOrder(table, order);
    forall k ensures k in ToMap(entries) <==> k in table {
      ToMapKeys(entries, k);
      if k in table {
        var i :| 0 <= i < |order| && order[i] == k;
        assert entries[i].key == k;
      }
    }
    forall k | k in table ensures ToMap(entries)[k] == table[k] {
      FoundInOrder(table, order, k);
    }
  }

  lemma {:induction false} FoundInOrder(table: map<Bytes, Bytes>, order: seq<Bytes>, k: Bytes)
    requires (forall x :: x in order ==> x in table) && k in order
    ensures k in ToMap(InOrder(table, order)) && ToMap(InOrder(table, order))[k] == table[k]
  {
    if k in order[1..] {
      FoundInOrder(table, order[1..], k);
    } else {
      ToMapKeys(InOrder(table, order[1..]), k);
    }
  }

  lemma MapAssoc(a: map<Bytes, Bytes>, b: map<Bytes, Bytes>, c: map<Bytes, Bytes>)
    ensures a + (b + c) == (a + b) + c
  {
  }

  lemma {:induction false} ToMapAppend(a: seq<Entry>, b: seq<Entry>)
    ensures ToMap(a + b) == ToMap(a) + ToMap(b)
  {
    if a == [] {
      assert a + b == b;
    } else {
      ToMapAppend(a[1..], b);
      assert (a + b)[1..] == a[1..] + b;
      MapAssoc(map[a[0].key := a[0].value], ToMap(a[1..]), ToMap(b));
    }
  }

  lemma {:induction false} BodyAppend(a: seq<Entry>, b: seq<Entry>)
    ensures BodyBytes(a + b) == BodyBytes(a) + BodyBytes(b)
  {
    hide *;
    if a == [] {
      assert a + b == b;
      BodyNil();
    } else {
      BodyAppend(a[1..], b);
      BodyCons(a);
      BodyCons(a + b);
      assert (a + b)[1..] == a[1..] + b;
      ConcatAssoc(EntryBytes(a[0]), BodyBytes(a[1..]), BodyBytes(b));
    }
  }

  lemma BodyNil()
    ensures BodyBytes([]) == []
  {
  }

  lemma ConcatAssoc(a: Bytes, b: Bytes, c: Bytes)
    ensures a + (b + c) == (a + b) + c
  {
  }

  lemma BodyCons(a: seq<Entry>)
    requires a != []
    ensures BodyBytes(a) == EntryBytes(a[0]) + BodyBytes(a[1..])
  {
  }

  lemma {:induction false} SizeAppend(a: seq<Entry>, b: seq<Entry>)
    ensures EntriesSize(a + b) == EntriesSize(a) + EntriesSize(b)
  {
    if a == [] {
      assert a + b == b;
    } else {
      SizeAppend(a[1..], b);
      assert (a + b)[1..] == a[1..] + b;
    }
  }

  /** One round of parse_map_to. Broken: it reads the length of a value behind the end of the body. */
  datatype Step = Done | Broken | Next(entry: Entry, rest: Bytes)

  function ParseEntry(body: Bytes): (s: Step)
    ensures s.Next? ==> |s.rest| < |body|
  {
    if |body| <= 4 then Done
    else
      var k: int := Get16(body);
      if |body| - 2 < k then Done
      else if |body| - 2 - k < 2 then Broken
      else
        var v: int := Get16(body[2 + k..]);
        if |body| - 4 - k < v then Done
        else Next(Entry(body[2..2 + k], body[4 + k..4 + k + v]), body[4 + k + v..])
  }

  /** parse_map_to, where it has a defined result. */
  function ParseMap(body: Bytes): Result<map<Bytes, Bytes>>
    decreases |body|
  {
    match ParseEntry(body)
    case Done => Ok(map[])
    case Broken => Err("reads behind the body")
    case Next(e, rest) =>
      var r := ParseMap(rest);
      if r.Err? then r else Ok(map[e.key := e.value] + r.value)
  }

  /** The loop of parse_map_to. */
  method ParseMapTo(body: Bytes) returns (r: Result<map<Bytes, Bytes>>)
    ensures r == ParseMap(body)
  {
    hide Get16, ParseEntry;
    var data := body;
    var m: map<Bytes, Bytes> := map[];
    ParseMapAcc(m, ParseMap(body));
    while |data| > 4
      invariant ParseMap(body) == Prepend(m, ParseMap(data))
      decreases |data|
    {
      StepCases(data);
      ParseMapAcc(m, ParseMap(data));
      ghost var step, before := ParseEntry(data), data;
      var keySize: int := Get16(data);
      data := data[2..];
      if |data| < keySize {
        return Ok(m);
      }
      var key := data[..keySize];
      data := data[keySize..];
      if |data| < 2 {
        return Err("reads behind the body");
      }
      assert data == before[2 + keySize..];
      var valueSize: int := Get16(data);
      data := data[2..];
      if |data| < valueSize {
        return Ok(m);
      }
      assert key == before[2..2 + keySize] && data == before[4 + keySize..];
      assert data[valueSize..] == before[4 + keySize + valueSize..] && data[..valueSize] == before[4 + keySize..4 + keySize + valueSize];
      PrependStep(m, step.entry, ParseMap(step.rest));
      m := m[key := data[..valueSize]];
      data := data[valueSize..];
    }
    StepCases(data);
    ParseMapAcc(m, ParseMap(data));
    r := Ok(m);
  }

  function Prepend(m: map<Bytes, Bytes>, r: Result<map<Bytes, Bytes>>): Result<map<Bytes, Bytes>>
  {
    if r.Err? then r else Ok(m + r.value)
  }

  lemma ParseMapAcc(m: map<Bytes, Bytes>, r: Result<map<Bytes, Bytes>>)
    ensures Prepend(map[], r) == r && (r == Ok(map[]) ==> Prepend(m, r) == Ok(m))
    ensures Prepend(m, Ok(map[])) == Ok(m)
  {
    assert m + map[] == m;
    if r.Ok? {
      assert map[] + r.value == r.value;
    }
  }

  lemma PrependStep(m: map<Bytes, Bytes>, e: Entry, r: Result<map<Bytes, Bytes>>)
    ensures Prepend(m, if r.Err? then r else Ok(map[e.key := e.value] + r.value)) == Prepend(m[e.key := e.value], r)
  {
    if r.Ok? {
      assert m + (map[e.key := e.value] + r.value) == m[e.key := e.value] + r.value;
    }
  }

  lemma StepCases(data: Bytes)
    ensures |data| <= 4 ==> ParseEntry(data) == Done
    ensures |data| > 4 ==>
              var k: int := Get16(data);
              && (|data| - 2 < k ==> ParseEntry(data) == Done)
              && (k <= |data| - 2 < k + 2 ==> ParseEntry(data) == Broken)
              && (k + 2 <= |data| - 2 ==>
                    var v: int := Get16(data[2 + k..]);
                    ParseEntry(data) == if |data| - 4 - k < v then Done
                                        else Next(Entry(data[2..2 + k], data[4 + k..4 + k + v]), data[4 + k + v..]))
  {
    hide Get16;
  }

  /** Key and value lengths fit their fields. */
  predicate Fits(e: Entry) { |e.key| < 0x1_0000 && |e.value| < 0x1_0000 }

  lemma EntryParts(e: Entry, rest: Bytes)
    requires Fits(e)
    ensures var b := EntryBytes(e) + rest;
            && Get16(b) as int == |e.key| && b[2..2 + |e.key|] == e.key
            && Get16(b[2 + |e.key|..]) as int == |e.value| && b[4 + |e.key|..4 + |e.key| + |e.value|] == e.value
            && b[4 + |e.key| + |e.value|..] == rest
  {
  }

  /** Two bytes for the length of the key, the lower one first, the key, and the value in the same way. */
  lemma EntryLayout(e: Entry)
    ensures var k, v := |e.key|, |e.value|;
            EntryBytes(e) == [k % 0x100, k / 0x100 % 0x100] + e.key + [v % 0x100, v / 0x100 % 0x100] + e.value
  {
  }

  /** A body that breaks off inside an entry: the entries before it are read, and it is not; but if the length of its value is
      cut off, or in two, the reader reads behind the body. */
  lemma {:induction false} BrokenOff(entries: seq<Entry>, e: Entry, c: nat)
    requires (forall x :: x in entries ==> Fits(x)) && Fits(e) && 0 < c < |EntryBytes(e)|
    ensures var r := ParseMap(BodyBytes(entries) + EntryBytes(e)[..c]);
            if c > 4 && |e.key| + 2 <= c < |e.key| + 4 then r.Err? else r == Ok(ToMap(entries))
    decreases |entries|
  {
    hide EntryBytes, ToMap, ParseEntry, Fits;
    var tail := EntryBytes(e)[..c];
    if entries == [] {
      assert BodyBytes(entries) + tail == tail;
      BrokenEntry(e, c);
      EmptyTable();
    } else {
      assert entries[0] in entries;
      var rest := BodyBytes(entries[1..]) + tail;
      assert BodyBytes(entries) + tail == EntryBytes(entries[0]) + rest;
      EntryParses(entries[0], rest);
      BrokenOff(entries[1..], e, c);
      FirstOfTable(entries);
    }
  }

  lemma EmptyTable()
    ensures ToMap([]) == map[]
  {
  }

  lemma FirstOfTable(entries: seq<Entry>)
    requires entries != []
    ensures ToMap(entries) == map[entries[0].key := entries[0].value] + ToMap(entries[1..])
  {
  }

  lemma BrokenEntry(e: Entry, c: nat)
    requires Fits(e) && 0 < c < |EntryBytes(e)|
    ensures ParseEntry(EntryBytes(e)[..c]) == if c > 4 && |e.key| + 2 <= c < |e.key| + 4 then Broken else Done
  {
    EntryParts(e, []);
    var b := EntryBytes(e);
    assert b + [] == b;
    if c > 4 {
      assert Get16(b[..c]) == Get16(b);
      if c >= |e.key| + 4 {
        assert b[..c][2 + |e.key|..] == b[2 + |e.key|..c];
        assert Get16(b[2 + |e.key|..c]) == Get16(b[2 + |e.key|..]);
      }
    }
  }

  /** The entry that the reader's loop never sees: it needs more than four bytes to go on. */
  predicate EndsBlank(entries: seq<Entry>)
  {
    entries != [] && entries[|entries| - 1] == Entry([], [])
  }

  lemma EntryParses(e: Entry, rest: Bytes)
    requires Fits(e)
    ensures ParseEntry(EntryBytes(e) + rest) == if e == Entry([], []) && rest == [] then Done else Next(e, rest)
  {
    EntryParts(e, rest);
  }

  lemma {:induction false} ParseBody(entries: seq<Entry>)
    requires forall e :: e in entries ==> Fits(e)
    ensures ParseMap(BodyBytes(entries)) == Ok(ToMap(if EndsBlank(entries) then entries[..|entries| - 1] else entries))
  {
    if entries != [] {
      hide EntryBytes, ParseEntry;
      var e, rest := entries[0], entries[1..];
      ParseBody(rest);
      EntryParses(e, BodyBytes(rest));
      if rest == [] {
        assert entries == [e];
        if e != Entry([], []) {
          assert ToMap([e]) == map[e.key := e.value] + ToMap([]);
        }
      } else {
        assert EndsBlank(entries) <==> EndsBlank(rest);
        assert entries[..|entries| - 1][1..] == rest[..|rest| - 1];
      }
    }
  }

  /** The reader gets exactly the entries that were written, unless the last one is the removal of the empty key: that one
      is lost. */
  lemma BodyRoundTrip(entries: seq<Entry>)
    requires DistinctKeys(entries) && forall e :: e in entries ==> Fits(e)
    ensures ParseMap(BodyBytes(entries)) == Ok(ToMap(entries)) <==> !EndsBlank(entries)
  {
    ParseBody(entries);
    if EndsBlank(entries) {
      assert entries[|entries| - 1].key == [];
      ToMapKeys(entries, []);
      ToMapKeys(entries[..|entries| - 1], []);
    }
  }
}
