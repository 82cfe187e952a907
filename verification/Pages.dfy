/** Splitting a value into pages and the shape of a page group.
    src/sdk/variant/msgpack.cc, src/sdk/message/message_value.cc, src/sdk/message/request/invoke_request_message.cc. */
module Pages {
  import opened Bytes
  import opened Sequences

  const MAX_PAGE_BODY_SIZE: nat := 0xC000

  type Size = n: int | 0 < n witness 1

  /** The fields of a Message that paging and queueing read. A first page has a negative pageId (minus the number
      of pages), a later page a positive one, a message that is not paged has 0. */
  datatype Msg = Msg(rid: Int32, sequenceId: Int32, pageId: int, size: Size, body: Bytes, createdTs: int)

  // ---------------------------------------------------------------- splitting

  function Chunks(data: Bytes): seq<Bytes>
    decreases |data|
  {
    if |data| > MAX_PAGE_BODY_SIZE then [data[..MAX_PAGE_BODY_SIZE]] + Chunks(data[MAX_PAGE_BODY_SIZE..]) else [data]
  }

  /** Var::split_pages. */
  function Split(data: Bytes, firstPageSize: nat): seq<Bytes>
    requires firstPageSize < MAX_PAGE_BODY_SIZE ==> firstPageSize <= |data|
  {
    if firstPageSize < MAX_PAGE_BODY_SIZE then [data[..firstPageSize]] + Chunks(data[firstPageSize..]) else Chunks(data)
  }

  method SplitPages(data: Bytes, firstPageSize: nat) returns (result: seq<Bytes>)
    requires firstPageSize < MAX_PAGE_BODY_SIZE ==> firstPageSize <= |data|
    ensures result == Split(data, firstPageSize)
  {
    result := [];
    var rest := data;
    if firstPageSize < MAX_PAGE_BODY_SIZE {
      result := [data[..firstPageSize]];
      rest := data[firstPageSize..];
    }
    while |rest| > MAX_PAGE_BODY_SIZE
      invariant result + Chunks(rest) == Split(data, firstPageSize)
      decreases |rest|
    {
      assert result + ([rest[..MAX_PAGE_BODY_SIZE]] + Chunks(rest[MAX_PAGE_BODY_SIZE..]))
          == (result + [rest[..MAX_PAGE_BODY_SIZE]]) + Chunks(rest[MAX_PAGE_BODY_SIZE..]);
      result := result + [rest[..MAX_PAGE_BODY_SIZE]];
      rest := rest[MAX_PAGE_BODY_SIZE..];
    }
    result := result + [rest];
  }

  /** Var::from_msgpack_pages up to the decoding of the joined bytes. */
  method JoinPages(pages: seq<Bytes>, extraFirstPage: Bytes) returns (data: Bytes)
    ensures data == extraFirstPage + Concat(pages)
  {
    data := extraFirstPage;
    var i := 0;
    while i < |pages|
      invariant 0 <= i <= |pages|
      invariant data + Concat(pages[i..]) == extraFirstPage + Concat(pages)
    {
      assert pages[i..][1..] == pages[i + 1..];
      assert data + (pages[i] + Concat(pages[i + 1..])) == (data + pages[i]) + Concat(pages[i + 1..]);
      data := data + pages[i];
      i := i + 1;
    }
    assert pages[i..] == [];
  }

  lemma {:induction false} ChunksJoin(data: Bytes)
    ensures Concat(Chunks(data)) == data
    ensures forall p :: p in Chunks(data) ==> |p| <= MAX_PAGE_BODY_SIZE
    ensures |Chunks(data)| >= 1 && (|Chunks(data)| >= 2 <==> |data| > MAX_PAGE_BODY_SIZE)
    decreases |data|
  {
    if |data| > MAX_PAGE_BODY_SIZE {
      var rest := Chunks(data[MAX_PAGE_BODY_SIZE..]);
      ChunksJoin(data[MAX_PAGE_BODY_SIZE..]);
      assert ([data[..MAX_PAGE_BODY_SIZE]] + rest)[1..] == rest;
    } else {
      assert Concat([data]) == data + Concat([]);
    }
  }

  lemma {:induction false} ChunkSizes(data: Bytes)
    ensures forall i :: 0 <= i < |Chunks(data)| - 1 ==> |Chunks(data)[i]| == 0xC000
    ensures |Chunks(data)| >= 2 ==> |Chunks(data)[|Chunks(data)| - 1]| > 0
    decreases |data|
  {
    if |data| > MAX_PAGE_BODY_SIZE {
      ChunkSizes(data[MAX_PAGE_BODY_SIZE..]);
    }
  }

  /** Joining the pages of a value gives the value back, no page body exceeds the page size, all but the last are as large as
      asked for, and a value larger than one page always makes at least two pages. */
  lemma SplitJoin(data: Bytes, firstPageSize: nat)
    requires firstPageSize < MAX_PAGE_BODY_SIZE ==> firstPageSize <= |data|
    ensures var pages := Split(data, firstPageSize);
            Concat(pages) == data && (forall p :: p in pages ==> |p| <= MAX_PAGE_BODY_SIZE)
            && (|data| > MAX_PAGE_BODY_SIZE ==> |pages| >= 2)
            && (forall i :: 0 <= i < |pages| - 1 ==>
                  |pages[i]| == if i == 0 && firstPageSize < MAX_PAGE_BODY_SIZE then firstPageSize else 0xC000)
            && (firstPageSize < MAX_PAGE_BODY_SIZE ==> |pages| >= 2 && |pages[0]| == firstPageSize)
  {
    if firstPageSize < MAX_PAGE_BODY_SIZE {
      var rest := Chunks(data[firstPageSize..]);
      ChunksJoin(data[firstPageSize..]);
      ChunkSizes(data[firstPageSize..]);
      assert ([data[..firstPageSize]] + rest)[1..] == rest;
    } else {
      ChunksJoin(data);
      ChunkSizes(data);
    }
  }

  lemma SplitCount(data: Bytes, firstPageSize: nat)
    requires firstPageSize < MAX_PAGE_BODY_SIZE ==> firstPageSize <= |data|
    ensures |Split(data, firstPageSize)| >= 1
    ensures |Split(data, firstPageSize)| >= 2 <==> firstPageSize < MAX_PAGE_BODY_SIZE || |data| > MAX_PAGE_BODY_SIZE
  {
    ChunksJoin(data);
    if firstPageSize < MAX_PAGE_BODY_SIZE {
      ChunksJoin(data[firstPageSize..]);
    }
  }

  // ---------------------------------------------------------------- groups

  /** `pages` continue the group that `first` opens: page 1, 2, ... with its rid and sequence id, at most up to its end. */
  ghost predicate Continues(first: Msg, pages: seq<Msg>)
  {
    && |pages| < -first.pageId
    && forall i :: 0 <= i < |pages| ==> pages[i].pageId == i + 1 && pages[i].rid == first.rid && pages[i].sequenceId == first.sequenceId
  }

  /** What a value turns into: one message, or a complete group. */
  ghost predicate CompleteGroup(msgs: seq<Msg>)
  {
    && msgs != []
    && (msgs[0].pageId == 0 ==> |msgs| == 1)
    && (msgs[0].pageId < 0 ==> Continues(msgs[0], msgs[1..]) && |msgs| == -msgs[0].pageId >= 2)
    && msgs[0].pageId <= 0
  }

  function Bodies(msgs: seq<Msg>): seq<Bytes>
  {
    if msgs == [] then [] else [msgs[0].body] + Bodies(msgs[1..])
  }

  /** What a message of a value has besides its pages' share: the size of its headers, and when it was created. */
  datatype Stamp = Stamp(overhead: Size, ts: int)

  function PageMessages(bodies: seq<Bytes>, from: nat, rid: Int32, sequenceId: Int32, stamp: nat -> Stamp): (r: seq<Msg>)
    ensures |r| == |bodies|
  {
    seq(|bodies|, i requires 0 <= i < |bodies| =>
      Msg(rid, sequenceId, from + i, |bodies[i]| + stamp(from + i).overhead, bodies[i], stamp(from + i).ts))
  }

  /** InvokeRequestMessage::set_value (InvokeResponseMessage::set_value pages the same way): the messages of one value. */
  function InvokePages(value: Bytes, rid: Int32, sequenceId: Int32, stamp: nat -> Stamp): (r: seq<Msg>)
    ensures r != []
  {
    if |value| > MAX_PAGE_BODY_SIZE then
      var pages := Split(value, MAX_PAGE_BODY_SIZE);
      ChunksJoin(value);
      [Msg(rid, sequenceId, -|pages|, |pages[0]| + stamp(0).overhead, pages[0], stamp(0).ts)] + PageMessages(pages[1..], 1, rid, sequenceId, stamp)
    else [Msg(rid, 0, 0, |value| + stamp(0).overhead, value, stamp(0).ts)]
  }

  /** The body of the first page as MessageValue::write lays it out: length-prefixed meta data, then value bytes. */
  function FirstBody(meta: Bytes, value: Bytes): Bytes
  {
    Put16(|meta|) + meta + value
  }

  /** The first page size MessageValue::write asks for, in size_t: it wraps when the meta block leaves no room. */
  function FirstPageSize(meta: Bytes): nat
  {
    (MAX_PAGE_BODY_SIZE - |meta| - 2) % 0x1_0000_0000_0000_0000
  }

  /** MessageValue::write: SubscribeResponseMessage and SetRequestMessage values. The sequence id is set on every page
      but the first. */
  function ValuePages(meta: Bytes, value: Bytes, rid: Int32, sequenceId: Int32, stamp: nat -> Stamp): (r: Result<seq<Msg>>)
    ensures r.Ok? ==> r.value != []
  {
    if |value| + |meta| + 2 > MAX_PAGE_BODY_SIZE then
      if |meta| > MAX_PAGE_BODY_SIZE then Err("value meta data is too big")
      else
        assert FirstPageSize(meta) < MAX_PAGE_BODY_SIZE ==> FirstPageSize(meta) == MAX_PAGE_BODY_SIZE - |meta| - 2;
        var pages := Split(value, FirstPageSize(meta));
        SplitJoin(value, FirstPageSize(meta));
        ChunksJoin(value);
        var first := FirstBody(meta, pages[0]);
        Ok([Msg(rid, 0, -|pages|, |first| + stamp(0).overhead, first, stamp(0).ts)] + PageMessages(pages[1..], 1, rid, sequenceId, stamp))
    else
      var first := FirstBody(meta, value);
      Ok([Msg(rid, 0, 0, |first| + stamp(0).overhead, first, stamp(0).ts)])
  }

  /** MessageValue::parse up to the decoding of the two byte strings. */
  function ParseValue(bodies: seq<Bytes>): Result<(Bytes, Bytes)>
    requires bodies != []
  {
    var data := bodies[0];
    if |data| < 2 then Err("too short")
    else
      var metaSize: nat := Get16(data);
      if 2 + metaSize > |data| then Err("too short")
      else Ok((data[2..2 + metaSize], data[2 + metaSize..] + Concat(bodies[1..])))
  }

  lemma {:induction false} BodiesOf(bodies: seq<Bytes>, from: nat, rid: Int32, sequenceId: Int32, stamp: nat -> Stamp)
    ensures Bodies(PageMessages(bodies, from, rid, sequenceId, stamp)) == bodies
  {
    if bodies != [] {
      BodiesOf(bodies[1..], from + 1, rid, sequenceId, stamp);
      assert PageMessages(bodies, from, rid, sequenceId, stamp)[1..]
          == PageMessages(bodies[1..], from + 1, rid, sequenceId, stamp);
    }
  }

  lemma ConsBodies(first: Msg, rest: seq<Msg>)
    ensures Bodies([first] + rest) == [first.body] + Bodies(rest)
  {
  }

  /** set_value makes a complete group that carries exactly the value; only a paged one has the sequence id. */
  lemma InvokePagesComplete(value: Bytes, rid: Int32, sequenceId: Int32, stamp: nat -> Stamp)
    ensures var msgs := InvokePages(value, rid, sequenceId, stamp);
            CompleteGroup(msgs) && Concat(Bodies(msgs)) == value
            && (forall m :: m in msgs ==> |m.body| <= MAX_PAGE_BODY_SIZE && m.rid == rid)
            && (|msgs| >= 2 <==> |value| > 0xC000)
            && (forall m :: m in msgs ==> m.sequenceId == if |value| > 0xC000 then sequenceId else 0)
  {
    var msgs := InvokePages(value, rid, sequenceId, stamp);
    if |value| > MAX_PAGE_BODY_SIZE {
      var pages := Split(value, MAX_PAGE_BODY_SIZE);
      SplitJoin(value, MAX_PAGE_BODY_SIZE);
      BodiesOf(pages[1..], 1, rid, sequenceId, stamp);
      ConsBodies(msgs[0], PageMessages(pages[1..], 1, rid, sequenceId, stamp));
      assert msgs[1..] == PageMessages(pages[1..], 1, rid, sequenceId, stamp);
      assert Bodies(msgs) == pages;
    } else {
      assert Bodies(msgs) == [value];
      assert Concat([value]) == value + Concat([]);
    }
  }

  /** Each message is as large as its body and its headers, and has its own time of creation. */
  ghost predicate Stamped(msgs: seq<Msg>, stamp: nat -> Stamp)
  {
    forall i :: 0 <= i < |msgs| ==> msgs[i].size == |msgs[i].body| + stamp(i).overhead && msgs[i].createdTs == stamp(i).ts
  }

  lemma PagesStamped(meta: Bytes, value: Bytes, rid: Int32, sequenceId: Int32, stamp: nat -> Stamp)
    ensures Stamped(InvokePages(value, rid, sequenceId, stamp), stamp)
    ensures var r := ValuePages(meta, value, rid, sequenceId, stamp); r.Ok? ==> Stamped(r.value, stamp)
  {
    hide Chunks, FirstBody, Concat, PageMessages, Stamped;
    var pages := Split(value, MAX_PAGE_BODY_SIZE);
    if |value| > MAX_PAGE_BODY_SIZE {
      ChunksJoin(value);
      FirstStamped(InvokePages(value, rid, sequenceId, stamp)[0], pages[1..], rid, sequenceId, stamp);
    } else {
      OneStamped(InvokePages(value, rid, sequenceId, stamp)[0], stamp);
    }
    var r := ValuePages(meta, value, rid, sequenceId, stamp);
    if r.Ok? {
      if |value| + |meta| + 2 > MAX_PAGE_BODY_SIZE {
        var cut := Split(value, FirstPageSize(meta));
        SplitJoin(value, FirstPageSize(meta));
        ChunksJoin(value);
        FirstStamped(r.value[0], cut[1..], rid, sequenceId, stamp);
      } else {
        OneStamped(r.value[0], stamp);
      }
    }
  }

  lemma OneStamped(m: Msg, stamp: nat -> Stamp)
    requires m.size == |m.body| + stamp(0).overhead && m.createdTs == stamp(0).ts
    ensures Stamped([m], stamp)
  {
  }

  lemma FirstStamped(m: Msg, bodies: seq<Bytes>, rid: Int32, sequenceId: Int32, stamp: nat -> Stamp)
    requires m.size == |m.body| + stamp(0).overhead && m.createdTs == stamp(0).ts
    ensures Stamped([m] + PageMessages(bodies, 1, rid, sequenceId, stamp), stamp)
  {
  }

  /** MessageValue::write then MessageValue::parse gives back meta and value. */
  lemma ValuePagesRoundTrip(meta: Bytes, value: Bytes, rid: Int32, sequenceId: Int32, stamp: nat -> Stamp)
    ensures var r := ValuePages(meta, value, rid, sequenceId, stamp);
            (r.Ok? <==> |meta| <= MAX_PAGE_BODY_SIZE)
            && (r.Ok? ==> ParseValue([r.value[0].body] + Bodies(r.value[1..])) == Ok((meta, value)))
  {
    if |meta| > MAX_PAGE_BODY_SIZE {
    } else if |value| + |meta| + 2 > MAX_PAGE_BODY_SIZE {
      var pages := Split(value, FirstPageSize(meta));
      SplitJoin(value, FirstPageSize(meta));
      ChunksJoin(value);
      var rest := PageMessages(pages[1..], 1, rid, sequenceId, stamp);
      BodiesOf(pages[1..], 1, rid, sequenceId, stamp);
      assert ValuePages(meta, value, rid, sequenceId, stamp).value[1..] == rest;
      FirstBodyParses(meta, pages[0], pages[1..]);
      assert pages[0] + Concat(pages[1..]) == Concat(pages);
    } else {
      FirstBodyParses(meta, value, []);
      assert value + Concat([]) == value;
    }
  }

  /** Parsing succeeds exactly when the first page begins with a whole block of meta data, and only with the meta data and
      the value that were laid out like this. */
  lemma ParseExact(bodies: seq<Bytes>)
    requires bodies != []
    ensures ParseValue(bodies).Ok? <==> exists meta: Bytes, rest: Bytes :: |meta| < 0x1_0000 && bodies[0] == FirstBody(meta, rest)
    ensures ParseValue(bodies).Ok? ==>
              var (meta, value) := ParseValue(bodies).value;
              |meta| < 0x1_0000 && FirstBody(meta, value) == bodies[0] + Concat(bodies[1..])
  {
    hide Concat, FirstBody;
    if ParseValue(bodies).Ok? {
      var n: nat := Get16(bodies[0]);
      FirstBodyIs(bodies[0], n);
      FirstBodyMore(bodies[0][2..2 + n], bodies[0][2 + n..], Concat(bodies[1..]));
    }
    if meta: Bytes, rest: Bytes :| |meta| < 0x1_0000 && bodies[0] == FirstBody(meta, rest) {
      FirstBodyParses(meta, rest, bodies[1..]);
      assert [bodies[0]] + bodies[1..] == bodies;
    }
  }

  lemma FirstBodyIs(data: Bytes, n: nat)
    requires |data| >= 2 + n && Get16(data) == n
    ensures n < 0x1_0000 && data == FirstBody(data[2..2 + n], data[2 + n..])
  {
    assert Put16(n) == data[..2];
  }

  lemma FirstBodyMore(meta: Bytes, rest: Bytes, more: Bytes)
    requires |meta| < 0x1_0000
    ensures FirstBody(meta, rest + more) == FirstBody(meta, rest) + more
  {
  }

  lemma FirstBodyParses(meta: Bytes, value: Bytes, rest: seq<Bytes>)
    requires |meta| < 0x1_0000
    ensures ParseValue([FirstBody(meta, value)] + rest) == Ok((meta, value + Concat(rest)))
  {
  }

  /** The pages MessageValue::write produces, as a SUBSCRIBE response carries them, form one group exactly when the value fits
      one message, or the sequence id passed to it is 0 (the first page never receives the sequence id) and more than one
      page comes out. */
  lemma ValuePagesComplete(meta: Bytes, value: Bytes, rid: Int32, sequenceId: Int32, stamp: nat -> Stamp)
    requires |meta| <= MAX_PAGE_BODY_SIZE
    ensures CompleteGroup(ValuePages(meta, value, rid, sequenceId, stamp).value)
            <==> (|value| + |meta| + 2 <= MAX_PAGE_BODY_SIZE
                  || (sequenceId == 0 && (|meta| + 2 <= MAX_PAGE_BODY_SIZE || |value| > MAX_PAGE_BODY_SIZE)))
  {
    hide CompleteGroup, Chunks, Concat, PageMessages, FirstBody, Split;
    var msgs := ValuePages(meta, value, rid, sequenceId, stamp).value;
    if |value| + |meta| + 2 > MAX_PAGE_BODY_SIZE {
      var pages := Split(value, FirstPageSize(meta));
      SplitCount(value, FirstPageSize(meta));
      PagedGroup(msgs[0], pages[1..], sequenceId, stamp);
    } else {
      SingleGroup(msgs[0]);
    }
  }

  /** A page of a SET request as it arrives: the message type writes no sequence id. */
  function Unnumbered(m: Msg): Msg
  {
    m.(sequenceId := 0)
  }

  function AllUnnumbered(msgs: seq<Msg>): (u: seq<Msg>)
    ensures |u| == |msgs| && forall i :: 0 <= i < |u| ==> u[i] == Unnumbered(msgs[i])
  {
    if msgs == [] then [] else [Unnumbered(msgs[0])] + AllUnnumbered(msgs[1..])
  }

  /** So the pages of a SET request arrive as one group whatever the sequence id, but for the one case in which the meta data
      leaves no room in the first page and the value fills no second one. */
  lemma SetPagesComplete(meta: Bytes, value: Bytes, rid: Int32, sequenceId: Int32, stamp: nat -> Stamp)
    requires |meta| <= MAX_PAGE_BODY_SIZE
    ensures CompleteGroup(AllUnnumbered(ValuePages(meta, value, rid, sequenceId, stamp).value))
            <==> |meta| + 2 <= MAX_PAGE_BODY_SIZE || |value| > MAX_PAGE_BODY_SIZE
  {
    hide CompleteGroup, Chunks, Concat, FirstBody;
    ValuePagesComplete(meta, value, rid, 0, stamp);
    assert AllUnnumbered(ValuePages(meta, value, rid, sequenceId, stamp).value) == ValuePages(meta, value, rid, 0, stamp).value;
  }

  lemma SingleGroup(m: Msg)
    requires m.pageId == 0
    ensures CompleteGroup([m])
  {
  }

  /** A first page without a sequence id, and the pages behind it with one. */
  lemma PagedGroup(first: Msg, bodies: seq<Bytes>, sequenceId: Int32, stamp: nat -> Stamp)
    requires first.pageId == -(|bodies| + 1) && first.sequenceId == 0
    ensures CompleteGroup([first] + PageMessages(bodies, 1, first.rid, sequenceId, stamp))
            <==> |bodies| >= 1 && sequenceId == 0
  {
    var rest := PageMessages(bodies, 1, first.rid, sequenceId, stamp);
    assert ([first] + rest)[1..] == rest;
    if bodies != [] {
      assert rest[0].sequenceId == sequenceId;
    }
  }
}
