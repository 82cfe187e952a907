/** Message objects linked into page chains, and the three objects that walk the chains: OutgoingPages,
    IncomingPagesMerger and IncomingPageCache. src/sdk/message/message_page_group.cc and message_page_group.h. */
module PageObjects {
  import opened Bytes
  import opened Sequences
  import opened Pages
  import Q = Queue
  import QP = QueueProofs
  import R = Receiver

  /** A message; chains of pages run through _next_page and are shared by every stream the pages go to. */
  class Message {
    const msg: Msg
    var nextPage: Message?

    constructor (msg: Msg)
      ensures this.msg == msg && nextPage == null
    {
      this.msg := msg;
      nextPage := null;
    }
  }

  function Vals(chain: seq<Message>): (v: seq<Msg>)
    ensures |v| == |chain| && forall i :: 0 <= i < |v| ==> v[i] == chain[i].msg
  {
    if chain == [] then [] else [chain[0].msg] + Vals(chain[1..])
  }

  lemma ValsAppend(a: seq<Message>, b: seq<Message>)
    ensures Vals(a + b) == Vals(a) + Vals(b)
  {
  }

  lemma ValsSnoc(a: seq<Message>, m: Message)
    ensures Vals(a + [m]) == Vals(a) + [m.msg]
  {
  }

  lemma SizeStep(chain: seq<Message>, i: nat)
    requires i < |chain|
    ensures Q.TotalSize(Vals(chain[..i + 1])) == Q.TotalSize(Vals(chain[..i])) + chain[i].msg.size
  {
    assert chain[..i + 1] == chain[..i] + [chain[i]];
    ValsSnoc(chain[..i], chain[i]);
    QP.TotalSizeAppend(Vals(chain[..i]), [chain[i].msg]);
    QP.TotalSizeOne(chain[i].msg);
  }

  lemma ChainHead(chain: seq<Message>)
    requires chain != []
    ensures Vals(chain) == [chain[0].msg] + Vals(chain[1..]) && Q.TotalSize(Vals(chain[..1])) == chain[0].msg.size
  {
  }

  /** The objects of `chain` follow each other through nextPage, and the chain ends there. */
  ghost predicate Linked(chain: seq<Message>)
    reads chain
  {
    forall i :: 0 <= i < |chain| ==> chain[i].nextPage == Successor(chain, i)
  }

  function Successor(chain: seq<Message>, i: nat): Message?
  {
    if i + 1 < |chain| then chain[i + 1] else null
  }

  predicate Outside(m: Message, chain: seq<Message>)
  {
    forall i :: 0 <= i < |chain| ==> chain[i] != m
  }

  /** A chain of distinct objects. */
  ghost predicate Chain(chain: seq<Message>)
    reads chain
  {
    Linked(chain) && forall i, j :: 0 <= i < j < |chain| ==> chain[i] != chain[j]
  }

  /** A message linked behind the end of a chain. */
  lemma ChainGrows(chain: seq<Message>, m: Message)
    requires chain != [] && Outside(m, chain) && m.nextPage == null
    requires forall i, j :: 0 <= i < j < |chain| ==> chain[i] != chain[j]
    requires forall i :: 0 <= i < |chain| - 1 ==> chain[i].nextPage == chain[i + 1]
    requires chain[|chain| - 1].nextPage == m
    ensures Chain(chain + [m])
  {
  }

  class OutgoingPages {
    const rid: Int32
    const sequenceId: Int32
    var totalPage: int
    var waitingPage: int
    var remainSize: int
    var createdTs: int
    var nextSend: Message?
    /** The chain that starts at nextSend. */
    ghost var unsent: seq<Message>

    ghost predicate Valid()
      reads this
    {
      && nextSend == (if unsent == [] then null else unsent[0])
      && remainSize == Q.TotalSize(Vals(unsent))
    }

    ghost function Abs(): Q.Group
      reads this
    {
      Q.Group(rid, sequenceId, totalPage, waitingPage, Vals(unsent), createdTs)
    }

    /** `chain` are the pages linked behind `first` when it arrives. */
    constructor (first: Message, ghost chain: seq<Message>, now: int)
      requires chain != [] && chain[0] == first && Linked(chain)
      ensures Valid() && unsent == chain && Abs() == Q.NewGroup(first.msg, Vals(chain[1..]), now)
      ensures createdTs == now && waitingPage == |chain| && totalPage == -first.msg.pageId
    {
      hide Q.TotalSize, Vals;
      rid, sequenceId, totalPage, createdTs := first.msg.rid, first.msg.sequenceId, -first.msg.pageId, now;
      nextSend := first;
      unsent := chain;
      var waiting, remain := 1, first.msg.size;
      ChainHead(chain);
      var p := first.nextPage;
      ghost var i := 1;
      assert chain[0].nextPage == Successor(chain, 0);
      while p != null
        invariant Linked(chain)
        invariant 1 <= i <= |chain| && waiting == i && p == (if i < |chain| then chain[i] else null)
        invariant remain == Q.TotalSize(Vals(chain[..i]))
        decreases |chain| - i
      {
        SizeStep(chain, i);
        assert chain[i].nextPage == Successor(chain, i);
        waiting := waiting + 1;
        remain := remain + p.msg.size;
        p := p.nextPage;
        i := i + 1;
      }
      assert chain[..i] == chain;
      waitingPage, remainSize := waiting, remain;
    }

    function NextSize(): int
      reads this
    {
      if nextSend != null then nextSend.msg.size else 0
    }

    predicate IsReady()
      reads this
    {
      waitingPage >= totalPage
    }

    /** check_add. The merger has linked the message behind the chain before it is offered here. */
    method CheckAdd(m: Message) returns (ok: bool)
      requires Valid()
      modifies this
      ensures Valid() && ok == old(Q.CanAdd(Abs(), m.msg))
      ensures ok ==> Abs() == Q.Add(old(Abs()), m.msg) && unsent == old(unsent) + [m]
      ensures ok ==> createdTs == if old(unsent) == [] then m.msg.createdTs else old(createdTs)
      ensures !ok ==> Abs() == old(Abs()) && unsent == old(unsent)
    {
      if m.msg.rid != rid || m.msg.sequenceId != sequenceId || m.msg.pageId != waitingPage {
        return false;
      }
      ValsAppend(unsent, [m]);
      QP.TotalSizeAppend(Vals(unsent), Vals([m]));
      remainSize := remainSize + m.msg.size;
      waitingPage := waitingPage + 1;
      if nextSend == null {
        nextSend := m;
        createdTs := m.msg.createdTs;
      }
      unsent := unsent + [m];
      ok := true;
    }

    /** remove_next_send: the next page is found through the link of the page that leaves. */
    method RemoveNextSend() returns (m: Message)
      requires Valid() && unsent != [] && Linked(unsent)
      modifies this
      ensures Valid() && m == old(unsent[0]) && unsent == old(unsent[1..])
      ensures Abs() == Q.RemoveNext(old(Abs()))
      ensures createdTs == if unsent == [] then old(createdTs) else unsent[0].msg.createdTs
    {
      m := nextSend;
      assert unsent == [m] + unsent[1..];
      ValsAppend([m], unsent[1..]);
      assert Vals(unsent)[1..] == Vals(unsent[1..]);
      assert unsent[0].nextPage == Successor(unsent, 0);
      nextSend := m.nextPage;
      unsent := unsent[1..];
      if nextSend != null {
        createdTs := nextSend.msg.createdTs;
      }
      if remainSize != 0 {
        remainSize := remainSize - m.msg.size;
      }
    }

    method Drop()
      modifies this
      ensures Valid() && unsent == []
    {
      nextSend, totalPage, waitingPage, remainSize := null, 0, 0, 0;
      unsent := [];
    }
  }

  class IncomingPagesMerger {
    const rid: Int32
    const sequenceId: Int32
    const totalPage: int
    var waitingPage: int
    var current: Message

    function Abs(): R.Merger
      reads this
    {
      R.Merger(rid, sequenceId, totalPage, waitingPage)
    }

    constructor (m: Message)
      ensures Abs() == R.Merger(m.msg.rid, m.msg.sequenceId, -m.msg.pageId, 1) && current == m
    {
      rid, sequenceId, totalPage, waitingPage, current := m.msg.rid, m.msg.sequenceId, -m.msg.pageId, 1, m;
    }

    /** check_merge: true when the merger is finished or the message does not belong to the group. */
    method CheckMerge(m: Message) returns (finished: bool)
      modifies this, current`nextPage
      ensures var before := old(Abs());
              if R.Merges(before, m.msg) then
                Abs() == before.(waitingPage := before.waitingPage + 1) && finished == (waitingPage >= totalPage)
                && old(current).nextPage == m && current == m
              else Abs() == before && finished && old(current).nextPage == old(current.nextPage) && current == old(current)
    {
      if m.msg.rid != rid || m.msg.sequenceId != sequenceId || m.msg.pageId != waitingPage {
        return true;
      }
      current.nextPage := m;
      waitingPage := waitingPage + 1;
      current := m;
      finished := waitingPage >= totalPage;
    }
  }

  class IncomingPageCache {
    const rid: Int32
    const sequenceId: Int32
    const lastPage: int
    const first: Message

    constructor (m: Message)
      ensures rid == m.msg.rid && sequenceId == m.msg.sequenceId && lastPage == -m.msg.pageId - 1 && first == m
    {
      rid, sequenceId, lastPage, first := m.msg.rid, m.msg.sequenceId, -m.msg.pageId - 1, m;
    }
  }

  /** The receiving end of a stream: the merger that links pages and the cache that holds back the first page. */
  class PageReceiver {
    var merger: IncomingPagesMerger?
    var cache: IncomingPageCache?
    /** The chain behind the cached first page, and whether the merger extends it. */
    ghost var pages: seq<Message>
    ghost var live: bool

    ghost predicate Valid()
      reads this, merger, pages
    {
      && (cache != null ==> pages != [] && pages[0] == cache.first && cache.first.msg.pageId < 0)
      && Chain(pages)
      && (cache == null ==> pages == [])
      && (merger != null ==> merger.waitingPage >= 1)
      && (live ==> cache != null && merger != null && merger.current == pages[|pages| - 1])
      && (!live && merger != null ==> Outside(merger.current, pages))
    }

    ghost function Abs(): R.Receiver
      reads this, merger
    {
      R.Receiver(if merger == null then None else Some(merger.Abs()),
                 if cache == null then None
                 else Some(R.Cache(cache.rid, cache.sequenceId, cache.lastPage, Vals(pages))),
                 live)
    }

    constructor ()
      ensures Valid() && Abs() == R.IDLE
    {
      merger, cache, pages, live := null, null, [], false;
    }

    /** The static check_merge on an arriving message. */
    method Merge(m: Message)
      requires Valid() && Outside(m, pages) && m.nextPage == null && (merger != null ==> merger.current != m)
      modifies this, merger, if merger == null then {} else {merger.current}
      ensures Valid() && Abs() == R.Merge(old(Abs()), m.msg)
      ensures m.nextPage == null && cache == old(cache)
      ensures m.msg.pageId <= 0 ==> Outside(m, pages) && (m.msg.pageId == 0 || (merger != null && merger.current == m))
      ensures merger == old(merger) || merger == null || fresh(merger)
    {
      hide Chain, Vals;
      if m.msg.pageId < 0 {
        merger := new IncomingPagesMerger(m);
        live := false;
      } else if merger != null {
        ghost var merges := R.Merges(merger.Abs(), m.msg);
        var finished := LinkPage(m, merges);
        if live && merges {
          ValsSnoc(old(pages), m);
        }
        if finished {
          merger := null;
          live := false;
        }
      }
    }

    /** get_first_page on an arriving message, after the merger has seen it: the chain of the message it returns. */
    method FirstPage(m: Message) returns (first: Message?, ghost chain: seq<Message>)
      requires Valid() && m.nextPage == null && (m.msg.pageId < 0 ==> merger != null && merger.current == m)
      modifies this
      ensures Valid() && Abs() == R.FirstPage(old(Abs()), m.msg).0
      ensures var out := R.FirstPage(old(Abs()), m.msg).1;
              (first == null <==> out == None)
              && (first != null ==> chain != [] && chain[0] == first && Chain(chain) && out == Some(Vals(chain))
                                    && (|chain| > 1 ==> first.msg.pageId < 0))
    {
      hide Vals;
      first, chain := null, [];
      OnePage(m);
      if cache != null {
        if cache.rid == m.msg.rid && cache.sequenceId == m.msg.sequenceId {
          if m.msg.pageId >= cache.lastPage {
            first, chain := cache.first, pages;
            cache, pages, live := null, [], false;
          }
          return;
        }
        cache, pages, live := null, [], false;
      }
      if m.msg.pageId < 0 {
        cache := new IncomingPageCache(m);
        pages, live := [m], true;
      } else if m.msg.pageId == 0 {
        first, chain := m, [m];
        live := false;
      } else {
        live := false;
      }
    }

    /** One arriving message: check_merge, get_first_page and, when a first page is released, get_value. */
    method Receive(m: Message) returns (value: Option<Bytes>)
      requires Valid() && Outside(m, pages) && m.nextPage == null && (merger != null ==> merger.current != m)
      modifies this, merger, if merger == null then {} else {merger.current}
      ensures Valid() && Abs() == R.Receive(old(Abs()), m.msg).0
      ensures value == match R.Receive(old(Abs()), m.msg).1
                       case None => None
                       case Some(msgs) => Some(Concat(Bodies(msgs)))
    {
      Merge(m);
      var first, chain := FirstPage(m);
      if first == null {
        value := None;
      } else {
        var v := GetValue(first, chain);
        value := Some(v);
      }
    }

    /** check_merge on the live merger, and what it does to the chain behind the cached first page. */
    method LinkPage(m: Message, ghost merges: bool) returns (finished: bool)
      requires Valid() && Outside(m, pages) && m.nextPage == null && merger != null && merger.current != m
      requires merges == R.Merges(merger.Abs(), m.msg)
      modifies this, merger, merger.current
      ensures Valid()
      ensures m.nextPage == null && cache == old(cache) && merger == old(merger) && live == old(live)
      ensures live && merges ==> pages == old(pages) + [m]
      ensures !(live && merges) ==> pages == old(pages)
      ensures merges ==> merger.waitingPage == old(merger.waitingPage) + 1
      ensures !merges ==> merger.waitingPage == old(merger.waitingPage)
      ensures finished == (!merges || merger.waitingPage >= merger.totalPage)
    {
      finished := LinkMerged(merger, m, pages, live && merges);
      if live && merges {
        pages := pages + [m];
      }
    }
  }

  /** check_merge beside a chain that either ends at the merger's current page or is not touched by it. */
  method LinkMerged(merger: IncomingPagesMerger, m: Message, ghost chain: seq<Message>, ghost grows: bool) returns (finished: bool)
    requires Chain(chain) && Outside(m, chain) && m.nextPage == null && merger.current != m
    requires grows ==> chain != [] && merger.current == chain[|chain| - 1] && R.Merges(merger.Abs(), m.msg)
    requires !grows && R.Merges(merger.Abs(), m.msg) ==> Outside(merger.current, chain)
    modifies merger, merger.current
    ensures m.nextPage == null && Chain(if grows then chain + [m] else chain)
    ensures var merges := old(R.Merges(merger.Abs(), m.msg));
            merger.current == (if merges then m else old(merger.current))
            && merger.waitingPage == old(merger.waitingPage) + (if merges then 1 else 0)
            && finished == (!merges || merger.waitingPage >= merger.totalPage)
  {
    ghost var n := |chain|;
    assert forall i :: 0 <= i < n ==> chain[i].nextPage == Successor(chain, i);
    finished := merger.CheckMerge(m);
    if grows {
      assert forall i :: 0 <= i < n - 1 ==> chain[i].nextPage == old(chain[i].nextPage);
      ChainGrows(chain, m);
    } else {
      assert forall i :: 0 <= i < n ==> chain[i].nextPage == old(chain[i].nextPage);
      assert forall i :: 0 <= i < n ==> chain[i].nextPage == Successor(chain, i);
    }
  }

  /** InvokeRequestMessage::get_value up to the decoding of the bytes: a first page is joined with the pages linked
      behind it, any other message gives its own body. */
  method GetValue(first: Message, ghost chain: seq<Message>) returns (value: Bytes)
    requires chain != [] && chain[0] == first && Linked(chain) && (|chain| > 1 ==> first.msg.pageId < 0)
    ensures value == Concat(Bodies(Vals(chain)))
  {
    var bodies: seq<Bytes> := [first.msg.body];
    ghost var i := 1;
    if first.nextPage != null && first.msg.pageId < 0 {
      var p := first.nextPage;
      while p != null
        invariant 1 <= i <= |chain| && p == Successor(chain, i - 1)
        invariant bodies == Bodies(Vals(chain[..i]))
        decreases |chain| - i
      {
        ValsSnoc(chain[..i], p);
        assert chain[..i + 1] == chain[..i] + [p];
        BodiesSnoc(Vals(chain[..i]), p.msg);
        bodies := bodies + [p.msg.body];
        assert chain[i].nextPage == Successor(chain, i);
        p := p.nextPage;
        i := i + 1;
      }
    } else {
      assert chain[0].nextPage == Successor(chain, 0);
    }
    assert chain[..i] == chain;
    value := JoinPages(bodies, []);
  }

  /** The loop that set_value and MessageValue::write share: a message for every further page, linked behind the last. */
  method LinkPages(first: Message, bodies: seq<Bytes>, sequenceId: Int32, stamp: nat -> Stamp) returns (ghost chain: seq<Message>)
    requires first.nextPage == null
    modifies first`nextPage
    ensures Chain(chain) && chain != [] && chain[0] == first
    ensures Vals(chain) == [first.msg] + PageMessages(bodies, 1, first.msg.rid, sequenceId, stamp)
  {
    hide *;
    var current, i := first, 0;
    chain := [first];
    OnePage(first);
    ghost var rest := PageMessages(bodies, 1, first.msg.rid, sequenceId, stamp);
    while i < |bodies|
      invariant 0 <= i <= |bodies| && Chain(chain) && chain != [] && chain[0] == first && current == chain[|chain| - 1]
      invariant current == first || fresh(current)
      invariant Vals(chain) == [first.msg] + rest[..i]
    {
      var page := Msg(first.msg.rid, sequenceId, 1 + i, |bodies[i]| + stamp(1 + i).overhead, bodies[i], stamp(1 + i).ts);
      PageAt(bodies, i, first.msg.rid, sequenceId, stamp);
      current := AddPage(chain, current, page);
      chain := chain + [current];
      assert rest[..i + 1] == rest[..i] + [page];
      i := i + 1;
    }
    assert rest[..i] == rest;
  }

  lemma PageAt(bodies: seq<Bytes>, i: nat, rid: Int32, sequenceId: Int32, stamp: nat -> Stamp)
    requires i < |bodies|
    ensures PageMessages(bodies, 1, rid, sequenceId, stamp)[i] == Msg(rid, sequenceId, 1 + i, |bodies[i]| + stamp(1 + i).overhead, bodies[i], stamp(1 + i).ts)
  {
  }

  /** One more page behind the last one. */
  method AddPage(ghost chain: seq<Message>, last: Message, page: Msg) returns (next: Message)
    requires Chain(chain) && chain != [] && last == chain[|chain| - 1]
    modifies last`nextPage
    ensures fresh(next) && Chain(chain + [next]) && Vals(chain + [next]) == Vals(chain) + [page]
  {
    hide Vals;
    next := new Message(page);
    last.nextPage := next;
    ChainGrows(chain, next);
    ValsSnoc(chain, next);
  }

  /** InvokeRequestMessage::set_value on a new message: the pages of the value, linked. */
  method SetValue(value: Bytes, rid: Int32, sequenceId: Int32, stamp: nat -> Stamp) returns (first: Message, ghost chain: seq<Message>)
    ensures Chain(chain) && chain != [] && chain[0] == first
    ensures Vals(chain) == InvokePages(value, rid, sequenceId, stamp)
    ensures first.msg == InvokePages(value, rid, sequenceId, stamp)[0]
  {
    hide Vals, Chain, Concat, Chunks;
    if |value| > MAX_PAGE_BODY_SIZE {
      var pages := SplitPages(value, MAX_PAGE_BODY_SIZE);
      ChunksJoin(value);
      first := new Message(Msg(rid, sequenceId, -|pages|, |pages[0]| + stamp(0).overhead, pages[0], stamp(0).ts));
      chain := LinkPages(first, pages[1..], sequenceId, stamp);
    } else {
      first := new Message(Msg(rid, 0, 0, |value| + stamp(0).overhead, value, stamp(0).ts));
      chain := [first];
      OnePage(first);
    }
  }

  lemma OnePage(m: Message)
    requires m.nextPage == null
    ensures Chain([m]) && Vals([m]) == [m.msg]
  {
  }

  /** What set_value paged, get_value reads back. */
  method SetThenGet(value: Bytes, rid: Int32, sequenceId: Int32, stamp: nat -> Stamp) returns (result: Bytes)
    ensures result == value
  {
    var first, chain := SetValue(value, rid, sequenceId, stamp);
    InvokePagesComplete(value, rid, sequenceId, stamp);
    assert first.msg == Vals(chain)[0];
    result := GetValue(first, chain);
  }

  /** MessageValue::write on a new message. The sequence id goes to every page but the first. */
  method WriteValue(meta: Bytes, value: Bytes, rid: Int32, sequenceId: Int32, stamp: nat -> Stamp)
    returns (r: Result<Message>, ghost chain: seq<Message>)
    ensures var pages := ValuePages(meta, value, rid, sequenceId, stamp);
            (r.Ok? <==> pages.Ok?) && (r.Ok? ==> r.value.msg == pages.value[0])
    ensures var pages := ValuePages(meta, value, rid, sequenceId, stamp);
            (r.Ok? && pages.Ok? ==> Chain(chain) && chain != [] && chain[0] == r.value && Vals(chain) == pages.value)
  {
    hide Vals, Chain, Concat, Chunks, FirstBody;
    chain := [];
    if |value| + |meta| + 2 > MAX_PAGE_BODY_SIZE {
      if |meta| > MAX_PAGE_BODY_SIZE {
        return Err("value meta data is too big"), [];
      }
      assert FirstPageSize(meta) < MAX_PAGE_BODY_SIZE ==> FirstPageSize(meta) == MAX_PAGE_BODY_SIZE - |meta| - 2;
      var pages := SplitPages(value, FirstPageSize(meta));
      SplitJoin(value, FirstPageSize(meta));
      ChunksJoin(value);
      var body := FirstBody(meta, pages[0]);
      var first := new Message(Msg(rid, 0, -|pages|, |body| + stamp(0).overhead, body, stamp(0).ts));
      chain := LinkPages(first, pages[1..], sequenceId, stamp);
      r := Ok(first);
    } else {
      var body := FirstBody(meta, value);
      var first := new Message(Msg(rid, 0, 0, |body| + stamp(0).overhead, body, stamp(0).ts));
      chain := [first];
      OnePage(first);
      r := Ok(first);
    }
  }

  /** MessageValue::parse up to the decoding of the two byte strings: the meta data, and what follows it on the first page
      with the bodies of the pages linked behind. */
  method ParseMessage(first: Message, ghost chain: seq<Message>) returns (r: Result<(Bytes, Bytes)>)
    requires chain != [] && chain[0] == first && Linked(chain)
    ensures r == ParseValue(Bodies(Vals(chain)))
  {
    hide Linked, Vals;
    var data := first.msg.body;
    ChainStart(chain);
    if |data| < 2 {
      return Err("too short");
    }
    var metaSize: nat := Get16(data);
    data := data[2..];
    if metaSize > |data| {
      return Err("too short");
    }
    var meta := data[..metaSize];
    data := data[metaSize..];
    assert meta == first.msg.body[2..2 + metaSize] && data == first.msg.body[2 + metaSize..];
    var pages := CollectPages(first, chain);
    assert Bodies(Vals(chain))[1..] == pages;
    var value := JoinPages(pages, data);
    r := Ok((meta, value));
  }

  lemma ChainStart(chain: seq<Message>)
    requires chain != []
    ensures Bodies(Vals(chain)) == [chain[0].msg.body] + Bodies(Vals(chain[1..]))
  {
  }

  /** The bodies of the pages linked behind the first one. */
  method CollectPages(first: Message, ghost chain: seq<Message>) returns (pages: seq<Bytes>)
    requires chain != [] && chain[0] == first && Linked(chain)
    ensures pages == Bodies(Vals(chain[1..]))
  {
    hide Vals;
    pages := [];
    var current := first.nextPage;
    ghost var i, rest := 0, chain[1..];
    assert chain[0].nextPage == Successor(chain, 0);
    NoPages();
    while current != null
      invariant 0 <= i <= |rest| && current == Successor(chain, i)
      invariant pages == Bodies(Vals(rest[..i]))
      decreases |rest| - i
    {
      assert current == chain[i + 1] == rest[i];
      ValsSnoc(rest[..i], current);
      assert rest[..i + 1] == rest[..i] + [current];
      BodiesSnoc(Vals(rest[..i]), current.msg);
      pages := pages + [current.msg.body];
      assert chain[i + 1].nextPage == Successor(chain, i + 1);
      current := current.nextPage;
      i := i + 1;
    }
    assert rest[..i] == rest;
  }

  lemma NoPages()
    ensures Vals([]) == []
  {
  }

  lemma {:induction false} BodiesSnoc(a: seq<Msg>, m: Msg)
    ensures Bodies(a + [m]) == Bodies(a) + [m.body]
  {
    if a == [] {
      assert a + [m] == [m];
    } else {
      BodiesSnoc(a[1..], m);
      assert (a + [m])[1..] == a[1..] + [m];
    }
  }
}
