/** The write scheduler of a session: _write_streams, the _writing flags, _is_writing and write_loop.
    src/sdk/core/session.cc, src/sdk/requester/requester.cc, src/sdk/responder/responder.cc. */
module Sessions {
  import opened Bytes
  import opened Sequences
  import opened Pages
  import opened Streams
  import opened Framing
  import opened Acks
  import opened Histories
  import Q = Queue
  import QR = QueueRun

  class MessageStream {
    const rid: Int32
    /** IncomingSubscribeStream or IncomingListStream: outlives a lost connection and asks again on the next one. */
    const survives: bool
    /** OutgoingSubscribeStream. */
    const isSubscription: bool
    /** check_close_message, and the AckCallback that get_next_message sets. */
    const closes: Msg -> bool
    const ackCallback: Msg -> Option<nat>
    /** What a surviving stream sends to ask for its subscription or list. */
    const request: Msg
    var writing: bool
    var content: Content
    /** What happened to it so far. */
    ghost var past: Past

    constructor (rid: Int32, survives: bool, isSubscription: bool, closes: Msg -> bool, ackCallback: Msg -> Option<nat>,
                 request: Msg, content: Content)
      ensures this.rid == rid && this.survives == survives && this.isSubscription == isSubscription
      ensures !writing && this.content == content && this.request == request && past == NewPast(content)
      ensures this.closes == closes && this.ackCallback == ackCallback
    {
      this.rid, this.survives, this.isSubscription, this.closes, this.ackCallback := rid, survives, isSubscription, closes, ackCallback;
      this.request, writing, this.content := request, false, content;
      past := NewPast(content);
    }

    /** close was not called on it. */
    predicate Open()
      reads this
    {
      content.CacheOf? && !content.closed
    }

    /** reconnected makes it send its request. */
    predicate Asks()
      reads this
    {
      survives && !writing && Open()
    }

    /** The stream is consistent and every message in it can be written. */
    ghost predicate Valid(encode: (Msg, Int32, Int32) -> Bytes)
      reads this
    {
      CanBe(encode, content, past)
    }

    /** The stream would be consistent with this content. */
    ghost predicate CanBe(encode: (Msg, Int32, Int32) -> Bytes, c: Content, p: Past)
      reads `writing
    {
      && Sound(c) && Remembers(c, p)
      && (forall m :: m in Offers(c) ==> Writable(encode, m))
      && (c.QueueOf? && c.state.limits.policy.SubscribePolicy? ==> isSubscription)
      && (survives ==> c.CacheOf? && Writable(encode, request))
      && (writing ==> CanAsk(c))
      && (EndedByTaking(p) ==> MayEnd())
    }

    /** Some message of the stream closes it. */
    ghost predicate MayEnd()
    {
      !isSubscription && exists m :: closes(m)
    }

    /** So it is when a message leaves it. */
    lemma CanBeTaken(encode: (Msg, Int32, Int32) -> Bytes, closing: bool, time: int)
      requires Valid(encode) && FreshAt(content, time) && Ready(content) && !writing
      requires closing && content.QueueOf? ==> content.state.limits.policy.PurgePolicy?
      requires closing ==> MayEnd()
      ensures CanBe(encode, Taken(content, closing), Handing(content, past, closing))
    {
      hide Remembers, EndedByTaking, MayEnd, Histories.Handing, Sound, Offers, Pending, CanAsk, Taken, FreshAt, Writable, Ready, NextMsg, AsksAgain;
      TakeFacts(content, closing, time);
      HandingRemembers(content, past, closing);
    }

    /** And when its one message is replaced. */
    lemma CanBeFixed(encode: (Msg, Int32, Int32) -> Bytes, m: Msg)
      requires Valid(encode) && content.Fixed? && Writable(encode, m)
      ensures CanBe(encode, Fixed(m), CacheGiven(past, m)) && CacheGiven(past, m).handed == past.handed
      ensures Pending(Fixed(m)) == [] && CanAsk(Fixed(m))
    {
      hide Remembers, Writable;
      FixedGivenRemembers(content, past, m);
    }

    /** And when it is destroyed. */
    lemma CanBeEnded(encode: (Msg, Int32, Int32) -> Bytes)
      requires Valid(encode)
      ensures CanBe(encode, Destroyed(content), Ended(content, past))
      ensures Ended(content, past).handed == past.handed && Ended(content, past).given == past.given
    {
      hide Remembers, Writable, Ended, EndedByTaking, Q.Inv;
      EndedRemembers(content, past);
    }

    lemma Closes(m: Msg)
      requires !isSubscription && closes(m)
      ensures MayEnd()
    {
    }
  }

  /** A message that a stream handed over. */
  datatype Handed = Handed(from: MessageStream, msg: Msg)

  /** What one stream handed over, in order. */
  ghost function Of(log: seq<Handed>, s: MessageStream): seq<Msg>
  {
    if log == [] then []
    else
      var n := |log| - 1;
      Of(log[..n], s) + if log[n].from == s then [log[n].msg] else []
  }

  lemma OfSnoc(log: seq<Handed>, x: Handed, s: MessageStream)
    ensures Of(log + [x], s) == Of(log, s) + if x.from == s then [x.msg] else []
  {
    assert (log + [x])[..|log|] == log;
  }

  lemma {:induction false} OfAppend(a: seq<Handed>, b: seq<Handed>, s: MessageStream)
    ensures Of(a + b, s) == Of(a, s) + Of(b, s)
    decreases |b|
  {
    if b == [] {
      assert a + b == a;
    } else {
      var n := |b| - 1;
      OfAppend(a, b[..n], s);
      assert (a + b)[..|a| + n] == a + b[..n];
    }
  }

  /** The streams that handed over a message which closes them: their session forgets them. */
  ghost function ClosedBy(log: seq<Handed>): set<MessageStream>
  {
    set h | h in log && !h.from.isSubscription && h.from.closes(h.msg) :: h.from
  }

  lemma ClosedOne(h: Handed)
    ensures ClosedBy([h]) == if !h.from.isSubscription && h.from.closes(h.msg) then {h.from} else {}
  {
  }

  lemma ClosedNone(log: seq<Handed>)
    ensures ClosedBy(log[|log|..]) == {}
  {
    assert log[|log|..] == [];
  }

  /** What was handed over since, in two steps. */
  lemma ClosedSince(before: seq<Handed>, between: seq<Handed>, after: seq<Handed>)
    requires before <= between <= after
    ensures ClosedBy(after[|before|..]) == ClosedBy(between[|before|..]) + ClosedBy(after[|between|..])
  {
    assert after[|before|..] == between[|before|..] + after[|between|..];
    forall s | s in ClosedBy(between[|before|..]) + ClosedBy(after[|between|..]) ensures s in ClosedBy(after[|before|..]) {
      var h :| (h in between[|before|..] || h in after[|between|..]) && !h.from.isSubscription && h.from.closes(h.msg) && h.from == s;
      assert h in after[|before|..];
    }
    forall s | s in ClosedBy(after[|before|..]) ensures s in ClosedBy(between[|before|..]) + ClosedBy(after[|between|..]) {
      var h :| h in after[|before|..] && !h.from.isSubscription && h.from.closes(h.msg) && h.from == s;
      assert h in between[|before|..] || h in after[|between|..];
    }
  }

  lemma {:induction false} OfHas(log: seq<Handed>, i: nat)
    requires i < |log|
    ensures log[i].msg in Of(log, log[i].from)
  {
    if i < |log| - 1 {
      OfHas(log[..|log| - 1], i);
    }
  }

  lemma {:induction false} OfNone(log: seq<Handed>, s: MessageStream)
    requires forall i :: 0 <= i < |log| ==> log[i].from != s
    ensures Of(log, s) == []
  {
    if log != [] {
      OfNone(log[..|log| - 1], s);
    }
  }

  /** A message as it went out: on which rid and under which ack id. */
  datatype Sent = Sent(msg: Msg, rid: Int32, ack: Int32)

  /** What `write` makes of the messages, one frame each. */
  function Frames(encode: (Msg, Int32, Int32) -> Bytes, sent: seq<Sent>): (f: seq<Bytes>)
    ensures |f| == |sent| && forall i :: 0 <= i < |f| ==> f[i] == encode(sent[i].msg, sent[i].rid, sent[i].ack)
  {
    if sent == [] then [] else [encode(sent[0].msg, sent[0].rid, sent[0].ack)] + Frames(encode, sent[1..])
  }

  /** A message within the size limit, of which Message::write stores exactly Message::size bytes. */
  ghost predicate Writable(encode: (Msg, Int32, Int32) -> Bytes, m: Msg)
  {
    m.size <= MAX_MESSAGE_SIZE && forall rid, ack :: |encode(m, rid, ack)| == m.size
  }

  /** The bytes of these messages. */
  function BatchSize(sent: seq<Sent>): nat
  {
    if sent == [] then 0 else sent[0].msg.size + BatchSize(sent[1..])
  }

  lemma {:induction false} BatchSnoc(sent: seq<Sent>, from: nat, x: Sent)
    requires from <= |sent|
    ensures BatchSize((sent + [x])[from..]) == BatchSize(sent[from..]) + x.msg.size
    decreases |sent| - from
  {
    if from == |sent| {
      assert (sent + [x])[from..] == [x] && sent[from..] == [];
    } else {
      BatchSnoc(sent, from + 1, x);
      assert (sent + [x])[from..] == [sent[from]] + (sent + [x])[from + 1..] && sent[from..] == [sent[from]] + sent[from + 1..];
    }
  }

  lemma BatchNone(sent: seq<Sent>)
    ensures BatchSize(sent[|sent|..]) == 0
  {
  }

  lemma FramesSnoc(encode: (Msg, Int32, Int32) -> Bytes, sent: seq<Sent>, x: Sent)
    ensures Concat(Frames(encode, sent + [x])) == Concat(Frames(encode, sent)) + encode(x.msg, x.rid, x.ack)
  {
    assert Frames(encode, sent + [x]) == Frames(encode, sent) + [encode(x.msg, x.rid, x.ack)];
    ConcatSnoc(Frames(encode, sent), encode(x.msg, x.rid, x.ack));
  }

  /** The acknowledgement ids count up from message to message. */
  ghost predicate NumberedFrom(sent: seq<Sent>, before: nat, count: nat)
  {
    before <= |sent| && forall i :: before <= i < |sent| ==> sent[i].ack == ToInt32(count + 1 + i - before)
  }

  ghost predicate AllWritable(encode: (Msg, Int32, Int32) -> Bytes, sent: seq<Sent>)
  {
    forall i :: 0 <= i < |sent| ==> Writable(encode, sent[i].msg)
  }

  /** These bytes are the frames of what was sent, unless writes overlapped. */
  ghost predicate Carries(encode: (Msg, Int32, Int32) -> Bytes, sent: seq<Sent>, bytes: Bytes, overlapped: bool)
  {
    (overlapped || bytes == Concat(Frames(encode, sent))) && AllWritable(encode, sent)
  }

  /** What went out on this connection is what the streams handed over since `start`. */
  ghost predicate Logs(log: seq<Handed>, start: nat, sent: seq<Sent>)
  {
    && start + |sent| == |log|
    && forall i :: 0 <= i < |sent| ==> log[start + i].msg == sent[i].msg && log[start + i].from.rid == sent[i].rid
  }

  lemma LogsMore(log: seq<Handed>, start: nat, sent: seq<Sent>, h: Handed, x: Sent)
    requires Logs(log, start, sent) && h.msg == x.msg && h.from.rid == x.rid
    ensures Logs(log + [h], start, sent + [x])
  {
  }

  lemma CarriesNothing(encode: (Msg, Int32, Int32) -> Bytes)
    ensures Carries(encode, [], [], false)
  {
  }

  lemma NumberedNone(sent: seq<Sent>, count: nat)
    ensures NumberedFrom(sent, |sent|, count)
  {
  }

  lemma NumberedMore(sent: seq<Sent>, before: nat, count: nat)
    requires NumberedFrom(sent, before, count)
    ensures forall x: Sent :: x.ack == ToInt32(count + 1 + |sent| - before) ==> NumberedFrom(sent + [x], before, count)
  {
  }

  lemma InTail(s: MessageStream, list: seq<MessageStream>)
    requires s in list && s != list[0]
    ensures s in list[1..]
  {
  }

  class Session {
    const encode: (Msg, Int32, Int32) -> Bytes
    const acks: AckWindow
    /** _connection is not null, and its write buffer. */
    var connected: bool
    var writeBuffer: array<Byte>
    var writeStreams: seq<MessageStream>
    var isWriting: bool
    var incoming: set<MessageStream>
    var outgoing: set<MessageStream>
    /** Outside the session: write_loop calls waiting in the strand, and socket writes whose completion is to come, on
        earlier connections and on the present one. */
    var injected: nat
    var staleWrites: nat
    var writesHere: nat
    /** Every stream that refers to this session, and what was written to the present connection. */
    ghost var streams: set<MessageStream>
    ghost var sent: seq<Sent>
    ghost var wire: Bytes
    /** A write_loop filled the write buffer of the present connection while the socket was still reading it. */
    ghost var overlapped: bool
    /** What the streams handed over so far, and how much of it went to earlier connections. */
    ghost var log: seq<Handed>
    ghost var start: nat

    /** The lists and flags agree, leaving out whether the streams in `exempt` are listed for their messages. */
    ghost predicate Consistent(exempt: set<MessageStream>)
      reads `writeBuffer, `writeStreams, `incoming, `outgoing, `streams, `log, streams, acks
    {
      BufferSize(writeBuffer.Length) && Core(exempt)
    }

    ghost predicate Core(exempt: set<MessageStream>)
      reads `writeStreams, `incoming, `outgoing, `streams, `log, streams, acks
    {
      && acks.Valid()
      && incoming <= streams && outgoing <= streams && incoming !! outgoing
      && (forall s :: s in outgoing ==> !s.survives)
      && (forall i :: 0 <= i < |writeStreams| ==> writeStreams[i] in streams)
      && (forall s :: s in streams ==> s.Valid(encode))
      && Recorded()
      && (forall s :: s in streams && s.writing ==> s in writeStreams)
      && (forall s :: s in streams && s !in exempt && Pending(s.content) != [] ==> s in writeStreams)
    }

    /** The log tells for every stream what it handed over. */
    ghost predicate Recorded()
      reads `streams, `log, streams`past
    {
      && (forall i :: 0 <= i < |log| ==> log[i].from in streams)
      && (forall s :: s in streams ==> s.past.handed == Of(log, s))
    }

    /** No lost wakeup: whatever can be sent is listed, and while connected a non-empty list means that a write_loop is
        scheduled or that a write is under way whose completion schedules one. */
    ghost predicate Valid()
      reads this, streams, acks
    {
      && Consistent({})
      && (isWriting ==> Coming() > 0)
      && (connected && writeStreams != [] ==> isWriting)
      && Carries(encode, sent, wire, overlapped) && Logs(log, start, sent)
    }

    /** One write_loop or write at a time is under way, and none when _is_writing is not set. */
    predicate Ordered()
      reads this
    {
      Coming() == if isWriting then 1 else 0
    }

    /** The write_loop calls to come. */
    function Coming(): nat
      reads this
    {
      injected + staleWrites + writesHere
    }

    ghost predicate FreshAll(time: int)
      reads `streams, streams`content
    {
      forall s :: s in streams ==> FreshAt(s.content, time)
    }

    ghost predicate SomethingPending()
      reads `streams, streams`content
    {
      exists s :: s in streams && Pending(s.content) != []
    }

    constructor (encode: (Msg, Int32, Int32) -> Bytes)
      ensures Valid() && !connected && streams == {} && this.encode == encode && !isWriting && Ordered()
      ensures fresh(acks) && fresh(writeBuffer) && log == []
    {
      this.encode := encode;
      acks := new AckWindow();
      connected, isWriting, injected, staleWrites, writesHere, overlapped := false, false, 0, 0, 0, false;
      writeBuffer := new Byte[DEFAULT_BUFFER_SIZE];
      writeStreams, incoming, outgoing := [], {}, {};
      streams, sent, wire, log, start := {}, [], [], [], 0;
    }

    /** In every reachable state a message that can be sent has a write_loop coming. */
    lemma NoLostWakeup()
      requires Valid() && connected && SomethingPending()
      ensures injected > 0 || staleWrites > 0 || writesHere > 0
    {
    }

    /** Whatever went out on this connection was given to one of the streams. */
    lemma SentWasGiven()
      requires Valid()
      ensures forall x :: x in sent ==> exists s :: s in streams && x.rid == s.rid && x.msg in s.past.given
    {
      hide Of, Remembers, Carries, Pending, Sound, Offers, CanAsk, Writable;
      forall i | 0 <= i < |sent| ensures exists s :: s in streams && sent[i].rid == s.rid && sent[i].msg in s.past.given {
        var s := log[start + i].from;
        HandedGiven(s.content, s.past);
        OfHas(log, start + i);
      }
    }

    /** What a stream handed over went to earlier connections or is part of what was sent on this one, in order; and it is
        what the past of the stream tells. */
    lemma HandedOver(s: MessageStream)
      requires Valid() && s in streams
      ensures Logs(log, start, sent) && Remembers(s.content, s.past)
      ensures s.past.handed == Of(log[..start], s) + Of(log[start..], s)
    {
      hide Of, Remembers;
      OfAppend(log[..start], log[start..], s);
      assert log == log[..start] + log[start..];
    }

    // -------------------------------------------------------------- asking to be written

    /** write_stream. */
    method WriteStream(s: MessageStream)
      requires Consistent({s}) && s in streams && CanAsk(s.content)
      modifies s`writing, `writeStreams, `isWriting, `injected
      ensures Consistent({}) && s.writing && writeStreams == old(writeStreams) + [s]
      ensures if old(isWriting) || !connected then isWriting == old(isWriting) && injected == old(injected)
              else isWriting && injected == old(injected) + 1
    {
      hide Remembers, Of, Sound, Offers, Pending, CanAsk, CanAsk;
      s.writing := true;
      writeStreams := writeStreams + [s];
      Schedule();
    }

    /** write_critical_stream. */
    method WriteCriticalStream(s: MessageStream)
      requires Consistent({s}) && s in streams && CanAsk(s.content)
      modifies s`writing, `writeStreams, `isWriting, `injected
      ensures Consistent({}) && s.writing && writeStreams == [s] + old(writeStreams)
      ensures if old(isWriting) || !connected then isWriting == old(isWriting) && injected == old(injected)
              else isWriting && injected == old(injected) + 1
    {
      hide Remembers, Of, Sound, Offers, Pending, CanAsk, CanAsk;
      s.writing := true;
      writeStreams := [s] + writeStreams;
      Schedule();
    }

    method Schedule()
      requires Consistent({})
      modifies `isWriting, `injected
      ensures Consistent({})
      ensures if old(isWriting) || !connected then isWriting == old(isWriting) && injected == old(injected)
              else isWriting && injected == old(injected) + 1
    {
      if !isWriting && connected {
        isWriting := true;
        injected := injected + 1;
      }
    }

    // -------------------------------------------------------------- choosing the next message

    /** Takes the first stream off the list. */
    method PopFront() returns (s: MessageStream)
      requires Consistent({}) && writeStreams != []
      modifies `writeStreams, streams`writing
      ensures s == old(writeStreams)[0] && s in streams && writeStreams == old(writeStreams)[1..] && Consistent({s})
      ensures !s.writing
    {
      hide Remembers, Of, Sound, Offers, Pending, CanAsk, Writable;
      s := writeStreams[0];
      forall t | t in writeStreams && t != s ensures t in writeStreams[1..] {
        InTail(t, writeStreams);
      }
      s.writing := false;
      writeStreams := writeStreams[1..];
    }

    /** peek_next_message_size on one stream. */
    method PeekStream(s: MessageStream, time: int, ghost exempt: set<MessageStream>) returns (size: int)
      requires Consistent(exempt) && FreshAll(time) && s in streams && (s in exempt || s in writeStreams)
      modifies s`content, s`past
      ensures Consistent(exempt) && FreshAll(time) && size >= 0
      ensures PeekEnabled(s.content, time) && PeekAt(s.content, time) == (s.content, size)
      ensures old(PeekEnabled(s.content, time)) && (s.content, size) == PeekAt(old(s.content), time)
      ensures size > 0 <==> Ready(s.content)
      ensures size > 0 ==> NextMsg(s.content).size == size && Writable(encode, NextMsg(s.content))
      ensures size == 0 ==> Pending(s.content) == []
      ensures old(Pending(s.content)) != [] ==> size > 0 && Pending(s.content) != []
      ensures old(SomethingPending()) ==> SomethingPending()
      ensures Orders(s.past) == old(Orders(s.past))
    {
      hide Consistent, FreshAll, SomethingPending, Remembers, Peeked, Sound, Offers, Pending, CanAsk, PeekAt, FreshAt, Writable, Ready, NextMsg;
      OneStream(s, exempt, time);
      PeekFacts(s.content, time);
      PeekedRemembers(s.content, s.past, time);
      var (c, n) := PeekAt(s.content, time);
      Become(s, c, Peeked(s.content, s.past, time), exempt, exempt);
      size := n;
    }

    lemma OneStream(s: MessageStream, exempt: set<MessageStream>, time: int)
      requires Consistent(exempt) && s in streams
      ensures s.Valid(encode) && (FreshAll(time) ==> FreshAt(s.content, time))
      ensures s !in exempt && Pending(s.content) != [] ==> s in writeStreams
      ensures s.writing ==> s in writeStreams
    {
    }

    /** The content of one stream changes; `after` are the streams that may be missing in the list then. */
    method Become(s: MessageStream, c: Content, ghost p: Past, ghost before: set<MessageStream>, ghost after: set<MessageStream>)
      requires Consistent(before) && s in streams && s.CanBe(encode, c, p) && p.handed == s.past.handed
      requires before <= after && (Pending(c) != [] ==> s in after || s in writeStreams)
      modifies s`content, s`past
      ensures Consistent(after) && s.content == c && s.past == p
      ensures forall time :: old(FreshAll(time)) && FreshAt(c, time) ==> FreshAll(time)
      ensures old(SomethingPending()) && (Pending(c) != [] || old(Pending(s.content)) == []) ==> SomethingPending()
    {
      hide MessageStream.CanBe, Of, Pending, FreshAt, AckWindow.Valid;
      ghost var w := if SomethingPending() then AnyPending() else s;
      s.past := p;
      s.content := c;
    }

    ghost function AnyPending(): (s: MessageStream)
      requires SomethingPending()
      reads this, streams
      ensures s in streams && Pending(s.content) != []
    {
      var s :| s in streams && Pending(s.content) != []; s
    }

    /** peek_next_message: streams with nothing to send leave the list on the way. It answers 0 only when the list is
        empty, and not as long as any stream has something to send. */
    method PeekNextMessage(available: int, time: int) returns (size: int)
      requires Consistent({}) && FreshAll(time)
      modifies `writeStreams, streams`writing, streams`content, streams`past
      ensures Consistent({}) && FreshAll(time) && size >= 0
      ensures size == 0 ==> writeStreams == []
      ensures size > 0 ==> writeStreams != [] && FrontOffers(time, size)
      ensures |writeStreams| <= |old(writeStreams)|
      ensures var k := |old(writeStreams)| - |writeStreams|;
              writeStreams == old(writeStreams)[k..] && forall i :: 0 <= i < k ==> old(Pending(writeStreams[i].content)) == []
      ensures old(SomethingPending()) ==> size > 0
      ensures forall t :: t in streams ==> Orders(t.past) == old(Orders(t.past))
    {
      hide *;
      ListedStreams({});
      NothingListed();
      ghost var k := 0;
      while writeStreams != []
        invariant Consistent({}) && FreshAll(time) && old(SomethingPending()) ==> SomethingPending()
        invariant Consistent({}) && FreshAll(time) && forall i :: 0 <= i < |writeStreams| ==> writeStreams[i] in streams
        invariant SomethingPending() ==> writeStreams != []
        invariant forall t :: t in streams ==> Orders(t.past) == old(Orders(t.past))
        invariant 0 <= k <= |old(writeStreams)| && writeStreams == old(writeStreams)[k..]
        invariant forall i :: 0 <= i < k ==> old(Pending(writeStreams[i].content)) == []
        invariant forall t :: t in streams && t !in old(writeStreams)[..k] ==> t.content == old(t.content)
        decreases |writeStreams|
      {
        var s := writeStreams[0];
        size := PeekStream(s, time, {});
        if size > 0 {
          MakeOffer(time, size);
          return;
        }
        Unlist(time);
        k := k + 1;
        ListedStreams({});
        NothingListed();
      }
      size := 0;
    }

    lemma NothingListed()
      requires Consistent({})
      ensures SomethingPending() ==> writeStreams != []
    {
    }

    lemma ListedStreams(exempt: set<MessageStream>)
      requires Consistent(exempt)
      ensures forall i :: 0 <= i < |writeStreams| ==> writeStreams[i] in streams
    {
    }

    /** What peek_next_message found: the first stream is settled and reports this size again. */
    ghost predicate FrontOffers(time: int, size: int)
      reads `writeStreams, `streams, streams`content
      requires writeStreams != []
    {
      var s := writeStreams[0];
      s in streams && Ready(s.content) && PeekEnabled(s.content, time) && PeekAt(s.content, time) == (s.content, size)
      && NextMsg(s.content).size == size && Writable(encode, NextMsg(s.content))
    }

    lemma MakeOffer(time: int, size: int)
      requires writeStreams != [] && writeStreams[0] in streams && Ready(writeStreams[0].content)
      requires PeekEnabled(writeStreams[0].content, time) && PeekAt(writeStreams[0].content, time) == (writeStreams[0].content, size)
      requires NextMsg(writeStreams[0].content).size == size && Writable(encode, NextMsg(writeStreams[0].content))
      ensures FrontOffers(time, size)
    {
    }

    /** The write that is under way is as long as it can be: no stream has anything to send, or the next message does not fit
        behind the `used` bytes. */
    ghost predicate NoRoom(time: int, used: int)
      reads `writeStreams, `streams, streams`content
    {
      writeStreams == [] || exists n :: used + n >= MAX_BUFFER_SIZE && FrontOffers(time, n)
    }

    lemma MakeNoRoom(time: int, used: int, n: int)
      requires writeStreams == [] || (used + n >= MAX_BUFFER_SIZE && FrontOffers(time, n))
      ensures NoRoom(time, used)
    {
    }

    /** A stream that reported nothing leaves the list. */
    method Unlist(time: int)
      requires Consistent({}) && FreshAll(time) && writeStreams != [] && Pending(writeStreams[0].content) == []
      modifies `writeStreams, streams`writing
      ensures Consistent({}) && FreshAll(time) && writeStreams == old(writeStreams)[1..]
      ensures old(SomethingPending()) ==> SomethingPending()
    {
      hide Remembers, Of, Pending, Sound, Offers, Writable, FreshAt;
      ghost var p := if SomethingPending() then AnyPending() else writeStreams[0];
      var s := PopFront();
    }

    /** get_next_ready_stream. After a successful peek_next_message it returns the stream that was peeked. */
    method GetNextReadyStream(time: int) returns (s: MessageStream?)
      requires Consistent({}) && FreshAll(time)
      modifies `writeStreams, streams`writing, streams`content, streams`past
      ensures s == null ==> writeStreams == [] && Consistent({})
      ensures s != null ==> s in streams && Ready(s.content) && Consistent({s}) && !s.writing
      ensures FreshAll(time) && forall t :: t in streams ==> Orders(t.past) == old(Orders(t.past))
      ensures forall n :: n > 0 && old(writeStreams != [] && FrontOffers(time, n)) ==>
                s == old(writeStreams)[0] && s.content == old(writeStreams[0].content) && writeStreams == old(writeStreams)[1..]
    {
      hide Consistent, FreshAll, Pending, PeekAt, PeekEnabled, Ready, NextMsg;
      ghost var first := true;
      ListedStreams({});
      while writeStreams != []
        invariant Consistent({}) && FreshAll(time) && forall i :: 0 <= i < |writeStreams| ==> writeStreams[i] in streams
        invariant first ==> writeStreams == old(writeStreams) && forall t :: t in streams ==> t.content == old(t.content)
        invariant !first ==> forall n :: n > 0 ==> !old(writeStreams != [] && FrontOffers(time, n))
        invariant forall t :: t in streams ==> Orders(t.past) == old(Orders(t.past))
        decreases |writeStreams|
      {
        KeepFresh(time);
        var t := PopFront();
        KeepFresh(time);
        var size := PeekStream(t, time, {t});
        if size > 0 {
          return t;
        }
        Reconsider(t);
        ListedStreams({});
        first := false;
      }
      s := null;
    }

    lemma KeepFresh(time: int)
      ensures FreshAll(time) <==> forall s :: s in streams ==> FreshAt(s.content, time)
    {
    }

    lemma Reconsider(s: MessageStream)
      requires Consistent({s}) && Pending(s.content) == []
      ensures Consistent({})
    {
    }

    // -------------------------------------------------------------- the write loop

    /** get_next_message on a ready stream: the message leaves the stream, a stream that has more asks to be written
        again, and a message that closes the stream makes the session destroy it. */
    method GetNextMessage(s: MessageStream, time: int) returns (m: Msg)
      requires Consistent({s}) && FreshAll(time) && s in streams && Ready(s.content) && isWriting && !s.writing
      modifies s`content, s`past, s`writing, `log, `writeStreams, `incoming, `outgoing, `isWriting, `injected
      ensures Consistent({}) && FreshAll(time) && isWriting && injected == old(injected)
      ensures m == old(NextMsg(s.content))
      ensures var closing := !s.isSubscription && s.closes(m);
              writeStreams == old(writeStreams) + if s.content.QueueOf? && !closing && s.content.state.queue.elems != [] then [s] else []
      ensures var closing := !s.isSubscription && s.closes(m); s.content == Taken(old(s.content), closing)
      ensures log == old(log) + [Handed(s, m)] && Orders(s.past) == old(Orders(s.past))
      ensures !s.isSubscription && s.closes(m) ==> incoming == old(incoming) - {s} && outgoing == old(outgoing) - {s}
      ensures s.isSubscription || !s.closes(m) ==> incoming == old(incoming) && outgoing == old(outgoing)
    {
      hide *;
      m := NextMsg(s.content);
      var closing := !s.isSubscription && s.closes(m);
      var again := AsksAgain(s.content, closing);
      AsksAgainIs(s.content, closing);
      if closing {
        s.Closes(m);
        ClosingPolicy(s);
      }
      TakeMessage(s, closing, time);
      if closing {
        Unregister(s, {s}, time);
      }
      if again {
        KeepFresh(time);
        WriteStream(s);
        KeepFresh(time);
      } else {
        Reconsider(s);
      }
    }

    lemma AsksAgainIs(c: Content, closing: bool)
      requires Ready(c)
      ensures c.QueueOf? <==> Taken(c, closing).QueueOf?
      ensures AsksAgain(c, closing) <==> c.QueueOf? && !closing && Taken(c, closing).state.queue.elems != []
    {
    }

    lemma ClosingPolicy(s: MessageStream)
      requires Consistent({s}) && s in streams && !s.isSubscription
      ensures s.content.QueueOf? ==> s.content.state.limits.policy.PurgePolicy?
    {
    }

    lemma SoundOf(s: MessageStream)
      requires s.Valid(encode)
      ensures Sound(s.content) && Remembers(s.content, s.past)
    {
    }

    /** The message leaves the stream. */
    method TakeMessage(s: MessageStream, closing: bool, ghost time: int)
      requires Consistent({s}) && FreshAll(time) && s in streams && Ready(s.content) && !s.writing
      requires closing && s.content.QueueOf? ==> s.content.state.limits.policy.PurgePolicy?
      requires closing ==> s.MayEnd()
      modifies s`content, s`past, `log
      ensures Consistent({s}) && FreshAll(time) && s.content == Taken(old(s.content), closing)
      ensures Pending(s.content) != [] ==> AsksAgain(old(s.content), closing)
      ensures AsksAgain(old(s.content), closing) ==> CanAsk(s.content)
      ensures log == old(log) + [Handed(s, old(NextMsg(s.content)))] && Orders(s.past) == old(Orders(s.past))
    {
      hide Remembers, Of, Orders, EndedByTaking, MessageStream.MayEnd, MessageStream.CanBe, Histories.Handing, Sound, Offers, Pending;
      hide CanAsk, Taken, FreshAt, Writable, Ready, NextMsg, AsksAgain, AckWindow.Valid;
      ghost var before, m := log, NextMsg(s.content);
      SoundOf(s);
      s.CanBeTaken(encode, closing, time);
      TakeFacts(s.content, closing, time);
      HandingRemembers(s.content, s.past, closing);
      s.past := Histories.Handing(s.content, s.past, closing);
      s.content := Taken(s.content, closing);
      log := log + [Handed(s, m)];
      forall t | t in streams ensures t.past.handed == Of(log, t) {
        OfSnoc(before, Handed(s, m), t);
      }
    }

    /** One round of write_loop: the first message of the stream that peek_next_message found goes into the buffer. */
    method SendNext(buffer: WriteBuffer, time: int, ghost size: int) returns (x: Sent)
      requires Consistent({}) && FreshAll(time) && isWriting && buffer.Valid()
      requires writeStreams != [] && FrontOffers(time, size) && 0 < size < buffer.MaxNextSize()
      requires Carries(encode, sent, wire + buffer.Contents(), overlapped) && Logs(log, start, sent)
      modifies `writeStreams, `incoming, `outgoing, `isWriting, `injected, `sent, `log, streams`writing, streams`content, streams`past, acks
      modifies buffer, buffer.buffer
      ensures Consistent({}) && FreshAll(time) && isWriting && injected == old(injected) && buffer.Valid()
      ensures buffer.buffer == old(buffer.buffer) || fresh(buffer.buffer)
      ensures buffer.size == old(buffer.size) + size
      ensures Carries(encode, sent, wire + buffer.Contents(), overlapped) && Logs(log, start, sent)
      ensures log == old(log) + [Handed(old(writeStreams)[0], x.msg)] && forall t :: t in streams ==> Orders(t.past) == old(Orders(t.past))
      ensures sent == old(sent) + [x] && x.msg == old(NextMsg(writeStreams[0].content)) && x.rid == old(writeStreams[0].rid)
      ensures incoming == old(incoming) - ClosedBy(log[|old(log)|..]) && outgoing == old(outgoing) - ClosedBy(log[|old(log)|..])
      ensures x.ack == ToInt32(acks.count) && acks.count == old(acks.count) + 1
      ensures acks.registered == old(acks.registered) + Listed(old(writeStreams)[0].ackCallback(x.msg)) && acks.fired == old(acks.fired)
    {
      hide *;
      OfferExists(time, size);
      var m, rid, ack := TakeNext(time, size);
      x := Sent(m, rid, ack);
      LogsMore(old(log), start, sent, Handed(old(writeStreams)[0], m), x);
      AddToBuffer(buffer, x, time);
    }

    method TakeNext(time: int, ghost size: int) returns (m: Msg, rid: Int32, ack: Int32)
      requires Consistent({}) && FreshAll(time) && isWriting
      requires writeStreams != [] && FrontOffers(time, size) && size > 0
      modifies `writeStreams, `incoming, `outgoing, `isWriting, `injected, `log, streams`writing, streams`content, streams`past, acks
      ensures Consistent({}) && FreshAll(time) && isWriting && injected == old(injected)
      ensures log == old(log) + [Handed(old(writeStreams)[0], m)] && forall t :: t in streams ==> Orders(t.past) == old(Orders(t.past))
      ensures m == old(NextMsg(writeStreams[0].content)) && m.size == size && Writable(encode, m) && rid == old(writeStreams[0].rid)
      ensures acks.registered == old(acks.registered) + Listed(old(writeStreams)[0].ackCallback(m)) && acks.fired == old(acks.fired)
      ensures incoming == old(incoming) - ClosedBy([Handed(old(writeStreams)[0], m)])
      ensures outgoing == old(outgoing) - ClosedBy([Handed(old(writeStreams)[0], m)])
      ensures ack == ToInt32(acks.count) && acks.count == old(acks.count) + 1
    {
      hide *;
      OfferExists(time, size);
      var s := GetNextReadyStream(time);
      m := GetNextMessage(s, time);
      ClosedOne(Handed(s, m));
      rid := s.rid;
      ack := NumberMessage(s.ackCallback(m), time);
    }

    lemma OfferExists(time: int, size: int)
      requires writeStreams != [] && FrontOffers(time, size)
      ensures writeStreams[0] in streams && Ready(writeStreams[0].content) && NextMsg(writeStreams[0].content).size == size
      ensures size <= MAX_MESSAGE_SIZE && Writable(encode, NextMsg(writeStreams[0].content))
    {
    }

    method NumberMessage(callback: Option<nat>, ghost time: int) returns (ack: Int32)
      requires Consistent({}) && FreshAll(time)
      modifies acks
      ensures Consistent({}) && FreshAll(time) && ack == ToInt32(acks.count) && acks.count == old(acks.count) + 1
      ensures acks.registered == old(acks.registered) + Listed(callback) && acks.fired == old(acks.fired)
    {
      hide MessageStream.Valid, Recorded, Pending, FreshAt, Writable, AckWindow.Valid;
      ack := acks.Sent(callback);
    }

    method AddToBuffer(buffer: WriteBuffer, x: Sent, ghost time: int)
      requires Consistent({}) && FreshAll(time) && buffer.Valid() && x.msg.size <= buffer.MaxNextSize() && Writable(encode, x.msg)
      requires Carries(encode, sent, wire + buffer.Contents(), overlapped)
      modifies `sent, buffer, buffer.buffer
      ensures Consistent({}) && FreshAll(time) && buffer.Valid() && (buffer.buffer == old(buffer.buffer) || fresh(buffer.buffer))
      ensures buffer.size == old(buffer.size) + x.msg.size
      ensures Carries(encode, sent, wire + buffer.Contents(), overlapped) && sent == old(sent) + [x]
    {
      hide MessageStream.Valid, Recorded, Pending, FreshAt, Frames, Concat, AckWindow.Valid;
      var frame := encode(x.msg, x.rid, x.ack);
      FramesSnoc(encode, sent, x);
      assert wire + (buffer.Contents() + frame) == wire + buffer.Contents() + frame;
      buffer.Add(frame);
      sent := sent + [x];
    }

    /** write_loop. When anything can be sent it sends, and the completion of its write brings the next round; it only
        gives up _is_writing when the connection is gone or the list is empty. Nothing it adds can exceed the buffer. */
    method WriteLoop(time: int)
      requires Consistent({}) && FreshAll(time) && Carries(encode, sent, wire, overlapped) && Logs(log, start, sent)
      modifies this, streams`writing, streams`content, streams`past, acks, writeBuffer
      ensures Valid() && FreshAll(time) && connected == old(connected) && streams == old(streams)
      ensures injected == old(injected) && staleWrites == old(staleWrites)
      ensures writeBuffer == old(writeBuffer) || fresh(writeBuffer)
      ensures !connected ==> !isWriting
      ensures connected && old(SomethingPending()) ==> isWriting
      ensures if isWriting then |sent| > old(|sent|) && writesHere == old(writesHere) + 1
              else sent == old(sent) && writesHere == old(writesHere)
      ensures overlapped <==> old(overlapped) || (isWriting && old(writesHere) > 0)
      ensures old(sent) <= sent && NumberedFrom(sent, old(|sent|), old(acks.count))
      ensures start == old(start) && old(log) <= log && forall t :: t in streams ==> Orders(t.past) == old(Orders(t.past))
      ensures incoming == old(incoming) - ClosedBy(log[|old(log)|..]) && outgoing == old(outgoing) - ClosedBy(log[|old(log)|..])
      ensures connected && !isWriting ==> writeStreams == []
      ensures isWriting ==> NoRoom(time, BatchSize(sent[|old(sent)|..]))
    {
      hide *;
      ClosedNone(log);
      NumberedNone(sent, acks.count);
      if !connected {
        SetWriting(false, 0, time);
        MakeValid();
        return;
      }
      var next := PeekNextMessage(MAX_MESSAGE_SIZE, time);
      if next == 0 {
        SetWriting(false, 0, time);
        MakeValid();
        return;
      }
      SetWriting(true, next, time);
      FillBuffer(next, time);
      MakeValid();
    }

    lemma Apart()
      ensures Valid() ==> Carries(encode, sent, wire, overlapped) && Logs(log, start, sent)
      ensures Valid() ==> (isWriting ==> injected + staleWrites + writesHere > 0) && (connected && writeStreams != [] ==> isWriting)
    {
      hide Consistent, Carries, Logs;
    }

    lemma MakeValid()
      requires Consistent({}) && Carries(encode, sent, wire, overlapped) && Logs(log, start, sent)
      requires isWriting ==> injected + staleWrites + writesHere > 0
      requires connected && writeStreams != [] ==> isWriting
      ensures Valid()
    {
    }

    method SetWriting(b: bool, ghost size: int, ghost time: int)
      requires Consistent({}) && FreshAll(time)
      modifies `isWriting
      ensures Consistent({}) && FreshAll(time) && isWriting == b
      ensures writeStreams != [] && old(writeStreams != [] && FrontOffers(time, size)) ==> FrontOffers(time, size)
    {
      hide MessageStream.Valid, Recorded, Pending, FreshAt, AckWindow.Valid, Writable, PeekAt, PeekEnabled, Ready, NextMsg;
      isWriting := b;
    }

    /** The loop of write_loop: at least one message goes out. */
    method FillBuffer(first: int, time: int)
      requires Consistent({}) && FreshAll(time) && isWriting && Carries(encode, sent, wire, overlapped) && Logs(log, start, sent)
      requires first > 0 && writeStreams != [] && FrontOffers(time, first)
      modifies `writeStreams, `incoming, `outgoing, `isWriting, `injected, `sent, `log, `wire, `writeBuffer
      modifies `writesHere, `overlapped, streams`writing, streams`content, streams`past, acks, writeBuffer
      ensures Consistent({}) && FreshAll(time) && isWriting && injected == old(injected) && Carries(encode, sent, wire, overlapped)
      ensures writesHere == old(writesHere) + 1 && (overlapped <==> old(overlapped) || old(writesHere) > 0)
      ensures writeBuffer == old(writeBuffer) || fresh(writeBuffer)
      ensures old(sent) <= sent && |sent| > old(|sent|) && NumberedFrom(sent, old(|sent|), old(acks.count))
      ensures Logs(log, start, sent) && old(log) <= log && forall t :: t in streams ==> Orders(t.past) == old(Orders(t.past))
      ensures incoming == old(incoming) - ClosedBy(log[|old(log)|..]) && outgoing == old(outgoing) - ClosedBy(log[|old(log)|..])
      ensures NoRoom(time, BatchSize(sent[|old(sent)|..]))
    {
      ClosedNone(log);
      BatchNone(sent);
      hide *;
      OfferExists(time, first);
      NumberedNone(sent, acks.count);
      var buffer := NewBuffer(first, time);
      assert wire + buffer.Contents() == wire;
      var next := first;
      while next > 0 && next < buffer.MaxNextSize()
        invariant Consistent({}) && FreshAll(time) && isWriting && injected == old(injected) && buffer.Valid()
        invariant next > 0 ==> writeStreams != [] && FrontOffers(time, next)
        invariant fresh(buffer) && (buffer.buffer == old(writeBuffer) || fresh(buffer.buffer))
        invariant buffer.size <= MAX_BUFFER_SIZE && Carries(encode, sent, wire + buffer.Contents(), overlapped)
        invariant Logs(log, start, sent) && old(log) <= log && forall t :: t in streams ==> Orders(t.past) == old(Orders(t.past))
        invariant incoming == old(incoming) - ClosedBy(log[|old(log)|..]) && outgoing == old(outgoing) - ClosedBy(log[|old(log)|..])
        invariant old(sent) <= sent && acks.count == old(acks.count) + |sent| - old(|sent|)
        invariant buffer.size == BatchSize(sent[|old(sent)|..]) && next >= 0 && (next == 0 ==> writeStreams == [])
        invariant NumberedFrom(sent, old(|sent|), old(acks.count))
        invariant writesHere == old(writesHere) && overlapped == old(overlapped)
        invariant sent == old(sent) ==> buffer.size == 0 && next == first
        decreases MAX_BUFFER_SIZE - buffer.size
      {
        NumberedMore(sent, old(|sent|), old(acks.count));
        ghost var before, already := log, sent;
        next := Round(buffer, time, next);
        ClosedSince(old(log), before, log);
        BatchSnoc(already, |old(sent)|, sent[|sent| - 1]);
      }
      BufferRoom(buffer);
      assert sent[..|sent|] == sent;
      MakeNoRoom(time, buffer.size, next);
      Flush(buffer, time);
    }

    /** One message goes into the buffer, and the next one is looked for. */
    method Round(buffer: WriteBuffer, time: int, size: int) returns (next: int)
      requires Consistent({}) && FreshAll(time) && isWriting && buffer.Valid()
      requires writeStreams != [] && FrontOffers(time, size) && 0 < size < buffer.MaxNextSize()
      requires Carries(encode, sent, wire + buffer.Contents(), overlapped) && Logs(log, start, sent)
      modifies `writeStreams, `incoming, `outgoing, `isWriting, `injected, `sent, `log, streams`writing, streams`content, streams`past, acks
      modifies buffer, buffer.buffer
      ensures Consistent({}) && FreshAll(time) && isWriting && injected == old(injected) && buffer.Valid()
      ensures next >= 0 && if next > 0 then writeStreams != [] && FrontOffers(time, next) else writeStreams == []
      ensures buffer.buffer == old(buffer.buffer) || fresh(buffer.buffer)
      ensures old(buffer.size) < buffer.size <= MAX_BUFFER_SIZE && |sent| > 0 && buffer.size == old(buffer.size) + sent[|sent| - 1].msg.size
      ensures Carries(encode, sent, wire + buffer.Contents(), overlapped) && Logs(log, start, sent)
      ensures old(log) <= log && forall t :: t in streams ==> Orders(t.past) == old(Orders(t.past))
      ensures incoming == old(incoming) - ClosedBy(log[|old(log)|..]) && outgoing == old(outgoing) - ClosedBy(log[|old(log)|..])
      ensures |sent| == |old(sent)| + 1 && old(sent) <= sent && sent == old(sent) + [sent[|sent| - 1]]
      ensures sent[|sent| - 1].ack == ToInt32(acks.count) && acks.count == old(acks.count) + 1
    {
      hide *;
      OfferExists(time, size);
      BufferRoom(buffer);
      var x := SendNext(buffer, time, size);
      next := PeekNextMessage(buffer.MaxNextSize(), time);
    }

    lemma BufferRoom(buffer: WriteBuffer)
      requires buffer.Valid()
      ensures buffer.MaxNextSize() == MAX_BUFFER_SIZE - buffer.size && MAX_MESSAGE_SIZE < MAX_BUFFER_SIZE
    {
    }

    /** get_write_buffer. */
    method NewBuffer(ghost size: int, ghost time: int) returns (buffer: WriteBuffer)
      requires Consistent({}) && FreshAll(time) && writeStreams != [] && FrontOffers(time, size)
      ensures Consistent({}) && FreshAll(time) && FrontOffers(time, size)
      ensures fresh(buffer) && buffer.Valid() && buffer.buffer == writeBuffer && buffer.size == 0 && buffer.Contents() == []
    {
      hide MessageStream.Valid, Recorded, Pending, FreshAt, AckWindow.Valid, Writable, PeekAt, PeekEnabled, Ready, NextMsg;
      buffer := new WriteBuffer(writeBuffer);
    }

    /** The write that hands the buffer to the socket. While the socket still reads the buffer for an earlier write, filling it
        has spoilt that write already. */
    method Flush(buffer: WriteBuffer, ghost time: int)
      requires Consistent({}) && FreshAll(time) && buffer.Valid() && Carries(encode, sent, wire + buffer.Contents(), overlapped)
      modifies `wire, `writeBuffer, `writesHere, `overlapped
      ensures writesHere == old(writesHere) + 1 && (overlapped <==> old(overlapped) || old(writesHere) > 0)
      ensures Consistent({}) && FreshAll(time) && Carries(encode, sent, wire, overlapped) && writeBuffer == buffer.buffer
    {
      hide MessageStream.Valid, Recorded, Pending, FreshAt, AckWindow.Valid, Writable, Frames, Concat;
      if writesHere > 0 {
        overlapped, wire := true, *;
      } else {
        wire := wire + buffer.Contents();
      }
      writeBuffer := buffer.buffer;
      writesHere := writesHere + 1;
    }

    // -------------------------------------------------------------- what happens to a session

    /** The strand runs an injected write_loop. It overlaps with a write exactly when it sends something while the write is
        under way; in order, it never does. */
    method RunInjected(time: int)
      requires Valid() && FreshAll(time) && injected > 0
      modifies this, streams`writing, streams`content, streams`past, acks, writeBuffer
      ensures Valid() && FreshAll(time) && streams == old(streams) && (writeBuffer == old(writeBuffer) || fresh(writeBuffer))
      ensures injected == old(injected) - 1 && staleWrites == old(staleWrites)
      ensures connected && old(SomethingPending()) ==> isWriting
      ensures if isWriting then |sent| > old(|sent|) && writesHere == old(writesHere) + 1
              else sent == old(sent) && writesHere == old(writesHere)
      ensures overlapped <==> old(overlapped) || (isWriting && old(writesHere) > 0)
      ensures old(Ordered()) ==> Ordered() && overlapped == old(overlapped)
      ensures old(sent) <= sent && NumberedFrom(sent, old(|sent|), old(acks.count)) && connected == old(connected)
      ensures start == old(start) && old(log) <= log && forall t :: t in streams ==> Orders(t.past) == old(Orders(t.past))
      ensures incoming == old(incoming) - ClosedBy(log[|old(log)|..]) && outgoing == old(outgoing) - ClosedBy(log[|old(log)|..])
      ensures isWriting ==> NoRoom(time, BatchSize(sent[|old(sent)|..]))
    {
      hide Consistent, FreshAll, SomethingPending, Carries, ClosedBy, NoRoom, BatchSize;
      Uninject(time);
      WriteLoop(time);
    }

    method Uninject(ghost time: int)
      requires Consistent({}) && FreshAll(time) && injected > 0 && Carries(encode, sent, wire, overlapped)
      modifies `injected
      ensures Consistent({}) && FreshAll(time) && (old(SomethingPending()) ==> SomethingPending()) && Carries(encode, sent, wire, overlapped)
      ensures injected == old(injected) - 1
    {
      hide MessageStream.Valid, Recorded, Pending, FreshAt, AckWindow.Valid, Writable, Frames, Concat;
      injected := injected - 1;
    }

    /** A socket write completes, with or without an error; `stale`: on a connection that is not in use any more. */
    method WriteCompleted(stale: bool)
      requires Valid() && if stale then staleWrites > 0 else writesHere > 0
      modifies `staleWrites, `writesHere, `injected
      ensures Valid() && injected == old(injected) + 1 && Coming() == old(Coming()) && (old(Ordered()) ==> Ordered())
      ensures staleWrites == old(staleWrites) - (if stale then 1 else 0) && writesHere == old(writesHere) - if stale then 0 else 1
      ensures forall time :: old(FreshAll(time)) ==> FreshAll(time)
    {
      hide MessageStream.Valid, Recorded, Pending, FreshAt, AckWindow.Valid, Writable, Frames, Concat;
      if stale {
        staleWrites := staleWrites - 1;
      } else {
        writesHere := writesHere - 1;
      }
      injected := injected + 1;
    }

    /** A new stream of this session; `side` says in which map it is registered. */
    method AddStream(s: MessageStream, side: Side)
      requires Valid() && s.Valid(encode) && s !in streams && !s.writing && Pending(s.content) == [] && s.past.handed == []
      requires side == Responder ==> !s.survives
      modifies `streams, `incoming, `outgoing
      ensures Valid() && streams == old(streams) + {s}
      ensures incoming == (if side == Requester then old(incoming) + {s} else old(incoming))
      ensures outgoing == (if side == Responder then old(outgoing) + {s} else old(outgoing))
    {
      hide MessageStream.Valid, Recorded, Pending, AckWindow.Valid, Writable, Frames, Concat;
      Register(s);
      if side == Requester {
        incoming := incoming + {s};
      } else if side == Responder {
        outgoing := outgoing + {s};
      }
    }

    method Register(s: MessageStream)
      requires Valid() && s.Valid(encode) && s !in streams && !s.writing && Pending(s.content) == [] && s.past.handed == []
      modifies `streams
      ensures Valid() && streams == old(streams) + {s} && s !in incoming + outgoing
    {
      hide MessageStream.Valid, Of, Pending, AckWindow.Valid, Writable, Frames, Concat;
      OfNone(log, s);
      streams := streams + {s};
    }

    /** send_message on a queue stream. */
    method SendToQueue(s: MessageStream, m: Msg, linked: seq<Msg>, close: bool, now: int)
      requires Valid() && s in streams && s.content.QueueOf? && QR.Enabled(s.content.state, QR.Send(m, linked, close, now))
      requires forall x :: x in [m] + linked ==> Writable(encode, x)
      modifies `writeStreams, `isWriting, `injected, s`writing, s`content, s`past
      ensures Valid() && (QR.Ignored(old(s.content.state), close) || old(s.content.state).stray.Some? || Q.Shape(old(s.content.state.queue)))
      ensures s.content == QueueSent(old(s.content), m, linked, close, now).0
      ensures s.past == QueueGiven(old(s.content), old(s.past), m, linked, close, now)
      ensures var asks := QueueSent(old(s.content), m, linked, close, now).1;
              s.writing == (old(s.writing) || asks)
              && writeStreams == old(writeStreams) + if asks && !old(s.writing) then [s] else []
      ensures if writeStreams == old(writeStreams) || old(isWriting) || !connected
              then isWriting == old(isWriting) && injected == old(injected) else isWriting && injected == old(injected) + 1
      ensures old(Ordered()) ==> Ordered()
    {
      hide Consistent, Remembers, QueueGiven, Sound, Offers, Pending, QR.Enabled, Writable, Carries, Logs, QR.Ignored, Q.Shape, QueueSent;
      OneStream(s, {}, 0);
      QueueSentFacts(s.content, m, linked, close, now);
      QueueGivenRemembers(s.content, s.past, m, linked, close, now);
      var (c, asks) := QueueSent(s.content, m, linked, close, now);
      ghost var before := s.content;
      Become(s, c, QueueGiven(s.content, s.past, m, linked, close, now), {}, if asks && !s.writing then {s} else {});
      if asks && !s.writing {
        WriteStream(s);
      }
    }

    /** send_message on a cache stream. A destroyed one only comes here with `close` unset: the source has given up its
        session by then. */
    method SendToCache(s: MessageStream, m: Msg, close: bool)
      requires Consistent({}) && s in streams && s.content.CacheOf? && Writable(encode, m)
      requires !(s.content.destroyed && close)
      modifies `writeStreams, `isWriting, `injected, s`writing, s`content, s`past
      ensures Consistent({}) && s.content.CacheOf? && s.content.closed == old(s.content.closed)
      ensures if old(s.content.closed) && !close then s.content == old(s.content) && s.writing == old(s.writing) && s.past == old(s.past)
              else s.content == Cached(old(s.content), m) && s.writing && s.past == CacheGiven(old(s.past), m)
      ensures if (old(s.content.closed) && !close) || old(s.writing || isWriting) || !connected
              then isWriting == old(isWriting) && injected == old(injected) else isWriting && injected == old(injected) + 1
      ensures connected && writeStreams != old(writeStreams) ==> isWriting
      ensures writeStreams == old(writeStreams) + if s.writing && !old(s.writing) then [s] else []
      ensures (old(Ordered()) ==> Ordered()) && (old(Valid()) ==> Valid())
      ensures old(SomethingPending()) ==> SomethingPending()
      ensures forall time :: old(FreshAll(time)) ==> FreshAll(time)
    {
      hide Consistent, FreshAll, SomethingPending, Remembers, Writable, Carries, Logs;
      OneStream(s, {}, 0);
      if s.content.closed && !close {
        return;
      }
      CacheGivenRemembers(s.content, s.past, m);
      Become(s, Cached(s.content, m), CacheGiven(s.past, m), {}, if s.writing then {} else {s});
      if !s.writing {
        WriteStream(s);
      }
    }

    /** add_ack, add_ping, and the one message of a SimpleStream. add_ack changes the number in the message, also when the
        message is waiting to be written. */
    method SendFixed(s: MessageStream, m: Msg)
      requires Valid() && s in streams && s.content.Fixed? && Writable(encode, m)
      modifies `writeStreams, `isWriting, `injected, s`writing, s`content, s`past
      ensures Valid() && s.writing && s in writeStreams && s.content == Fixed(m) && s.past == CacheGiven(old(s.past), m)
      ensures writeStreams == old(writeStreams) + if old(s.writing) then [] else [s]
      ensures if old(s.writing || isWriting) || !connected then isWriting == old(isWriting) && injected == old(injected)
              else isWriting && injected == old(injected) + 1
      ensures old(Ordered()) ==> Ordered()
    {
      hide Consistent, Remembers, Writable, Carries, Logs, MessageStream.CanBe, MessageStream.Valid, Pending, CanAsk, CacheGiven;
      OneStream(s, {}, 0);
      s.CanBeFixed(encode, m);
      Become(s, Fixed(m), CacheGiven(s.past, m), {}, {});
      if !s.writing {
        ExemptMore({}, {s});
        WriteStream(s);
      }
    }

    lemma ExemptMore(few: set<MessageStream>, more: set<MessageStream>)
      requires Consistent(few) && few <= more
      ensures Consistent(more)
    {
    }

    /** make_critical. The source calls it on invoke streams only. */
    method MakeCritical(s: MessageStream)
      requires Valid() && s in streams && s.content.QueueOf?
      modifies `writeStreams, `isWriting, `injected, s`writing
      ensures Valid() && writeStreams == (if s.content.state.destroyed then [] else [s]) + old(writeStreams)
      ensures s.writing == (old(s.writing) || !s.content.state.destroyed)
      ensures if s.content.state.destroyed || old(isWriting) || !connected then isWriting == old(isWriting) && injected == old(injected)
              else isWriting && injected == old(injected) + 1
      ensures old(Ordered()) ==> Ordered()
    {
      hide Remembers, Of, Sound, Offers, Pending, AckWindow.Valid, Writable, Frames, Concat;
      if !s.content.state.destroyed {
        WriteCriticalStream(s);
      }
    }

    /** set_options. */
    method SetOptions(s: MessageStream, maxSize: int, maxDuration: int, now: int)
      requires Valid() && s in streams && s.content.QueueOf?
      requires QR.Enabled(s.content.state, QR.SetOptions(maxSize, maxDuration, now))
      modifies s`content, s`past
      ensures Valid() && s.content == WithOptions(old(s.content), maxSize, maxDuration, now)
      ensures s.past.given == old(s.past.given)
    {
      hide Consistent, Remembers, Sound, Offers, Pending, Writable, Carries, Logs, QR.Enabled, WithOptions;
      OneStream(s, {}, 0);
      WithOptionsFacts(s.content, maxSize, maxDuration, now);
      OptionsRemember(s.content, s.past, maxSize, maxDuration, now);
      Become(s, WithOptions(s.content, maxSize, maxDuration, now), Later(s.past, QR.SetOptions(maxSize, maxDuration, now), [], []), {}, {});
    }

    /** destroy of a stream, as destroy_req_stream and destroy_resp_stream do it. */
    method DestroyStream(s: MessageStream)
      requires Consistent({}) && s in streams
      modifies s`content, s`past, `incoming, `outgoing
      ensures Consistent({}) && s.content == Destroyed(old(s.content)) && s.past.given == old(s.past.given)
      ensures incoming == old(incoming) - {s} && outgoing == old(outgoing) - {s}
      ensures old(Valid()) ==> Valid()
    {
      hide *;
      OneStream(s, {}, 0);
      s.CanBeEnded(encode);
      ghost var valid := Valid();
      Apart();
      Become(s, Destroyed(s.content), Ended(s.content, s.past), {}, {});
      Unregister(s, {}, 0);
      if valid {
        MakeValid();
      }
    }

    method Unregister(s: MessageStream, ghost exempt: set<MessageStream>, ghost time: int)
      requires Consistent(exempt)
      modifies `incoming, `outgoing
      ensures Consistent(exempt) && (old(FreshAll(time)) ==> FreshAll(time)) && incoming == old(incoming) - {s} && outgoing == old(outgoing) - {s}
    {
      hide MessageStream.Valid, Recorded, Pending, AckWindow.Valid;
      incoming, outgoing := incoming - {s}, outgoing - {s};
    }

    /** close: a queue or cache stream accepts nothing more, except its closing message. */
    method Close(s: MessageStream)
      requires Valid() && s in streams && !s.content.Fixed?
      modifies s`content, s`past
      ensures Valid() && Pending(s.content) == old(Pending(s.content)) && s.past.given == old(s.past.given)
      ensures old(s.content).QueueOf? ==> s.content == QueueOf(old(s.content).state.(closed := true))
      ensures old(s.content).CacheOf? ==> s.content == CacheOf(old(s.content).cache, true, old(s.content).destroyed)
    {
      hide Consistent, Remembers, Writable, Carries, Logs, Q.Inv, Q.Content;
      OneStream(s, {}, 0);
      ClosingRemembers(s.content, s.past);
      match s.content {
        case QueueOf(state) => Become(s, QueueOf(state.(closed := true)), Closing(s.content, s.past), {}, {});
        case CacheOf(cache, _, destroyed) => Become(s, CacheOf(cache, true, destroyed), s.past, {}, {});
      }
    }

    /** A stream that outlived the connection is no longer in the middle of asking to be written. */
    method Survive(s: MessageStream)
      requires Consistent({}) && s in streams
      modifies s`writing
      ensures Consistent({}) && !s.writing
    {
      hide AckWindow.Valid, Writable, Remembers, Of, Sound, Offers, Pending, CanAsk;
      s.writing := false;
    }

    /** disconnected, for the connection in use: requester_disconnected and responder_disconnected. What is left is the
        subscriptions and lists that this side asked for. */
    method Disconnected()
      requires Valid()
      modifies `connected, `staleWrites, `writesHere, `incoming, `outgoing, streams`writing, streams`content, streams`past
      ensures Valid() && !connected && outgoing == {}
      ensures writesHere == 0 && Coming() == old(Coming()) && (old(Ordered()) ==> Ordered())
      ensures incoming == set s | s in old(incoming) && s.survives
      ensures forall s :: s in incoming ==> !s.writing && s.content == old(s.content)
      ensures forall s :: s in old(incoming + outgoing) && !s.survives ==> s.content == Destroyed(old(s.content))
      ensures forall s :: s in streams && s !in incoming ==> s.writing == old(s.writing)
      ensures forall s :: s in streams && s !in old(incoming + outgoing) ==> s.content == old(s.content)
    {
      hide Consistent, Frames, Concat, Pending, Destroyed;
      RegisteredStreams();
      Disconnect();
      RegisteredStreams();
      RequesterDisconnected();
      RegisteredStreams();
      ResponderDisconnected();
    }

    /** The connection is gone. connected without a connection does this and nothing else to the streams. */
    method Disconnect()
      requires Consistent({})
      modifies `connected, `staleWrites, `writesHere
      ensures Consistent({}) && !connected && writesHere == 0 && Coming() == old(Coming())
    {
      hide MessageStream.Valid, Recorded, Pending, AckWindow.Valid, Writable;
      connected, staleWrites, writesHere := false, staleWrites + writesHere, 0;
    }

    method RequesterDisconnected()
      requires Consistent({})
      modifies `incoming, `outgoing, incoming`writing, incoming`content, incoming`past
      ensures Consistent({}) && outgoing == old(outgoing) && incoming == set s | s in old(incoming) && s.survives
      ensures forall s :: s in incoming ==> !s.writing && s.content == old(s.content)
      ensures forall s :: s in old(incoming) && !s.survives ==> s.content == Destroyed(old(s.content)) && s.writing == old(s.writing)
    {
      hide Consistent, Pending, Destroyed;
      RegisteredStreams();
      var todo := incoming;
      while todo != {}
        invariant Consistent({}) && todo <= old(incoming) <= streams && outgoing == old(outgoing) && old(incoming) !! outgoing
        invariant incoming == set s | s in old(incoming) && (s in todo || s.survives)
        invariant forall s :: s in old(incoming) && (s in todo || s.survives) ==> s.content == old(s.content)
        invariant forall s :: s in old(incoming) && s !in todo ==> if s.survives then !s.writing else s.content == Destroyed(old(s.content))
        invariant forall s :: s in old(incoming) && (s in todo || !s.survives) ==> s.writing == old(s.writing)
        decreases todo
      {
        var s :| s in todo;
        todo := todo - {s};
        if s.survives {
          Survive(s);
        } else {
          DestroyStream(s);
        }
      }
    }

    method ResponderDisconnected()
      requires Consistent({})
      modifies `incoming, `outgoing, outgoing`content, outgoing`past
      ensures Consistent({}) && outgoing == {} && incoming == old(incoming)
      ensures forall s :: s in old(outgoing) ==> s.content == Destroyed(old(s.content))
    {
      hide Consistent, Pending, Destroyed;
      RegisteredStreams();
      var todo := outgoing;
      while todo != {}
        invariant Consistent({}) && todo <= old(outgoing) <= streams && outgoing == todo && incoming == old(incoming)
        invariant incoming !! old(outgoing)
        invariant forall s :: s in old(outgoing) ==> s.content == if s in todo then old(s.content) else Destroyed(old(s.content))
        decreases todo
      {
        var s :| s in todo;
        todo := todo - {s};
        DestroyStream(s);
      }
    }

    lemma RegisteredStreams()
      requires Consistent({})
      ensures incoming <= streams && outgoing <= streams && incoming !! outgoing
      ensures forall s :: s in outgoing ==> !s.survives
    {
    }

    /** reconnected on every stream that outlived the last connection: afterwards each of them that is still open has its
        request waiting to be written. */
    method Reconnect(ghost time: int)
      requires Consistent({}) && FreshAll(time) && connected
      modifies `writeStreams, `isWriting, `injected, incoming`writing, incoming`content, incoming`past
      ensures Consistent({}) && FreshAll(time) && (old(SomethingPending()) ==> SomethingPending())
      ensures forall t :: t in incoming ==> t.past == if old(t.Asks()) then CacheGiven(old(t.past), t.request) else old(t.past)
      ensures forall t :: t in incoming ==> t.content == if old(t.Asks()) then Cached(old(t.content), t.request) else old(t.content)
      ensures if old(isWriting) || !old(SomeoneAsks()) then isWriting == old(isWriting) && injected == old(injected)
              else isWriting && injected == old(injected) + 1
      ensures forall s :: s in incoming && old(s.Open()) ==> s.Open()
      ensures forall s :: s in incoming && s.survives && s.Open() ==> Pending(s.content) != [] && s in writeStreams
    {
      hide *;
      RegisteredStreams();
      ghost var who := set s | s in incoming && s.Asks();
      ghost var contents, pasts := map s | s in incoming :: s.content, map s | s in incoming :: s.past;
      SomeoneIs(who);
      Nobody(who, contents, pasts);
      AskAll(who, contents, pasts, time);
      Everybody(who, contents, pasts);
      KeptOpen(who, contents);
      WritingSurvivors();
    }

    /** All but the streams in `todo` were asked: those among `who` had something to ask for. */
    ghost predicate Halfway(todo: set<MessageStream>, who: set<MessageStream>, contents: map<MessageStream, Content>, pasts: map<MessageStream, Past>)
      reads `incoming, incoming
    {
      && contents.Keys == pasts.Keys == incoming && (forall s :: s in who ==> s in incoming && contents[s].CacheOf?)
      && forall t :: t in incoming ==>
           if t in todo then t.past == pasts[t] && t.content == contents[t] && (t.Asks() <==> t in who)
           else && t.past == (if t in who then CacheGiven(pasts[t], t.request) else pasts[t])
                && t.content == (if t in who then Cached(contents[t], t.request) else contents[t])
                && (t.survives && t.Open() ==> t.writing)
    }

    lemma Nobody(who: set<MessageStream>, contents: map<MessageStream, Content>, pasts: map<MessageStream, Past>)
      requires who == set s | s in incoming && s.Asks()
      requires contents == map s | s in incoming :: s.content
      requires pasts == map s | s in incoming :: s.past
      ensures Halfway(incoming, who, contents, pasts) && who <= incoming
    {
    }

    lemma Everybody(who: set<MessageStream>, contents: map<MessageStream, Content>, pasts: map<MessageStream, Past>)
      requires Halfway({}, who, contents, pasts)
      ensures contents.Keys == pasts.Keys == incoming && forall s :: s in who ==> s in incoming && contents[s].CacheOf?
      ensures forall t :: t in incoming ==> t.past == if t in who then CacheGiven(pasts[t], t.request) else pasts[t]
      ensures forall t :: t in incoming ==> t.content == if t in who then Cached(contents[t], t.request) else contents[t]
      ensures forall t :: t in incoming && t.survives && t.Open() ==> t.writing
    {
      hide MessageStream.Open, Cached, CacheGiven;
    }

    /** The loop over the streams. */
    method AskAll(ghost who: set<MessageStream>, ghost contents: map<MessageStream, Content>, ghost pasts: map<MessageStream, Past>, ghost time: int)
      requires Consistent({}) && FreshAll(time) && connected && Halfway(incoming, who, contents, pasts) && who <= incoming
      modifies `writeStreams, `isWriting, `injected, incoming`writing, incoming`content, incoming`past
      ensures Consistent({}) && FreshAll(time) && (old(SomethingPending()) ==> SomethingPending()) && Halfway({}, who, contents, pasts)
      ensures if old(isWriting) || who == {} then isWriting == old(isWriting) && injected == old(injected)
              else isWriting && injected == old(injected) + 1
    {
      hide *;
      ghost var asked := false;
      var todo := incoming;
      while todo != {}
        invariant Consistent({}) && FreshAll(time) && todo <= incoming && (old(SomethingPending()) ==> SomethingPending())
        invariant Halfway(todo, who, contents, pasts)
        invariant asked <==> exists s :: s in who && s !in todo
        invariant isWriting == (old(isWriting) || asked) && injected == old(injected) + if asked && !old(isWriting) then 1 else 0
        decreases todo
      {
        var s :| s in todo;
        asked := asked || s in who;
        AskNext(s, todo, who, contents, pasts, time);
        todo := todo - {s};
      }
    }

    /** reconnected on one of them. */
    method AskNext(s: MessageStream, ghost todo: set<MessageStream>, ghost who: set<MessageStream>,
                   ghost contents: map<MessageStream, Content>, ghost pasts: map<MessageStream, Past>, ghost time: int)
      requires Consistent({}) && FreshAll(time) && connected && Halfway(todo, who, contents, pasts) && s in todo && s in incoming
      modifies `writeStreams, `isWriting, `injected, s`writing, s`content, s`past
      ensures Consistent({}) && FreshAll(time) && (old(SomethingPending()) ==> SomethingPending())
      ensures Halfway(todo - {s}, who, contents, pasts)
      ensures if old(isWriting) || s !in who then isWriting == old(isWriting) && injected == old(injected)
              else isWriting && injected == old(injected) + 1
    {
      hide Consistent, FreshAll, SomethingPending, CacheGiven, Cached, MessageStream.Open, MessageStream.Asks;
      RegisteredStreams();
      AskAgain(s, time);
    }

    /** The request opens and closes nothing. */
    lemma KeptOpen(who: set<MessageStream>, contents: map<MessageStream, Content>)
      requires contents.Keys == incoming && forall s :: s in who ==> s in incoming && contents[s].CacheOf?
      requires forall t :: t in incoming ==> t.content == if t in who then Cached(contents[t], t.request) else contents[t]
      ensures forall t :: t in incoming && contents[t].CacheOf? && !contents[t].closed ==> t.Open()
    {
    }

    lemma SomeoneIs(who: set<MessageStream>)
      requires who == set s | s in incoming && s.Asks()
      ensures SomeoneAsks() <==> who != {}
      ensures forall s :: s in who ==> s.content.CacheOf?
      ensures forall s :: s in incoming && s.Open() ==> s.content.CacheOf? && !s.content.closed
    {
      if s :| s in incoming && s.Asks() {
        assert s in who;
      }
    }

    /** reconnected on one stream. */
    method AskAgain(s: MessageStream, ghost time: int)
      requires Consistent({}) && FreshAll(time) && connected && s in streams
      modifies `writeStreams, `isWriting, `injected, s`writing, s`content, s`past
      ensures Consistent({}) && FreshAll(time) && (old(SomethingPending()) ==> SomethingPending())
      ensures s.past == if old(s.Asks()) then CacheGiven(old(s.past), s.request) else old(s.past)
      ensures s.content == if old(s.Asks()) then Cached(old(s.content), s.request) else old(s.content)
      ensures (old(s.Open()) ==> s.Open()) && (s.survives && s.Open() ==> s.writing)
      ensures if old(isWriting) || !old(s.Asks()) then isWriting == old(isWriting) && injected == old(injected)
              else isWriting && injected == old(injected) + 1
    {
      hide Consistent, FreshAll, SomethingPending, CacheGiven, Valid;
      if s.survives && !s.writing {
        SurvivorKind(s);
        SendToCache(s, s.request, false);
      }
    }

    lemma SurvivorKind(s: MessageStream)
      requires Consistent({}) && s in streams && s.survives
      ensures s.content.CacheOf? && Writable(encode, s.request)
    {
    }

    lemma WritingSurvivors()
      requires Consistent({})
      ensures forall s :: s in incoming && s.survives && s.Open() && s.writing ==> Pending(s.content) != [] && s in writeStreams
    {
    }

    /** A surviving stream wants its subscription or list back. */
    ghost predicate SomeoneAsks()
      reads `incoming, incoming
    {
      exists s :: s in incoming && s.Asks()
    }

    /** connected, with a connection: what waits is written at once, beginning with the requests of the streams that
        outlived the last one. No write overlaps on a new connection by then. But exactly when there is still a write_loop to
        come from before, or a stream asks for its request to be written and so schedules another one, the loops are out of
        order from now on. */
    method Connected(time: int)
      requires Valid() && FreshAll(time)
      modifies this, streams`writing, streams`content, streams`past, acks
      ensures Valid() && FreshAll(time) && connected && streams == old(streams) && !overlapped && fresh(writeBuffer)
      ensures Ordered() <==> old(Coming()) == 0 && !old(SomeoneAsks())
      ensures staleWrites == old(staleWrites + writesHere) && writesHere == (if isWriting then 1 else 0)
      ensures isWriting <==> sent != []
      ensures old(SomethingPending()) ==> isWriting
      ensures old(exists s :: s in incoming && s.survives && s.Open()) ==> sent != []
      ensures NumberedFrom(sent, 0, old(acks.count))
      ensures start == old(|log|) && old(log) <= log
      ensures incoming == old(incoming) - ClosedBy(log[start..]) && outgoing == old(outgoing) - ClosedBy(log[start..])
      ensures isWriting ==> NoRoom(time, BatchSize(sent))
      ensures forall t :: t in streams ==>
                Orders(t.past) == if t in old(incoming) && old(t.Asks()) then Orders(CacheGiven(old(t.past), t.request)) else old(Orders(t.past))
    {
      hide Consistent, FreshAll, SomethingPending, Carries, Logs, Pending, SomeoneAsks, ClosedBy, NoRoom, BatchSize, Orders, CacheGiven;
      NewConnection(time);
      RegisteredStreams();
      Reconnect(time);
      Requested();
      WriteLoop(time);
      assert sent[0..] == sent;
    }

    lemma Requested()
      requires Consistent({})
      requires forall s :: s in incoming && s.survives && s.Open() ==> Pending(s.content) != [] && s in writeStreams
      ensures (exists s :: s in incoming && s.survives && s.Open()) ==> SomethingPending()
    {
    }

    /** A connection comes with its own write buffer. */
    method NewConnection(ghost time: int)
      requires Consistent({}) && FreshAll(time)
      modifies `connected, `writeBuffer, `sent, `wire, `start, `staleWrites, `writesHere, `overlapped
      ensures Consistent({}) && FreshAll(time) && connected && fresh(writeBuffer)
      ensures sent == [] && start == |log| && Carries(encode, sent, wire, overlapped) && Logs(log, start, sent) && !overlapped
      ensures staleWrites == old(staleWrites + writesHere) && writesHere == 0
      ensures old(SomethingPending()) ==> SomethingPending()
      ensures SomeoneAsks() == old(SomeoneAsks())
    {
      hide Consistent, FreshAll, SomethingPending, SomeoneAsks, Carries;
      CarriesNothing(encode);
      var buffer := new Byte[DEFAULT_BUFFER_SIZE];
      Attach(buffer, time);
      CountStale(time);
      StartLog(time);
    }

    /** Writes under way are on an earlier connection from now on. */
    method CountStale(ghost time: int)
      requires Consistent({}) && FreshAll(time)
      modifies `connected, `staleWrites, `writesHere
      ensures Consistent({}) && FreshAll(time) && connected && staleWrites == old(staleWrites + writesHere) && writesHere == 0
      ensures old(SomethingPending()) ==> SomethingPending()
    {
      hide Consistent, FreshAll, SomethingPending;
      connected, staleWrites, writesHere := true, staleWrites + writesHere, 0;
    }

    ghost method StartLog(time: int)
      requires Consistent({}) && FreshAll(time)
      modifies `sent, `wire, `start, `overlapped
      ensures Consistent({}) && FreshAll(time) && sent == [] && wire == [] && start == |log| && !overlapped
      ensures old(SomethingPending()) ==> SomethingPending()
    {
      hide Consistent, FreshAll, SomethingPending;
      sent, wire, start, overlapped := [], [], |log|, false;
    }

    method Attach(buffer: array<Byte>, ghost time: int)
      requires Consistent({}) && FreshAll(time) && buffer.Length == DEFAULT_BUFFER_SIZE
      modifies `writeBuffer
      ensures Consistent({}) && FreshAll(time) && writeBuffer == buffer
      ensures old(SomethingPending()) ==> SomethingPending()
    {
      hide FreshAll, SomethingPending, Core;
      writeBuffer := buffer;
    }
  }

  // ---------------------------------------------------------------- an overlapping write

  method AddCacheStream(session: Session, m: Msg) returns (s: MessageStream)
    requires session.Valid() && session.FreshAll(0) && Writable(session.encode, m)
    modifies session`streams, session`incoming, session`outgoing
    ensures session.Valid() && session.FreshAll(0) && fresh(s) && session.streams == old(session.streams) + {s}
    ensures s.content == CacheOf(None, false, false) && !s.writing && !s.survives && s.past.given == []
  {
    hide AckWindow.Valid, Writable, Frames, Concat, Session.Consistent;
    s := new MessageStream(1, false, false, _ => false, _ => None, m, CacheOf(None, false, false));
    session.AddStream(s, Neither);
  }

  /** One more invoke stream. */
  method AddInvokeStream(session: Session, rid: Int32, limits: Q.Limits, request: Msg) returns (s: MessageStream)
    requires session.Valid() && limits.policy.PurgePolicy?
    modifies session`streams, session`incoming, session`outgoing
    ensures session.Valid() && fresh(s) && session.streams == old(session.streams) + {s} && s.rid == rid && !s.survives
    ensures s.content == QueueOf(QR.Start(limits).state) && s.past == Past(limits, [], [], []) && forall m :: !s.closes(m)
  {
    hide AckWindow.Valid, Writable, Frames, Concat, Session.Consistent, Remembers;
    s := new MessageStream(rid, false, false, _ => false, _ => None, request, QueueOf(QR.Start(limits).state));
    FreshRemembers(s.content);
    session.AddStream(s, Requester);
  }

  /** One more stream with one message. */
  method SendOne(session: Session, m: Msg) returns (s: MessageStream)
    requires session.Valid() && session.FreshAll(0) && Writable(session.encode, m)
    modifies session`streams, session`incoming, session`outgoing, session`writeStreams, session`isWriting, session`injected
    ensures session.Valid() && session.FreshAll(0) && session.SomethingPending()
    ensures session.streams == old(session.streams) + {s} && fresh(s) && !s.survives && s.past.given == [m]
    ensures if old(session.isWriting) || !session.connected
            then session.isWriting == old(session.isWriting) && session.injected == old(session.injected)
            else session.isWriting && session.injected == old(session.injected) + 1
  {
    hide Session.Consistent, Session.FreshAll, Writable, Carries;
    s := AddCacheStream(session, m);
    session.SendToCache(s, m, false);
    session.MakeValid();
  }

  /** Three messages and a reconnection: the write of the first message is still under way when the new connection comes and
      the second message goes out there; its late completion schedules another write_loop, and that one puts the third
      message into the buffer that the socket is still reading. */
  method LateCompletionOverlaps(encode: (Msg, Int32, Int32) -> Bytes, m1: Msg, m2: Msg, m3: Msg) returns (session: Session)
    requires Writable(encode, m1) && Writable(encode, m2) && Writable(encode, m3)
    ensures fresh(session) && session.Valid() && session.connected && session.overlapped
  {
    hide *;
    session := SendTwice(encode, m1, m2);
    session.WriteCompleted(true);
    var s3 := SendOne(session, m3);
    session.RunInjected(0);
  }

  /** The first two messages, each on a connection of its own. */
  method SendTwice(encode: (Msg, Int32, Int32) -> Bytes, m1: Msg, m2: Msg) returns (session: Session)
    requires Writable(encode, m1) && Writable(encode, m2)
    ensures fresh(session) && fresh(session.acks) && fresh(session.writeBuffer) && fresh(session.streams)
    ensures session.Valid() && session.FreshAll(0) && session.encode == encode
    ensures session.connected && session.staleWrites > 0 && session.writesHere > 0
  {
    hide *;
    session := new Session(encode);
    NoneStale(session);
    var s1 := SendOne(session, m1);
    session.Connected(0);
    var s2 := SendOne(session, m2);
    session.Connected(0);
  }

  lemma NoneStale(session: Session)
    requires session.streams == {}
    ensures session.FreshAll(0)
  {
  }

  /** Which of its two stream maps a session keeps a stream in. */
  datatype Side = Requester | Responder | Neither
}
