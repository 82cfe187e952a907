/** A value from set_value on a new session to the receiver at the other end, with nothing assumed on the way: the steps that
    Session.dfy describes one by one, run until nothing is left to write. */
module OneValue {
  import opened Bytes
  import opened Sequences
  import opened Pages
  import opened Receiver
  import opened Pipeline
  import opened Delivery
  import H = Histories
  import Codec
  import Framing
  import Q = Queue
  import QP = QueueProofs
  import QR = QueueRun
  import Streams
  import Sessions
  import T = Transport

  /** The headers of the i-th page of a value, on an INVOKE request that carries nothing else. */
  function PageOverhead(value: Bytes, sequenceId: Int32, i: nat): Size
  {
    var paged := |value| > MAX_PAGE_BODY_SIZE;
    var pageId := if !paged then 0 else if i == 0 then -|Split(value, MAX_PAGE_BODY_SIZE)| else i;
    Codec.TrueHeaderSize(T.InvokeMessage(Msg(0, if paged then sequenceId else 0, pageId, 1, [], 0)).message)
  }

  /** The messages that set_value makes of a value, with their true sizes. */
  function InvokeStamp(value: Bytes, sequenceId: Int32): nat -> Stamp
  {
    (i: nat) => Stamp(PageOverhead(value, sequenceId, i), 0)
  }

  function ValueMessages(value: Bytes, sequenceId: Int32): (p: seq<Msg>)
    ensures p != []
  {
    InvokePages(value, 0, sequenceId, InvokeStamp(value, sequenceId))
  }

  lemma {:induction false} FewIntHeaders(keys: seq<Byte>, headers: map<Byte, Codec.Header>)
    requires forall k :: k in headers ==> headers[k].IntHeader?
    ensures Codec.HeadersSize(keys, headers) <= 5 * |keys|
  {
    if keys != [] {
      FewIntHeaders(keys[1..], headers);
    }
  }

  /** The size of a page is that of its body and its headers. */
  lemma PageSize(value: Bytes, sequenceId: Int32, i: nat)
    requires i < |ValueMessages(value, sequenceId)|
    ensures var m := ValueMessages(value, sequenceId)[i];
            m.size == |m.body| + Codec.TrueHeaderSize(T.InvokeMessage(Msg(0, m.sequenceId, m.pageId, 1, [], 0)).message)
  {
    hide Codec.TrueHeaderSize, T.InvokeMessage, Split;
  }

  lemma BodyFits(value: Bytes, sequenceId: Int32, m: Msg)
    requires m in ValueMessages(value, sequenceId)
    ensures |m.body| <= MAX_PAGE_BODY_SIZE
  {
    hide CompleteGroup, InvokePages, Bodies, PageOverhead;
    InvokePagesComplete(value, 0, sequenceId, InvokeStamp(value, sequenceId));
  }

  /** Every one of them can be written. */
  lemma PageFits(value: Bytes, sequenceId: Int32, m: Msg)
    requires m in ValueMessages(value, sequenceId)
    ensures Codec.Size(T.InvokeMessage(m)) == m.size <= MAX_MESSAGE_SIZE
  {
    hide Codec.HeadersSize, T.PageHeaders, ValueMessages;
    var i :| 0 <= i < |ValueMessages(value, sequenceId)| && ValueMessages(value, sequenceId)[i] == m;
    PageSize(value, sequenceId, i);
    BodyFits(value, sequenceId, m);
    SameHeaders(m, Msg(0, m.sequenceId, m.pageId, 1, [], 0));
    IntHeadersOnly(m);
    FewIntHeaders(Codec.Schema(Codec.InvokeRequest), T.PageHeaders(m));
  }

  lemma SameHeaders(m: Msg, n: Msg)
    requires m.sequenceId == n.sequenceId && m.pageId == n.pageId
    ensures T.PageHeaders(m) == T.PageHeaders(n)
  {
  }

  lemma IntHeadersOnly(m: Msg)
    ensures forall k :: k in T.PageHeaders(m) ==> T.PageHeaders(m)[k].IntHeader?
  {
  }

  /** What the receiver makes of these chunks. */
  ghost predicate Arrives(values: seq<Bytes>, chunks: seq<Bytes>, times: seq<int>, id: StreamId)
  {
    var c := Framing.FeedAll(Framing.Cut([], [], Framing.Open), chunks, T.Parses);
    |c.frames| == |times| && Delivered(c.frames, id, times) == values
  }

  /** The session has this invoke stream and no other, and nobody but the session touched it since the value was sent. */
  ghost predicate Sending(session: Sessions.Session, s: Sessions.MessageStream, value: Bytes, sequenceId: Int32)
    reads session, session.streams, session.acks
  {
    && session.Valid() && session.streams == {s} && session.encode == T.Encoder(T.InvokeMessage)
    && (forall m :: !s.closes(m)) && s.past.limits.policy.PurgePolicy?
    && H.Commands(s.past.events) == [SendEvent(value, sequenceId)] && s.past.given == ValueMessages(value, sequenceId)
  }

  function SendEvent(value: Bytes, sequenceId: Int32): QR.Event
  {
    var p := ValueMessages(value, sequenceId);
    QR.Send(p[0], p[1..], false, 0)
  }

  /** A session with one invoke stream, whose queue holds the value. */
  method StartSending(value: Bytes, rid: Int32, sequenceId: Int32, l: Q.Limits) returns (session: Sessions.Session, s: Sessions.MessageStream)
    requires l.policy.PurgePolicy?
    ensures fresh(session) && fresh(session.acks) && fresh(session.writeBuffer) && fresh(s)
    ensures Sending(session, s, value, sequenceId) && s.rid == rid && !s.survives && session.FreshAll(0) && session.log == []
    ensures !session.connected && session.Ordered() && session.Coming() == 0
  {
    hide Sessions.Session.Valid, Sessions.Session.FreshAll, ValueMessages, T.Encoder, T.InvokeMessage, QR.Enabled, QR.Ignored,
         Q.Shape, Streams.QueueSent, H.QueueGiven, H.Commands, Sessions.Writable, H.Remembers;
    var p := ValueMessages(value, sequenceId);
    session := new Sessions.Session(T.Encoder(T.InvokeMessage));
    s := Sessions.AddInvokeStream(session, rid, l, p[0]);
    ValueStarts(value, sequenceId, l);
    session.SendToQueue(s, p[0], p[1..], false, 0);
    ValueGiven(value, sequenceId, l);
    StillFresh(session, s);
  }

  /** The first message of a value finds an empty queue. */
  lemma ValueStarts(value: Bytes, sequenceId: Int32, l: Q.Limits)
    ensures QR.Enabled(QR.Start(l).state, SendEvent(value, sequenceId))
    ensures forall m :: m in ValueMessages(value, sequenceId) ==> Sessions.Writable(T.Encoder(T.InvokeMessage), m)
  {
    hide T.Encoder, T.InvokeMessage, Sessions.Writable, Codec.Size;
    var p := ValueMessages(value, sequenceId);
    InvokePagesComplete(value, 0, sequenceId, InvokeStamp(value, sequenceId));
    forall m | m in p ensures Sessions.Writable(T.Encoder(T.InvokeMessage), m) {
      PageFits(value, sequenceId, m);
      T.InvokeReadable(m);
    }
  }

  /** The queue lets all of it in. */
  lemma ValueGiven(value: Bytes, sequenceId: Int32, l: Q.Limits)
    ensures var c, v, p := Streams.QueueOf(QR.Start(l).state), ValueMessages(value, sequenceId), H.Past(l, [], [], []);
            && Q.Shape(c.state.queue)
            && var q := H.QueueGiven(c, p, v[0], v[1..], false, 0);
            && q.limits == l && q.given == v && H.Commands(q.events) == [SendEvent(value, sequenceId)]
            && var d := Streams.QueueSent(c, v[0], v[1..], false, 0).0; d.QueueOf? && d.state.limits == l
  {
    hide ValueMessages, CompleteGroup, Q.CheckQueue;
    var v := ValueMessages(value, sequenceId);
    FirstOfValue(value, sequenceId);
    ValueSent(v[0], v[1..], l);
    assert [v[0]] + v[1..] == v;
    assert [SendEvent(value, sequenceId)][1..] == [];
  }

  lemma ValueSent(m: Msg, linked: seq<Msg>, l: Q.Limits)
    requires m.pageId <= 0 && (m.pageId == 0 ==> linked == [])
    ensures var q := QR.Start(l).state.queue; Q.Shape(q) && Q.Offer(q, m, linked, 0).arrived == [m] + linked
    ensures QR.Sent(QR.Start(l).state, m, linked, 0).limits == l
  {
    hide Q.CheckQueue;
  }

  lemma FirstOfValue(value: Bytes, sequenceId: Int32)
    ensures var v := ValueMessages(value, sequenceId);
            CompleteGroup(v) && H.Whole(SendEvent(value, sequenceId)) && v[0].pageId <= 0 && (v[0].pageId == 0 ==> v[1..] == [])
  {
    hide Codec.TrueHeaderSize, ValueMessages;
    InvokePagesComplete(value, 0, sequenceId, InvokeStamp(value, sequenceId));
    SameValue(value, sequenceId);
  }

  lemma SameValue(value: Bytes, sequenceId: Int32)
    ensures ValueMessages(value, sequenceId) == InvokePages(value, 0, sequenceId, InvokeStamp(value, sequenceId))
  {
  }

  lemma StillFresh(session: Sessions.Session, s: Sessions.MessageStream)
    requires session.streams == {s} && s.content.QueueOf? && s.content.state.limits.policy.PurgePolicy?
    ensures session.FreshAll(0)
  {
  }

  /** What went out so far is pages of the value, under the rid of the stream. */
  lemma SentPages(session: Sessions.Session, s: Sessions.MessageStream, value: Bytes, sequenceId: Int32)
    requires Sending(session, s, value, sequenceId) && session.start == 0
    ensures s.content.QueueOf? && H.Ran(s.content.state, s.past)
    ensures |session.sent| <= |ValueMessages(value, sequenceId)|
    ensures forall i :: 0 <= i < |session.sent| ==>
              session.sent[i].msg in ValueMessages(value, sequenceId) && session.sent[i].rid == s.rid && session.log[i].from == s
    ensures Sessions.Logs(session.log, 0, session.sent)
  {
    hide ValueMessages, Sessions.Of, H.Ran, Sessions.Writable, Sessions.Carries;
    session.HandedOver(s);
    H.RanGiven(s.content.state, s.past);
    AllOf(session.log, s);
  }

  /** With one stream, all that was handed over is from it. */
  lemma {:induction false} AllOf(log: seq<Sessions.Handed>, s: Sessions.MessageStream)
    requires forall i :: 0 <= i < |log| ==> log[i].from == s
    ensures |Sessions.Of(log, s)| == |log| && forall i :: 0 <= i < |log| ==> Sessions.Of(log, s)[i] == log[i].msg
  {
    if log != [] {
      AllOf(log[..|log| - 1], s);
    }
  }

  /** Sends a value: connects, and writes until nothing is left. Whatever the chunks in which the other end reads what was
      written, exactly the value comes out there. */
  method SendValue(value: Bytes, rid: Int32, sequenceId: Int32, l: Q.Limits) returns (session: Sessions.Session)
    requires l.policy.PurgePolicy? && |Split(value, MAX_PAGE_BODY_SIZE)| <= 0x8000_0000
    ensures fresh(session) && session.Valid()
    ensures forall chunks: seq<Bytes>, times: seq<int> :: Concat(chunks) == session.wire && |times| == |session.sent| ==>
              Arrives([value], chunks, times, StreamId(rid, true))
  {
    hide Sessions.Session.Valid, Sessions.Session.FreshAll, Sessions.Session.SomeoneAsks, Sessions.NumberedFrom, Arrives,
         ValueMessages, H.Commands, Sessions.Logs, Sessions.Session.SomethingPending;
    var s;
    session, s := StartSending(value, rid, sequenceId, l);
    NobodyAsks(session, s);
    session.Connected(0);
    SentPages(session, s, value, sequenceId);
    while session.isWriting
      invariant Sending(session, s, value, sequenceId) && session.FreshAll(0) && session.connected && session.start == 0
      invariant session.Ordered() && !session.overlapped && (session.isWriting ==> session.writesHere == 1)
      invariant fresh(session.writeBuffer) && |session.sent| <= |ValueMessages(value, sequenceId)|
      decreases session.isWriting, |ValueMessages(value, sequenceId)| - |session.sent|
    {
      session.WriteCompleted(false);
      session.RunInjected(0);
      SentPages(session, s, value, sequenceId);
    }
    forall chunks: seq<Bytes>, times: seq<int> | Concat(chunks) == session.wire && |times| == |session.sent|
      ensures Arrives([value], chunks, times, StreamId(rid, true))
    {
      ValueArrives(session, s, value, sequenceId, chunks, times);
    }
  }

  lemma NobodyAsks(session: Sessions.Session, s: Sessions.MessageStream)
    requires session.Valid() && session.streams == {s} && !s.survives
    ensures !session.SomeoneAsks()
  {
    hide Sessions.MessageStream.Valid, Sessions.Session.Recorded, Sessions.Carries, Sessions.Logs, Streams.Pending;
  }

  /** Every page is readable at the other end and goes out under the id of the stream. */
  lemma PagesGo(value: Bytes, sequenceId: Int32, m: Msg, rid: Int32)
    requires m in ValueMessages(value, sequenceId) && |Split(value, MAX_PAGE_BODY_SIZE)| <= 0x8000_0000
    ensures var a := T.InvokeMessage(m);
            T.Readable(a) && CarriesPage(a, m) && Goes(a, rid, StreamId(rid, true))
  {
    hide Split, Codec.TrueHeaderSize, Codec.TrueSize, T.PageHeaders, T.Readable, CarriesPage;
    PageRange(value, sequenceId, m);
    T.InvokeReadable(m);
    InvokeCarries(m);
  }

  lemma PageRange(value: Bytes, sequenceId: Int32, m: Msg)
    requires m in ValueMessages(value, sequenceId)
    ensures var n := |Split(value, MAX_PAGE_BODY_SIZE)|; n >= 1 && -n <= m.pageId < n
  {
    hide Codec.TrueHeaderSize, Chunks;
    SplitJoin(value, MAX_PAGE_BODY_SIZE);
    ChunksJoin(value);
  }

  /** A stream that was given one value only, and has nothing left, handed over all of it. */
  lemma AllHanded(c: Streams.Content, p: H.Past, value: Bytes, sequenceId: Int32)
    requires c.QueueOf? && H.Ran(c.state, p) && p.limits.policy.PurgePolicy? && !H.EndedByTaking(p) && Streams.Pending(c) == []
    requires H.Commands(p.events) == [SendEvent(value, sequenceId)]
    ensures var r := QR.Exec(QR.Start(p.limits), p.events); r.evicted == multiset{} && Q.Content(r.state.queue.elems) == []
  {
    hide ValueMessages, H.Commands, QR.Possible, QR.Exec, Q.Content, H.Whole;
    FirstOfValue(value, sequenceId);
    H.FewKept(QR.Start(p.limits), p.events);
  }

  /** When nothing is left to write, the value arrives. */
  lemma ValueArrives(session: Sessions.Session, s: Sessions.MessageStream, value: Bytes, sequenceId: Int32, chunks: seq<Bytes>, times: seq<int>)
    requires Sending(session, s, value, sequenceId) && session.start == 0 && session.connected && !session.isWriting && !session.overlapped
    requires |Split(value, MAX_PAGE_BODY_SIZE)| <= 0x8000_0000
    requires Concat(chunks) == session.wire && |times| == |session.sent|
    ensures Arrives([value], chunks, times, StreamId(s.rid, true))
  {
    hide ValueMessages;
    var id, stamp := StreamId(s.rid, true), InvokeStamp(value, sequenceId);
    SentPages(session, s, value, sequenceId);
    assert Sessions.Of(session.log[..0], s) == [];
    forall m | m in ValueMessages(value, sequenceId)
      ensures T.Readable(T.InvokeMessage(m)) && CarriesPage(T.InvokeMessage(m), m) && Goes(T.InvokeMessage(m), s.rid, id)
    {
      PagesGo(value, sequenceId, m, s.rid);
    }
    Emptied(session, s);
    AllHanded(s.content, s.past, value, sequenceId);
    SameValue(value, sequenceId);
    OneGroup(value, sequenceId, stamp);
    ValueToValue(session, s, T.InvokeMessage, id, [value], [sequenceId], [stamp], chunks, times);
  }

  lemma OneGroup(value: Bytes, sequenceId: Int32, stamp: nat -> Stamp)
    ensures Concat(InvokeGroups([value], [sequenceId], [stamp])) == InvokePages(value, 0, sequenceId, stamp)
  {
    hide InvokePages;
    assert InvokeGroups([value], [sequenceId], [stamp]) == [InvokePages(value, 0, sequenceId, stamp)];
    assert Concat<Msg>([]) == [];
  }

  /** A connected session that writes nothing has a stream that waits for nothing. */
  lemma Emptied(session: Sessions.Session, s: Sessions.MessageStream)
    requires session.Valid() && session.connected && !session.isWriting && s in session.streams && forall m :: !s.closes(m)
    ensures Streams.Pending(s.content) == [] && !H.EndedByTaking(s.past)
  {
    hide H.Remembers, Streams.Sound, Streams.Offers, Streams.CanAsk, Sessions.Writable, Sessions.Carries, Sessions.Logs, Streams.Pending,
         H.EndedByTaking, Sessions.Session.Recorded;
  }
}
