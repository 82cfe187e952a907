/** From set_value to get_value across a connection: the pages of a queue stream among everything else that its session
    writes, and the receiver behind the parser at the other end. */
module Delivery {
  import opened Bytes
  import opened Sequences
  import opened Pages
  import opened Receiver
  import opened Pipeline
  import opened GentleRuns
  import H = Histories
  import Codec
  import Framing
  import Q = Queue
  import QR = QueueRun
  import Sessions
  import T = Transport

  /** The message is of a type with pages and carries this one, with the sequence id that its type lets through: a SET
      request has a page id on the wire and no sequence id. */
  predicate CarriesPage(a: Codec.AnyMessage, m: Msg)
  {
    && a.Full? && Codec.HasBody(a.message.kind) && Codec.PAGE_ID in Codec.Schema(a.message.kind)
    && Codec.ReadInt(Codec.OnWire(a.message).headers, Codec.SEQUENCE_ID) == m.sequenceId && Codec.ReadInt(a.message.headers, Codec.PAGE_ID) == m.pageId
    && a.message.body == m.body
  }

  /** A page in a SET request goes without its sequence id. */
  lemma SetCarries(a: Codec.Message, m: Msg)
    requires a.kind == Codec.SetRequest && Codec.ReadInt(a.headers, Codec.PAGE_ID) == m.pageId && a.body == m.body
    ensures CarriesPage(Codec.Full(a), Unnumbered(m))
    ensures CarriesPage(Codec.Full(a), m) <==> m.sequenceId == 0
  {
    assert Codec.SEQUENCE_ID !in Codec.OnWire(a).headers;
  }

  lemma InvokeCarries(m: Msg)
    requires -0x8000_0000 <= m.pageId < 0x8000_0000
    ensures CarriesPage(T.InvokeMessage(m), m)
  {
  }

  /** The page in a received message. */
  function PageOf(r: Codec.Received, now: int): Msg
    requires r.what.Full?
  {
    Msg(r.rid, Codec.ReadInt(r.what.message.headers, Codec.SEQUENCE_ID), Codec.ReadInt(r.what.message.headers, Codec.PAGE_ID),
        Codec.TrueSize(r.what.message), r.what.message.body, now)
  }

  /** A stream is known by its rid and by whether requests or responses go out on it. */
  datatype StreamId = StreamId(rid: Int32, requests: bool)

  /** Message::is_request of a message with full static headers. */
  predicate Goes(a: Codec.AnyMessage, rid: Int32, id: StreamId)
  {
    a.Full? && rid == id.rid && (Codec.TypeCode(a.message.kind) < 0x80 <==> id.requests)
  }

  /** What the session wrote for one of its streams. */
  function OnStream(message: Msg -> Codec.AnyMessage, sent: seq<Sessions.Sent>, id: StreamId): seq<Msg>
  {
    if sent == [] then []
    else (if Goes(message(sent[0].msg), sent[0].rid, id) then [sent[0].msg] else []) + OnStream(message, sent[1..], id)
  }

  /** What arrives for one of the streams at the other end, and when. */
  function ArrivedOn(received: seq<Result<Codec.Received>>, id: StreamId, times: seq<int>): seq<Msg>
    requires |times| == |received|
  {
    if received == [] then []
    else
      (match received[0]
       case Ok(r) => if Goes(r.what, r.rid, id) then [PageOf(r, times[0])] else []
       case Err(_) => []) + ArrivedOn(received[1..], id, times[1..])
  }

  // ---------------------------------------------------------------- the receiver looks at neither sizes nor times

  predicate Like(a: Msg, b: Msg)
  {
    a.rid == b.rid && a.sequenceId == b.sequenceId && a.pageId == b.pageId && a.body == b.body
  }

  ghost predicate AllLike(a: seq<Msg>, b: seq<Msg>)
  {
    |a| == |b| && forall i :: 0 <= i < |a| ==> Like(a[i], b[i])
  }

  ghost predicate SameState(r: Receiver, q: Receiver)
  {
    && r.merger == q.merger && r.live == q.live && (r.cache.None? <==> q.cache.None?)
    && (r.cache.Some? ==>
          var c, d := r.cache.value, q.cache.value;
          c.rid == d.rid && c.sequenceId == d.sequenceId && c.lastPage == d.lastPage && AllLike(c.pages, d.pages))
  }

  lemma ReceiveLike(r: Receiver, q: Receiver, m: Msg, n: Msg)
    requires SameState(r, q) && Like(m, n)
    ensures SameState(Receive(r, m).0, Receive(q, n).0)
    ensures var x, y := Receive(r, m).1, Receive(q, n).1; (x.None? <==> y.None?) && (x.Some? ==> AllLike(x.value, y.value))
  {
    hide AllLike, Merge, FirstPage;
    MergeLike(r, q, m, n);
    FirstPageLike(Merge(r, m), Merge(q, n), m, n);
  }

  lemma MergeLike(r: Receiver, q: Receiver, m: Msg, n: Msg)
    requires SameState(r, q) && Like(m, n)
    ensures SameState(Merge(r, m), Merge(q, n))
  {
    hide AllLike;
    if r.cache.Some? {
      AllLikeSnoc(r.cache.value.pages, q.cache.value.pages, m, n);
    }
  }

  lemma FirstPageLike(r: Receiver, q: Receiver, m: Msg, n: Msg)
    requires SameState(r, q) && Like(m, n)
    ensures SameState(FirstPage(r, m).0, FirstPage(q, n).0)
    ensures var x, y := FirstPage(r, m).1, FirstPage(q, n).1; (x.None? <==> y.None?) && (x.Some? ==> AllLike(x.value, y.value))
  {
    hide AllLike;
    assert AllLike([m], [n]) by {
      AllLikeNil();
      AllLikeSnoc([], [], m, n);
      assert [m] == [] + [m] && [n] == [] + [n];
    }
  }

  lemma AllLikeNil()
    ensures AllLike([], [])
  {
  }

  lemma AllLikeSnoc(a: seq<Msg>, b: seq<Msg>, m: Msg, n: Msg)
    requires AllLike(a, b) && Like(m, n)
    ensures AllLike(a + [m], b + [n])
  {
  }

  lemma {:induction false} DeliverLike(r: Receiver, q: Receiver, a: seq<Msg>, b: seq<Msg>)
    requires SameState(r, q) && AllLike(a, b)
    ensures ValuesOf(Deliver(r, a).1) == ValuesOf(Deliver(q, b).1)
    decreases |a|
  {
    hide Receive, SameState, Bodies;
    if a != [] {
      ReceiveLike(r, q, a[0], b[0]);
      var x, y := Receive(r, a[0]), Receive(q, b[0]);
      DeliverLike(x.0, y.0, a[1..], b[1..]);
      ValuesFirst(x.1, Deliver(x.0, a[1..]).1);
      ValuesFirst(y.1, Deliver(y.0, b[1..]).1);
      if x.1.Some? {
        BodiesLike(x.1.value, y.1.value);
      }
    }
  }

  lemma ValuesFirst(out: Option<seq<Msg>>, rest: seq<seq<Msg>>)
    ensures ValuesOf(Listed(out) + rest) == (if out.Some? then [Concat(Bodies(out.value))] else []) + ValuesOf(rest)
  {
    hide Bodies;
    if out.None? {
      assert Listed(out) + rest == rest;
    } else {
      assert (Listed(out) + rest)[1..] == rest;
    }
  }

  lemma {:induction false} BodiesLike(a: seq<Msg>, b: seq<Msg>)
    requires AllLike(a, b)
    ensures Bodies(a) == Bodies(b)
  {
    if a != [] {
      BodiesLike(a[1..], b[1..]);
    }
  }

  // ---------------------------------------------------------------- across the wire

  lemma CarriedPage(a: Codec.AnyMessage, m: Msg, rid: Int32, ackId: Int32, now: int)
    requires CarriesPage(a, m)
    ensures var r := Codec.Arrival(a, rid, ackId); r.what.Full? && Like(PageOf(r, now), m.(rid := rid))
  {
  }

  lemma SameStream(a: Codec.AnyMessage, rid: Int32, ackId: Int32, id: StreamId)
    ensures var r := Codec.Arrival(a, rid, ackId); Goes(r.what, r.rid, id) <==> Goes(a, rid, id)
  {
  }

  lemma {:induction false} ArrivedLike(message: Msg -> Codec.AnyMessage, sent: seq<Sessions.Sent>, id: StreamId, times: seq<int>)
    requires |times| == |sent| && forall x :: x in sent && Goes(message(x.msg), x.rid, id) ==> CarriesPage(message(x.msg), x.msg)
    ensures AllLike(ArrivedOn(T.Intended(T.AsOutgoing(message, sent)), id, times), Wire(OnStream(message, sent, id), id.rid))
  {
    hide CarriesPage, PageOf, Like, Codec.Arrival, Goes;
    if sent != [] {
      var x := sent[0];
      ArrivedLike(message, sent[1..], id, times[1..]);
      var received := T.Intended(T.AsOutgoing(message, sent));
      assert T.AsOutgoing(message, sent)[1..] == T.AsOutgoing(message, sent[1..]);
      assert received[1..] == T.Intended(T.AsOutgoing(message, sent[1..]));
      var r := Codec.Arrival(message(x.msg), x.rid, x.ack);
      assert received[0] == Ok(r);
      SameStream(message(x.msg), x.rid, x.ack, id);
      if Goes(message(x.msg), x.rid, id) {
        GoesHere(message(x.msg), x.rid, id);
        CarriedPage(message(x.msg), x.msg, id.rid, x.ack, times[0]);
        assert OnStream(message, sent, id)[1..] == OnStream(message, sent[1..], id);
      }
    }
  }

  lemma GoesHere(a: Codec.AnyMessage, rid: Int32, id: StreamId)
    requires Goes(a, rid, id)
    ensures rid == id.rid
  {
  }

  lemma OnStreamSnoc(message: Msg -> Codec.AnyMessage, sent: seq<Sessions.Sent>, x: Sessions.Sent, id: StreamId)
    ensures OnStream(message, sent + [x], id) == OnStream(message, sent, id) + if Goes(message(x.msg), x.rid, id) then [x.msg] else []
    decreases |sent|
  {
    hide Goes;
    if sent == [] {
      assert sent + [x] == [x];
    } else {
      OnStreamSnoc(message, sent[1..], x, id);
      assert (sent + [x])[1..] == sent[1..] + [x];
    }
  }

  /** The stream is the one with this id among those that sent something on this connection. */
  predicate Identifies(log: seq<Sessions.Handed>, start: nat, sent: seq<Sessions.Sent>, message: Msg -> Codec.AnyMessage,
                       s: Sessions.MessageStream, id: StreamId)
    requires start + |sent| == |log|
  {
    forall i :: 0 <= i < |sent| ==> (log[start + i].from == s <==> Goes(message(sent[i].msg), sent[i].rid, id))
  }

  /** What went out under the id of a stream is what the stream handed over. */
  lemma {:induction false} StreamSent(log: seq<Sessions.Handed>, start: nat, sent: seq<Sessions.Sent>, message: Msg -> Codec.AnyMessage,
                                      s: Sessions.MessageStream, id: StreamId)
    requires Sessions.Logs(log, start, sent) && Identifies(log, start, sent, message, s, id)
    ensures Sessions.Of(log[start..], s) == OnStream(message, sent, id)
    decreases |sent|
  {
    hide Goes;
    if sent != [] {
      var n := |sent| - 1;
      var h, x := log[start + n], sent[n];
      StreamSent(log[..start + n], start, sent[..n], message, s, id);
      assert log[start..] == log[..start + n][start..] + [h] && sent == sent[..n] + [x];
      Sessions.OfSnoc(log[..start + n][start..], h, s);
      OnStreamSnoc(message, sent[..n], x, id);
    }
  }

  /** What the receiver at the other end makes of one stream of a session, for every chunking of what the session wrote. */
  function Delivered(frames: seq<Bytes>, id: StreamId, times: seq<int>): seq<Bytes>
    requires |times| == |frames|
  {
    ValuesOf(Deliver(IDLE, ArrivedOn(T.DecodedAll(frames), id, times)).1)
  }

  /** From a queue stream of a session to the values at the other end: what comes out there is what the receiver makes of
      the messages of the stream's own run. */
  lemma StreamToValues(session: Sessions.Session, s: Sessions.MessageStream, message: Msg -> Codec.AnyMessage, id: StreamId,
                       chunks: seq<Bytes>, times: seq<int>)
    requires session.Valid() && !session.overlapped && session.encode == T.Encoder(message)
    requires s in session.streams && s.content.QueueOf? && Sessions.Of(session.log[..session.start], s) == []
    requires Identifies(session.log, session.start, session.sent, message, s, id)
    requires forall x :: x in session.sent ==> T.Readable(message(x.msg))
    requires forall x :: x in session.sent && Goes(message(x.msg), x.rid, id) ==> CarriesPage(message(x.msg), x.msg)
    requires Concat(chunks) == session.wire && |times| == |session.sent|
    ensures H.Ran(s.content.state, s.past)
    ensures var c := Framing.FeedAll(Framing.Cut([], [], Framing.Open), chunks, T.Parses);
            |c.frames| == |times|
            && Delivered(c.frames, id, times)
               == ValuesOf(Deliver(IDLE, Wire(QR.Exec(QR.Start(s.past.limits), s.past.events).sent, id.rid)).1)
  {
    hide Sessions.Session.Consistent, Sessions.Carries, Sessions.Of, Identifies, QR.Possible, QR.Exec, Deliver, ValuesOf, T.DecodedAll,
         ArrivedOn, OnStream, Wire, Framing.FeedAll, Goes, CarriesPage, T.Readable, AllLike, SameState;
    session.HandedOver(s);
    assert session.log[..session.start] + session.log[session.start..] == session.log;
    StreamSent(session.log, session.start, session.sent, message, s, id);
    T.SessionWireReads(session, message, chunks);
    ArrivedLike(message, session.sent, id, times);
    IdleAlike();
    assert [] + OnStream(message, session.sent, id) == OnStream(message, session.sent, id);
    DeliverLike(IDLE, IDLE, ArrivedOn(T.Intended(T.AsOutgoing(message, session.sent)), id, times),
                Wire(OnStream(message, session.sent, id), id.rid));
  }

  /** Byte values sent with set_value on one stream of a session, whatever the other streams send in between: of what the
      session wrote, in any chunks, the receiver gets the values unchanged, in order and at most once, when no partly sent group
      was evicted, or the ids are fresh, or no abandoned group disturbs another; and all of them when nothing was evicted and
      the queue has drained. */
  lemma ValueToValue(session: Sessions.Session, s: Sessions.MessageStream, message: Msg -> Codec.AnyMessage, id: StreamId,
                     values: seq<Bytes>, ids: seq<Int32>, stamps: seq<nat -> Stamp>, chunks: seq<Bytes>, times: seq<int>)
    requires session.Valid() && !session.overlapped && session.encode == T.Encoder(message)
    requires s in session.streams && s.content.QueueOf? && Sessions.Of(session.log[..session.start], s) == []
    requires Identifies(session.log, session.start, session.sent, message, s, id)
    requires forall x :: x in session.sent ==> T.Readable(message(x.msg))
    requires forall x :: x in session.sent && Goes(message(x.msg), x.rid, id) ==> CarriesPage(message(x.msg), x.msg)
    requires Concat(chunks) == session.wire && |times| == |session.sent|
    requires |values| == |ids| == |stamps| && s.past.given == Concat(InvokeGroups(values, ids, stamps))
    ensures QR.Possible(QR.Start(s.past.limits), s.past.events)
    ensures var c := Framing.FeedAll(Framing.Cut([], [], Framing.Open), chunks, T.Parses);
            |c.frames| == |times|
            && var out := Delivered(c.frames, id, times); var r := QR.Exec(QR.Start(s.past.limits), s.past.events);
               && (AllGentle(QR.Start(s.past.limits), s.past.events) ==> out == Values(r.groups))
               && (AllGentle(QR.Start(s.past.limits), s.past.events) || FreshIds(ids) || Undisturbed(Clear, WireGroups(r.groups, id.rid))
                   ==> Subseq(out, values))
               && (r.evicted == multiset{} && Q.Content(r.state.queue.elems) == [] ==> out == values)
  {
    hide Sessions.Session.Valid, QR.Possible, QR.Exec, Deliver, ValuesOf, Delivered, Identifies, T.Readable, CarriesPage, Goes, Sessions.Of,
         Framing.FeedAll, InvokeGroups, FreshIds, Undisturbed, WireGroups, AllGentle, Q.Content, Subseq, Values;
    StreamToValues(session, s, message, id, chunks, times);
    var l, e := s.past.limits, s.past.events;
    var r := QR.Exec(QR.Start(l), e);
    if AllGentle(QR.Start(l), e) {
      GentleValues(l, e, id.rid, values, ids, stamps);
    }
    if FreshIds(ids) || Undisturbed(Clear, WireGroups(r.groups, id.rid)) {
      SetValueInOrder(l, e, id.rid, values, ids, stamps);
    }
    if r.evicted == multiset{} && Q.Content(r.state.queue.elems) == [] {
      SetValuePipeline(l, e, id.rid, values, ids, stamps);
    }
  }

  lemma IdleAlike()
    ensures SameState(IDLE, IDLE)
  {
  }
}
