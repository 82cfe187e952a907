/** The streams that a session schedules, reduced to what the scheduler calls: peek_next_message_size and
    get_next_message. src/sdk/stream/message_io_stream.cc, ack_stream.cc, ping_stream.cc, simple_stream.cc. */
module Streams {
  import opened Bytes
  import opened Pages
  import Q = Queue
  import QP = QueueProofs
  import QR = QueueRun

  /** QueueOf: MessageQueueStream and OutgoingSubscribeStream. CacheOf: MessageCacheStream. Fixed: AckStream, PingStream
      and SimpleStream, which always have their one message to offer. */
  datatype Content =
    | QueueOf(state: QR.State)
    | CacheOf(cache: Option<Msg>, closed: bool, destroyed: bool)
    | Fixed(msg: Msg)

  ghost predicate Sound(c: Content)
  {
    && (c.QueueOf? ==>
          if QR.Dead(c.state) then c.state.closed
          else Q.Inv(c.state.queue) && (c.state.stray.Some? ==> c.state.queue.elems == []))
    && (c.CacheOf? && c.destroyed ==> c.closed)
  }

  /** Not a cache stream with an empty cache: no such stream is in the middle of asking to be written. */
  predicate CanAsk(c: Content)
  {
    c.CacheOf? ==> c.destroyed || c.cache.Some?
  }

  /** What a live stream still has to send. A Fixed stream does not count: it is sent when it asks to be, not because it
      has something. */
  function Pending(c: Content): seq<Msg>
  {
    match c
    case QueueOf(s) => if s.destroyed then [] else Q.Content(s.queue.elems)
    case CacheOf(cache, _, destroyed) => if destroyed || cache.None? then [] else [cache.value]
    case Fixed(_) => []
  }

  /** Every message that the stream may hand to the session. */
  function Offers(c: Content): seq<Msg>
  {
    match c
    case QueueOf(_) => Pending(c)
    case CacheOf(_, _, _) => Pending(c)
    case Fixed(m) => [m]
  }

  /** The newest element of a subscription queue is inside its time window, so that no time check empties the queue. */
  predicate Fresh(q: Q.Queue, l: Q.Limits, time: int)
  {
    |q.elems| >= 2 && l.policy.SubscribePolicy? ==> Q.ElemTs(q.elems[|q.elems| - 1]) >= time - l.maxDuration
  }

  predicate FreshAt(c: Content, time: int)
  {
    c.QueueOf? && !c.state.destroyed ==> Fresh(c.state.queue, c.state.limits, time)
  }

  /** The time check has nothing more to do. */
  predicate Quiet(q: Q.Queue, l: Q.Limits, time: int)
  {
    time - l.maxDuration <= q.time || |q.elems| <= if l.policy.PurgePolicy? then 2 else 1
  }

  lemma CheckTimeQuiet(q: Q.Queue, l: Q.Limits, time: int)
    requires Q.Inv(q) && Fresh(q, l, time) && q.elems != []
    ensures !QP.TimeCheckEmpties(q, l, time)
    ensures var t := Q.CheckTime(q, l, time);
            Quiet(t.queue, l, time) && Fresh(t.queue, l, time) && t.queue.elems != [] && QP.Kept(q, t.queue, t.dropped)
            && QP.NewestKept(q, t.queue)
  {
    hide Q.Inv, Q.DropOld, QP.Kept, Q.Remain;
    QP.TimeCheckEmptiesExact(q, l, time);
    QP.CheckTimeKept(q, l, time);
    if l.policy.SubscribePolicy? && |q.elems| > 1 {
      QP.DropOldFresh(q, time - l.maxDuration);
    }
  }

  /** Eviction that keeps the newest element leaves something to send if there was something. */
  lemma NewestContent(before: Q.Queue, after: Q.Queue)
    requires Q.Inv(before) && QP.NewestKept(before, after) && Q.Content(before.elems) != []
    ensures Q.Content(after.elems) != []
  {
    hide Q.Content, Q.TotalSize, Q.Shape, Q.Counted;
    QP.ContentNil();
    QP.SplitLast(before);
    QP.SplitLast(after);
    var n := |before.elems|;
    if n >= 2 {
      assert Q.Untouched(before.elems[n - 1]) && Q.ElemOk(before.elems[n - 1]);
    } else {
      assert before.elems[..0] == [];
    }
  }

  /** What a peek leaves behind on a live queue: nothing a second peek at the same time would change. */
  ghost predicate Settled(q: Q.Queue, l: Q.Limits, time: int)
  {
    && Q.Inv(q) && Quiet(q, l, time) && Fresh(q, l, time)
    && (q.elems != [] && q.elems[0].Paged? ==> !Q.IsReady(q.elems[0].group) || q.elems[0].group.unsent != [])
  }

  lemma {:induction false} PeekSettles(q: Q.Queue, l: Q.Limits, time: int)
    requires Q.Inv(q) && Fresh(q, l, time)
    ensures Q.Peek(q, l, time).Ok?
    ensures var r := Q.Peek(q, l, time).value.queue;
            Settled(r, l, time) && (Q.Content(q.elems) != [] ==> Q.Content(r.elems) != [])
    decreases |q.elems|
  {
    hide Q.Inv, Q.Content, Q.CheckTime, QP.Kept, QP.NewestKept, QP.TimeCheckEmpties, Fresh, Quiet;
    if q.elems == [] {
      FewAreFresh(q, l, time);
    } else {
      var checks := time - l.maxDuration > q.time;
      var t := if checks then Q.CheckTime(q, l, time).queue else q;
      Q.CheckTimeShrinks(q, l, time);
      if checks {
        CheckTimeQuiet(q, l, time);
        QP.KeptInv(q, t, Q.CheckTime(q, l, time).dropped);
        if Q.Content(q.elems) != [] {
          NewestContent(q, t);
        }
      } else {
        InTime(q, l, time);
      }
      if t.elems[0].Paged? && Q.IsReady(t.elems[0].group) && t.elems[0].group.unsent == [] {
        var next := t.(elems := t.elems[1..]);
        QP.PopFinished(t);
        QP.KeptInv(t, next, []);
        PopFresh(t, l, time);
        PopContent(t);
        PeekSettles(next, l, time);
      }
    }
  }

  lemma FewAreFresh(q: Q.Queue, l: Q.Limits, time: int)
    requires |q.elems| <= 1
    ensures Fresh(q, l, time) && Quiet(q, l, time)
  {
  }

  lemma InTime(q: Q.Queue, l: Q.Limits, time: int)
    requires time - l.maxDuration <= q.time
    ensures Quiet(q, l, time)
  {
  }

  lemma PopFresh(q: Q.Queue, l: Q.Limits, time: int)
    requires q.elems != [] && Fresh(q, l, time)
    ensures Fresh(q.(elems := q.elems[1..]), l, time)
  {
  }

  lemma PopContent(q: Q.Queue)
    requires q.elems != [] && Q.Unsent(q.elems[0]) == []
    ensures Q.Content(q.elems[1..]) == Q.Content(q.elems)
  {
  }

  lemma SettledPeek(q: Q.Queue, l: Q.Limits, time: int)
    requires Settled(q, l, time)
    ensures Q.Peek(q, l, time).Ok? && Q.Peek(q, l, time).value.queue == q && Q.Peek(q, l, time).value.dropped == []
  {
  }

  /** peek_next_message_size: the stream afterwards and the size. */
  function PeekAt(c: Content, time: int): (Content, int)
    requires c.QueueOf? ==> c.state.destroyed || Q.Peek(c.state.queue, c.state.limits, time).Ok?
  {
    match c
    case QueueOf(s) =>
      if s.destroyed then (c, 0)
      else
        var p := Q.Peek(s.queue, s.limits, time).value;
        (QueueOf(s.(queue := p.queue)), p.size)
    case CacheOf(cache, _, destroyed) => (c, if destroyed || cache.None? then 0 else cache.value.size)
    case Fixed(m) => (c, m.size)
  }

  /** A stream that peek has just reported something for. */
  predicate Ready(c: Content)
  {
    match c
    case QueueOf(s) => !s.destroyed && Q.HasNext(s.queue)
    case CacheOf(cache, _, destroyed) => !destroyed && cache.Some?
    case Fixed(_) => true
  }

  function NextMsg(c: Content): Msg
    requires Ready(c)
  {
    match c
    case QueueOf(s) => Q.Take(s.queue).1
    case CacheOf(cache, _, _) => cache.value
    case Fixed(m) => m
  }

  /** get_next_message. `closing`: check_close_message found the message to be the stream's last one, and the session
      destroyed the stream. */
  function Taken(c: Content, closing: bool): Content
    requires Ready(c)
  {
    match c
    case QueueOf(s) =>
      var t := s.(queue := Q.Take(s.queue).0);
      QueueOf(if closing then QR.Destroyed(t) else t)
    case CacheOf(_, closed, destroyed) => CacheOf(None, closed || closing, destroyed || closing)
    case Fixed(_) => c
  }

  /** get_next_message ends by asking the session to write the stream again. */
  predicate AsksAgain(c: Content, closing: bool)
    requires Ready(c)
  {
    c.QueueOf? && !closing && Q.Take(c.state.queue).0.elems != []
  }

  predicate SameKind(c: Content, d: Content)
  {
    && (c.QueueOf? <==> d.QueueOf?) && (c.CacheOf? <==> d.CacheOf?)
    && (c.QueueOf? ==> c.state.limits == d.state.limits)
  }

  /** A peek reports a size exactly when the stream has something to hand over; what it reports is the size of that
      message; peeking again at the same time, as the session does, reports the same and changes nothing; and a peek never
      silences a stream that has something to send. */
  lemma PeekFacts(c: Content, time: int)
    requires Sound(c) && FreshAt(c, time)
    ensures c.QueueOf? && !c.state.destroyed ==> Q.Peek(c.state.queue, c.state.limits, time).Ok?
    ensures var (d, size) := PeekAt(c, time);
            && Sound(d) && FreshAt(d, time)
            && PeekEnabled(d, time) && PeekAt(d, time) == (d, size)
            && (size > 0 <==> Ready(d)) && size >= 0
            && (size > 0 ==> NextMsg(d).size == size && NextMsg(d) in Offers(d))
            && SameKind(c, d) && (CanAsk(c) ==> CanAsk(d))
            && (Pending(c) != [] ==> size > 0 && Pending(d) != []) && (size == 0 ==> Pending(d) == [])
            && (forall m :: m in Offers(d) ==> m in Offers(c))
  {
    if c.QueueOf? && !c.state.destroyed {
      QueuePeekFacts(c.state.queue, c.state.limits, time);
    }
  }

  predicate PeekEnabled(c: Content, time: int)
  {
    c.QueueOf? ==> c.state.destroyed || Q.Peek(c.state.queue, c.state.limits, time).Ok?
  }

  lemma QueuePeekFacts(q: Q.Queue, l: Q.Limits, time: int)
    requires Q.Inv(q) && Fresh(q, l, time)
    ensures Q.Peek(q, l, time).Ok?
    ensures var p := Q.Peek(q, l, time).value; var again := Q.Peek(p.queue, l, time);
            && Q.Inv(p.queue) && Fresh(p.queue, l, time) && again.Ok? && again.value.queue == p.queue && again.value.size == p.size
            && (p.size > 0 <==> Q.HasNext(p.queue)) && p.size >= 0
            && (p.size > 0 ==> Q.Take(p.queue).1.size == p.size && Q.Take(p.queue).1 in Q.Content(p.queue.elems))
            && (Q.Content(q.elems) != [] ==> p.size > 0 && Q.Content(p.queue.elems) != [])
            && (p.size == 0 ==> Q.Content(p.queue.elems) == [])
            && (forall m :: m in Q.Content(p.queue.elems) ==> m in Q.Content(q.elems))
  {
    hide Q.Inv, Q.Content, QP.Kept, Fresh, Quiet, Q.Peek;
    PeekSettles(q, l, time);
    QP.PeekKept(q, l, time);
    var p := Q.Peek(q, l, time).value;
    SettledPeek(p.queue, l, time);
    QP.PeekKept(p.queue, l, time);
    KeptMembers(q, p.queue, p.dropped);
    NothingLeft(p.queue, l, time);
    SizeFromFront(p.queue, l, time);
    SizeFromFront(q, l, time);
    if p.size > 0 {
      QP.TakeInv(p.queue);
    }
  }

  lemma {:induction false} SizeFromFront(q: Q.Queue, l: Q.Limits, time: int)
    requires Q.Peek(q, l, time).Ok?
    ensures var p := Q.Peek(q, l, time).value;
            p.size == (if Q.HasNext(p.queue) then Q.Unsent(p.queue.elems[0])[0].size else 0)
    decreases |q.elems|
  {
    hide Q.CheckTime;
    if q.elems != [] {
      Q.CheckTimeShrinks(q, l, time);
      var t := if time - l.maxDuration > q.time then Q.CheckTime(q, l, time).queue else q;
      if t.elems[0].Paged? && Q.IsReady(t.elems[0].group) && t.elems[0].group.unsent == [] {
        SizeFromFront(t.(elems := t.elems[1..]), l, time);
      }
    }
  }

  lemma KeptMembers(before: Q.Queue, after: Q.Queue, dropped: seq<Q.Elem>)
    requires QP.Kept(before, after, dropped)
    ensures forall m :: m in Q.Content(after.elems) ==> m in Q.Content(before.elems)
  {
    var a, b, d := Q.Content(after.elems), Q.Content(before.elems), Q.Content(dropped);
    assert multiset(b) == multiset(a) + multiset(d);
    forall m | m in a ensures m in b {
      assert m in multiset(b);
    }
  }

  /** In a settled queue with nothing at the front, the only element there can be is the waiting group, all sent. */
  lemma NothingLeft(q: Q.Queue, l: Q.Limits, time: int)
    requires Settled(q, l, time)
    ensures !Q.HasNext(q) ==> Q.Content(q.elems) == []
  {
  }

  /** Taking the message that peek reported: the stream loses that message and nothing else, and if it still has
      something to send it asks to be written again. */
  lemma TakeFacts(c: Content, closing: bool, time: int)
    requires Sound(c) && FreshAt(c, time) && Ready(c)
    requires closing && c.QueueOf? ==> c.state.limits.policy.PurgePolicy?
    ensures var d := Taken(c, closing);
            && Sound(d) && FreshAt(d, time)
            && SameKind(c, d)
            && NextMsg(c) in Offers(c) && (forall m :: m in Offers(d) ==> m in Offers(c))
            && (!closing && !c.Fixed? ==> Pending(c) == [NextMsg(c)] + Pending(d)) && (c.Fixed? ==> d == c)
            && (closing && !c.Fixed? ==> Finished(d)) && (!closing && !c.Fixed? ==> !Finished(d))
            && (Pending(d) != [] ==> AsksAgain(c, closing)) && (AsksAgain(c, closing) ==> CanAsk(d))
  {
    if c.QueueOf? {
      QueueTakeFacts(c.state.queue, c.state.limits, time);
    }
  }

  /** destroy was called on the stream, and it will neither offer nor take in another message. */
  predicate Finished(c: Content)
  {
    match c
    case QueueOf(s) => s.destroyed && s.closed && s.queue.elems == []
    case CacheOf(cache, closed, destroyed) => destroyed && closed && cache == None
    case Fixed(_) => false
  }

  lemma QueueTakeFacts(q: Q.Queue, l: Q.Limits, time: int)
    requires Q.Inv(q) && Fresh(q, l, time) && Q.HasNext(q)
    ensures var (r, m) := Q.Take(q);
            && Q.Inv(r) && Fresh(r, l, time) && Q.Content(q.elems) == [m] + Q.Content(r.elems)
            && (Q.Content(r.elems) != [] ==> r.elems != [])
  {
    hide Q.Inv, Q.Content;
    QP.TakeInv(q);
    QP.ContentNil();
  }

  /** send_message of a queue stream: the stream afterwards, and whether it goes on to ask to be written. */
  function QueueSent(c: Content, m: Msg, linked: seq<Msg>, close: bool, now: int): (Content, bool)
    requires c.QueueOf? && (QR.Ignored(c.state, close) || c.state.stray.Some? || Q.Shape(c.state.queue))
  {
    if QR.Ignored(c.state, close) then (c, false)
    else
      (QueueOf(QR.Sent(c.state, m, linked, now)),
       c.state.stray.Some? || QR.SendMessage(c.state.queue, c.state.limits, m, linked, now).checks)
  }

  /** A message makes the stream ask unless it is ignored: on a closed stream, or as a later page of a group that is gone. */
  lemma AsksExact(c: Content, m: Msg, linked: seq<Msg>, close: bool, now: int)
    requires Sound(c) && c.QueueOf? && QR.Enabled(c.state, QR.Send(m, linked, close, now))
    ensures QR.Ignored(c.state, close) || c.state.stray.Some? || Q.Shape(c.state.queue)
    ensures QueueSent(c, m, linked, close, now).1
            <==> !(c.state.closed && !close)
                 && (m.pageId <= 0 || c.state.stray.Some? || (c.state.queue.waiting && Q.CanAdd(Q.WaitingGroup(c.state.queue), m)))
  {
    hide Q.Inv, Q.CheckQueue, Q.CanAdd, QP.Arrival, Q.Extend, Q.Push, Q.Abandon;
    if !QR.Ignored(c.state, close) && c.state.stray.None? && !QR.Dead(c.state) {
      QP.ShapeInv(c.state.queue);
    }
  }

  /** A message that does not make the stream ask, because it is ignored, never adds anything to send. */
  lemma QueueSentFacts(c: Content, m: Msg, linked: seq<Msg>, close: bool, now: int)
    requires Sound(c) && c.QueueOf? && QR.Enabled(c.state, QR.Send(m, linked, close, now))
    ensures QR.Ignored(c.state, close) || c.state.stray.Some? || Q.Shape(c.state.queue)
    ensures var (d, asks) := QueueSent(c, m, linked, close, now);
            && Sound(d) && SameKind(c, d)
            && (forall x :: x in Offers(d) ==> x in Offers(c) || x == m || x in linked)
            && (!asks && Pending(d) != [] ==> Pending(c) != [])
  {
    hide QR.SendMessage, Q.Inv, Q.Content, Q.Shape, QP.Arrival;
    if !QR.Ignored(c.state, close) && c.state.stray.None? && !QR.Dead(c.state) {
      QueueSendFacts(c.state.queue, c.state.limits, m, linked, now);
    }
  }

  lemma QueueSendFacts(q: Q.Queue, l: Q.Limits, m: Msg, linked: seq<Msg>, now: int)
    requires Q.Inv(q) && Q.Shape(q) && QP.Arrival(m, linked)
    ensures var o := QR.SendMessage(q, l, m, linked, now);
            && (if o.queue.waiting && o.queue.elems == [] then Q.Inv(o.queue.(waiting := false)) else Q.Inv(o.queue))
            && (forall x :: x in Q.Content(o.queue.elems) ==> x in Q.Content(q.elems) || x == m || x in linked)
            && (!o.checks && Q.Content(o.queue.elems) != [] ==> Q.Content(q.elems) != [])
  {
    hide Q.Inv, Q.Content, Q.Extend, Q.Abandon, Q.Push, Q.CheckQueue, QP.Kept, QP.Exchanged, QP.Strays, QP.Arrival;
    QP.OfferInv(q, m, linked, now);
    var o := Q.Offer(q, m, linked, now);
    QR.ExchangedInv(q, o.queue, o.arrived, o.dropped);
    ExchangedMembers(q, o.queue, o.arrived, o.dropped);
    if o.checks {
      CheckedFacts(o.queue, l, m.createdTs);
    } else if o.queue.waiting && o.queue.elems == [] {
      QP.NotEmpty(o.queue);
    }
  }

  /** The two checks of send_message and set_options, whether or not they drop the waiting group. */
  lemma CheckedFacts(q: Q.Queue, l: Q.Limits, now: int)
    requires Q.Inv(q)
    ensures var t := Q.CheckQueue(q, l, now).queue;
            && (if t.waiting && t.elems == [] then Q.Inv(t.(waiting := false)) else Q.Inv(t))
            && (forall x :: x in Q.Content(t.elems) ==> x in Q.Content(q.elems))
  {
    hide Q.Inv, Q.Content, Q.CheckQueue, QP.Kept, QP.Strays;
    var t := Q.CheckQueue(q, l, now);
    QP.CheckQueueExact(q, l, now);
    QP.ContentNil();
    if QP.Strays(q, l, now) {
      QP.StrayKept(q, l, now);
    } else {
      QP.CheckQueueKept(q, l, now);
      KeptMembers(q, t.queue, t.dropped);
    }
  }

  lemma ExchangedMembers(before: Q.Queue, after: Q.Queue, arrived: seq<Msg>, dropped: seq<Q.Elem>)
    requires QP.Exchanged(before, after, arrived, dropped)
    ensures forall m :: m in Q.Content(after.elems) ==> m in Q.Content(before.elems) || m in arrived
    ensures arrived == [] && Q.Content(after.elems) != [] ==> Q.Content(before.elems) != []
  {
    var a, b, d := Q.Content(after.elems), Q.Content(before.elems), Q.Content(dropped);
    assert multiset(b) + multiset(arrived) == multiset(a) + multiset(d);
    forall m | m in a ensures m in b || m in arrived {
      assert m in multiset(b) + multiset(arrived);
    }
    if a != [] {
      assert a[0] in b || a[0] in arrived;
    }
  }

  /** set_options of a subscription stream only evicts. */
  function WithOptions(c: Content, maxSize: int, maxDuration: int, now: int): Content
    requires c.QueueOf?
  {
    var l := Q.Limits(Q.SubscribePolicy, maxSize, maxDuration);
    var t := Q.CheckQueue(c.state.queue, l, now);
    QueueOf(QR.Settle(c.state.(limits := l), t.queue, t.dropped))
  }

  lemma WithOptionsFacts(c: Content, maxSize: int, maxDuration: int, now: int)
    requires Sound(c) && c.QueueOf? && QR.Enabled(c.state, QR.SetOptions(maxSize, maxDuration, now))
    ensures var d := WithOptions(c, maxSize, maxDuration, now);
            && Sound(d) && d.QueueOf? && c.state.limits.policy == d.state.limits.policy == Q.SubscribePolicy
            && (forall x :: x in Offers(d) ==> x in Offers(c)) && (Pending(d) != [] ==> Pending(c) != [])
  {
    hide Q.Inv, Q.Content, Q.CheckQueue;
    var l := Q.Limits(Q.SubscribePolicy, maxSize, maxDuration);
    var q, t := c.state.queue, Q.CheckQueue(c.state.queue, l, now);
    CheckedFacts(q, l, now);
    if q.elems == [] {
      QR.NothingChecked(q, l, now);
    }
    var d := WithOptions(c, maxSize, maxDuration, now);
    if Pending(d) != [] {
      assert Pending(d)[0] in Pending(c);
    }
  }

  /** send_message of a cache stream on a stream that does not refuse it. */
  function Cached(c: Content, m: Msg): (d: Content)
    requires c.CacheOf?
    ensures d.CacheOf? && d.destroyed == c.destroyed && d.closed == c.closed && (!c.destroyed ==> Pending(d) == [m])
  {
    CacheOf(Some(m), c.closed, c.destroyed)
  }

  /** destroy. */
  function Destroyed(c: Content): (d: Content)
    ensures Pending(d) == [] && (c.Fixed? ==> d == c)
    ensures c.CacheOf? || (c.QueueOf? && c.state.limits.policy.PurgePolicy?) ==> Finished(d)
    ensures c.QueueOf? && c.state.limits.policy.SubscribePolicy? ==> d == QueueOf(c.state.(destroyed := true))
  {
    match c
    case QueueOf(s) => QueueOf(QR.Destroyed(s))
    case CacheOf(_, _, _) => CacheOf(None, true, true)
    case Fixed(_) => c
  }
}
