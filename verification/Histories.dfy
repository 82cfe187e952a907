/** What a stream was given and what it handed to its session, over the whole life of the stream. */
module Histories {
  import opened Bytes
  import opened Sequences
  import opened Pages
  import opened Streams
  import Q = Queue
  import QR = QueueRun

  /** `given`: the messages that send_message let in; `handed`: those that get_next_message returned. For a queue stream,
      `limits` are those it started with and `events` what happened to it. */
  datatype Past = Past(limits: Q.Limits, events: seq<QR.Event>, given: seq<Msg>, handed: seq<Msg>)

  /** The stream is what its past has made of it. A queue stream is at the end of a run; a cache stream handed over and holds
      some of what it was given, in order; a fixed stream hands over what it was given last, as often as it is asked to. */
  ghost predicate Remembers(c: Content, p: Past)
  {
    match c
    case QueueOf(s) => Ran(s, p)
    case CacheOf(_, _, _) => Subseq(p.handed + Pending(c), p.given) && p.events == []
    case Fixed(m) => m in p.given && (forall x :: x in p.handed ==> x in p.given) && p.events == []
  }

  ghost predicate Ran(s: QR.State, p: Past)
  {
    && QR.Possible(QR.Start(p.limits), p.events)
    && var r := QR.Exec(QR.Start(p.limits), p.events); r.state == s && r.accepted == p.given && r.sent == p.handed
  }

  /** A stream as its constructor leaves it. */
  function NewPast(c: Content): Past
  {
    match c
    case QueueOf(s) => Past(s.limits, [], [], [])
    case CacheOf(cache, _, _) => Past(Q.Limits(Q.PurgePolicy, 0, 0), [], if cache.Some? then [cache.value] else [], [])
    case Fixed(m) => Past(Q.Limits(Q.PurgePolicy, 0, 0), [], [m], [])
  }

  lemma FreshRemembers(c: Content)
    requires c.QueueOf? ==> c.state == QR.Start(c.state.limits).state
    ensures Remembers(c, NewPast(c))
  {
    if c.CacheOf? {
      SubseqRefl(Pending(c));
      if c.cache.Some? && c.destroyed {
        SubseqWithout<Msg>([], [c.cache.value], []);
      }
    }
  }

  /** One event more. */
  function Later(p: Past, ev: QR.Event, given: seq<Msg>, handed: seq<Msg>): Past
  {
    p.(events := p.events + [ev], given := p.given + given, handed := p.handed + handed)
  }

  /** What the stream was told to do and what it was given: everything but what its session got out of it. */
  function Orders(p: Past): (Q.Limits, seq<QR.Event>, seq<Msg>)
  {
    (p.limits, Commands(p.events), p.given)
  }

  /** The events without the peeks and takes of the session. */
  function Commands(events: seq<QR.Event>): seq<QR.Event>
  {
    if events == [] then []
    else (if events[0].PeekAt? || events[0].TakeNext? then [] else [events[0]]) + Commands(events[1..])
  }

  lemma {:induction false} CommandsSnoc(events: seq<QR.Event>, ev: QR.Event)
    ensures Commands(events + [ev]) == Commands(events) + if ev.PeekAt? || ev.TakeNext? then [] else [ev]
    decreases |events|
  {
    if events == [] {
      assert [ev][1..] == [];
    } else {
      CommandsSnoc(events[1..], ev);
      assert (events + [ev])[1..] == events[1..] + [ev];
    }
  }

  /** The session took a message that closed the stream. */
  predicate EndedByTaking(p: Past)
  {
    QR.TakeNext(true) in p.events
  }

  lemma OneMore(p: Past, ev: QR.Event, given: seq<Msg>, handed: seq<Msg>)
    ensures var q := Later(p, ev, given, handed);
            && q.limits == p.limits && q.given == p.given + given && q.handed == p.handed + handed
            && Commands(q.events) == Commands(p.events) + (if ev.PeekAt? || ev.TakeNext? then [] else [ev])
            && (EndedByTaking(q) <==> EndedByTaking(p) || ev == QR.TakeNext(true))
            && (given == [] ==> q.given == p.given) && (handed == [] ==> q.handed == p.handed)
  {
    CommandsSnoc(p.events, ev);
  }

  lemma RanOn(s: QR.State, p: Past, ev: QR.Event) returns (r: QR.Run)
    requires Ran(s, p) && QR.Enabled(s, ev)
    ensures r.state == s && r.accepted == p.given && r.sent == p.handed
    ensures forall given, handed ::
              QR.Step(r, ev).accepted == p.given + given && QR.Step(r, ev).sent == p.handed + handed ==>
                Ran(QR.Step(r, ev).state, Later(p, ev, given, handed))
  {
    hide QR.Possible, QR.Exec, QR.Step, QR.Enabled;
    r := QR.Exec(QR.Start(p.limits), p.events);
    QR.ExecOne(r, ev);
    QR.ExecAppend(QR.Start(p.limits), p.events, [ev]);
  }

  /** No message came or went. */
  ghost predicate Unasked(p: Past, q: Past)
  {
    q.given == p.given && q.handed == p.handed && (EndedByTaking(q) <==> EndedByTaking(p))
  }

  // ---------------------------------------------------------------- what happens to a stream

  function Peeked(c: Content, p: Past, time: int): Past
  {
    if c.QueueOf? then Later(p, QR.PeekAt(time), [], []) else p
  }

  lemma PeekSteps(r: QR.Run, time: int)
    requires QR.Enabled(r.state, QR.PeekAt(time))
    ensures var a := QR.Step(r, QR.PeekAt(time));
            a.accepted == r.accepted + [] && a.sent == r.sent + [] && PeekAt(QueueOf(r.state), time).0 == QueueOf(a.state)
  {
    hide Q.Peek;
  }

  lemma QueuePeeked(state: QR.State, p: Past, time: int)
    requires Ran(state, p) && QR.Enabled(state, QR.PeekAt(time))
    ensures var q := Later(p, QR.PeekAt(time), [], []);
            PeekAt(QueueOf(state), time).0.QueueOf? && Ran(PeekAt(QueueOf(state), time).0.state, q)
            && Orders(q) == Orders(p) && Unasked(p, q)
  {
    hide Ran, Later, Commands, EndedByTaking, QR.Step, QR.Enabled, PeekAt;
    var r := RanOn(state, p, QR.PeekAt(time));
    PeekSteps(r, time);
    OneMore(p, QR.PeekAt(time), [], []);
    assert Commands(p.events) + [] == Commands(p.events);
  }

  lemma PeekedRemembers(c: Content, p: Past, time: int)
    requires Remembers(c, p) && PeekEnabled(c, time)
    ensures Remembers(PeekAt(c, time).0, Peeked(c, p, time))
    ensures Orders(Peeked(c, p, time)) == Orders(p) && Unasked(p, Peeked(c, p, time))
  {
    hide Ran, Later, Orders, Unasked, Q.Peek;
    if c.QueueOf? {
      QueuePeeked(c.state, p, time);
    } else {
      Untouched(p);
    }
  }

  lemma Untouched(p: Past)
    ensures Unasked(p, p)
  {
  }

  /** get_next_message. */
  function Handing(c: Content, p: Past, closing: bool): Past
    requires Ready(c)
  {
    if c.QueueOf? then Later(p, QR.TakeNext(closing), [], [NextMsg(c)]) else p.(handed := p.handed + [NextMsg(c)])
  }

  lemma TakeSteps(r: QR.Run, closing: bool)
    requires QR.Enabled(r.state, QR.TakeNext(closing))
    ensures Ready(QueueOf(r.state))
    ensures var a := QR.Step(r, QR.TakeNext(closing));
            && a.accepted == r.accepted + [] && a.sent == r.sent + [NextMsg(QueueOf(r.state))]
            && Taken(QueueOf(r.state), closing) == QueueOf(a.state)
  {
    hide Q.Take;
  }

  lemma QueueHanding(state: QR.State, p: Past, closing: bool)
    requires Ran(state, p) && QR.Enabled(state, QR.TakeNext(closing))
    ensures Ready(QueueOf(state))
    ensures var m := NextMsg(QueueOf(state)); var q := Later(p, QR.TakeNext(closing), [], [m]);
            && Taken(QueueOf(state), closing).QueueOf? && Ran(Taken(QueueOf(state), closing).state, q)
            && Orders(q) == Orders(p) && q.handed == p.handed + [m]
            && (EndedByTaking(q) <==> EndedByTaking(p) || closing)
  {
    hide Ran, Later, Commands, EndedByTaking, QR.Step, QR.Enabled, Ready, Taken, NextMsg;
    var r := RanOn(state, p, QR.TakeNext(closing));
    TakeSteps(r, closing);
    OneMore(p, QR.TakeNext(closing), [], [NextMsg(QueueOf(state))]);
    assert Commands(p.events) + [] == Commands(p.events);
  }

  lemma HandingRemembers(c: Content, p: Past, closing: bool)
    requires Remembers(c, p) && Ready(c) && (closing && c.QueueOf? ==> c.state.limits.policy.PurgePolicy?)
    ensures Remembers(Taken(c, closing), Handing(c, p, closing))
    ensures Orders(Handing(c, p, closing)) == Orders(p) && Handing(c, p, closing).handed == p.handed + [NextMsg(c)]
    ensures EndedByTaking(Handing(c, p, closing)) <==> EndedByTaking(p) || (c.QueueOf? && closing)
  {
    hide Ran, Later, Commands, Q.Take, Q.HasNext;
    if c.QueueOf? {
      QueueHanding(c.state, p, closing);
    } else if c.CacheOf? {
      assert p.handed + [c.cache.value] + [] == p.handed + [c.cache.value];
    }
  }

  /** What send_message lets into the queue. */
  function QueueArrived(c: Content, m: Msg, linked: seq<Msg>, close: bool, now: int): seq<Msg>
    requires c.QueueOf? && (QR.Ignored(c.state, close) || c.state.stray.Some? || Q.Shape(c.state.queue))
  {
    if QR.Ignored(c.state, close) then [] else if c.state.stray.Some? then [m] else Q.Offer(c.state.queue, m, linked, now).arrived
  }

  /** send_message of a queue stream. */
  function QueueGiven(c: Content, p: Past, m: Msg, linked: seq<Msg>, close: bool, now: int): Past
    requires c.QueueOf? && (QR.Ignored(c.state, close) || c.state.stray.Some? || Q.Shape(c.state.queue))
  {
    Later(p, QR.Send(m, linked, close, now), QueueArrived(c, m, linked, close, now), [])
  }

  lemma QueueGivenRemembers(c: Content, p: Past, m: Msg, linked: seq<Msg>, close: bool, now: int)
    requires Remembers(c, p) && c.QueueOf? && QR.Enabled(c.state, QR.Send(m, linked, close, now))
    ensures QR.Ignored(c.state, close) || c.state.stray.Some? || Q.Shape(c.state.queue)
    ensures Remembers(QueueSent(c, m, linked, close, now).0, QueueGiven(c, p, m, linked, close, now))
    ensures var q := QueueGiven(c, p, m, linked, close, now);
            q.handed == p.handed && EndedByTaking(q) == EndedByTaking(p)
            && Commands(q.events) == Commands(p.events) + [QR.Send(m, linked, close, now)]
  {
    hide Q.Offer, Q.CheckQueue, Ran, Q.Shape, Later, Commands, EndedByTaking;
    var r := RanOn(c.state, p, QR.Send(m, linked, close, now));
    OneMore(p, QR.Send(m, linked, close, now), QueueArrived(c, m, linked, close, now), []);
  }

  function CacheGiven(p: Past, m: Msg): Past
  {
    p.(given := p.given + [m])
  }

  lemma CacheGivenRemembers(c: Content, p: Past, m: Msg)
    requires Remembers(c, p) && c.CacheOf?
    ensures Remembers(Cached(c, m), CacheGiven(p, m))
  {
    QR.SubseqPrefix(p.handed, Pending(c), p.given);
    var pending := Pending(Cached(c, m));
    SubseqRefl(pending);
    if pending == [] {
      SubseqWithout<Msg>([], [m], []);
    }
    SubseqConcat(p.handed, p.given, pending, [m]);
  }

  lemma FixedGivenRemembers(c: Content, p: Past, m: Msg)
    requires Remembers(c, p) && c.Fixed?
    ensures Remembers(Fixed(m), CacheGiven(p, m))
  {
  }

  lemma OptionsRemember(c: Content, p: Past, maxSize: int, maxDuration: int, now: int)
    requires Remembers(c, p) && c.QueueOf? && QR.Enabled(c.state, QR.SetOptions(maxSize, maxDuration, now))
    ensures var q := Later(p, QR.SetOptions(maxSize, maxDuration, now), [], []);
            Remembers(WithOptions(c, maxSize, maxDuration, now), q) && Unasked(p, q)
  {
    hide Q.CheckQueue, Ran, Later, Commands, EndedByTaking;
    var r := RanOn(c.state, p, QR.SetOptions(maxSize, maxDuration, now));
    OneMore(p, QR.SetOptions(maxSize, maxDuration, now), [], []);
  }

  function Ended(c: Content, p: Past): Past
  {
    if c.QueueOf? then Later(p, QR.Destroy, [], []) else p
  }

  lemma EndedRemembers(c: Content, p: Past)
    requires Remembers(c, p)
    ensures Remembers(Destroyed(c), Ended(c, p)) && Unasked(p, Ended(c, p))
  {
    if c.QueueOf? {
      hide Ran, Later, Commands, EndedByTaking;
      var r := RanOn(c.state, p, QR.Destroy);
      OneMore(p, QR.Destroy, [], []);
    } else if c.CacheOf? {
      QR.SubseqPrefix(p.handed, Pending(c), p.given);
      assert p.handed + [] == p.handed;
    }
  }

  /** close. */
  function Closing(c: Content, p: Past): Past
  {
    if c.QueueOf? then Later(p, QR.Close, [], []) else p
  }

  lemma ClosingRemembers(c: Content, p: Past)
    requires Remembers(c, p) && !c.Fixed?
    ensures c.QueueOf? ==> Remembers(QueueOf(c.state.(closed := true)), Closing(c, p))
    ensures c.CacheOf? ==> Remembers(CacheOf(c.cache, true, c.destroyed), p)
    ensures Unasked(p, Closing(c, p))
  {
    if c.QueueOf? {
      hide Ran, Later, Commands, EndedByTaking;
      var r := RanOn(c.state, p, QR.Close);
      OneMore(p, QR.Close, [], []);
    }
  }

  // ---------------------------------------------------------------- what was handed over was given

  lemma RanGiven(state: QR.State, p: Past)
    requires Ran(state, p)
    ensures |p.handed| <= |p.given| && forall m :: m in p.handed ==> m in p.given
  {
    hide QR.Possible, QR.Exec, Q.Content, Subseq;
    QR.RunHistory(p.limits, p.events);
    var r := QR.Exec(QR.Start(p.limits), p.events);
    assert |multiset(r.accepted)| == |r.accepted| && |multiset(r.sent)| == |r.sent|;
    forall m | m in r.sent ensures m in r.accepted {
      assert multiset(r.sent)[m] > 0;
      assert multiset(r.accepted)[m] > 0;
    }
  }

  /** No stream hands over a message that it was not given. */
  lemma HandedGiven(c: Content, p: Past)
    requires Remembers(c, p)
    ensures forall m :: m in p.handed ==> m in p.given
  {
    hide Ran, Subseq;
    match c
    case QueueOf(state) => RanGiven(state, p);
    case CacheOf(_, _, _) =>
      SubseqIn(p.handed + Pending(c), p.given);
      assert forall m :: m in p.handed ==> m in p.handed + Pending(c);
    case Fixed(_) =>
  }

  lemma {:induction false} SubseqIn(a: seq<Msg>, b: seq<Msg>)
    requires Subseq(a, b)
    ensures forall m :: m in a ==> m in b
    decreases |b|
  {
    if a != [] && b != [] {
      if a[0] == b[0] && Subseq(a[1..], b[1..]) {
        SubseqIn(a[1..], b[1..]);
        assert a == [a[0]] + a[1..];
      } else {
        SubseqIn(a, b[1..]);
      }
    }
  }

  // ---------------------------------------------------------------- few values

  /** A message that comes with all the pages of its value. */
  predicate Whole(ev: QR.Event)
  {
    ev.Send? && ev.msg.pageId <= 0 && -ev.msg.pageId <= 1 + |ev.linked|
  }

  /** A stream that purges and was given no more than two whole values. */
  ghost predicate Few(r: QR.Run, commands: seq<QR.Event>)
  {
    && r.state.limits.policy.PurgePolicy? && !r.state.destroyed && !r.state.queue.waiting && r.state.stray.None? && r.evicted == multiset{}
    && |r.state.queue.elems| + |commands| <= 2 && forall c :: c in commands ==> Whole(c)
  }

  lemma FewSent(r: QR.Run, ev: QR.Event, rest: seq<QR.Event>)
    requires Few(r, [ev] + rest) && QR.Enabled(r.state, ev)
    ensures Few(QR.Step(r, ev), rest)
  {
    hide Q.Shape, Q.Remain;
    assert ev in [ev] + rest && forall c :: c in rest ==> c in [ev] + rest;
    if !QR.Ignored(r.state, ev.close) {
      var o := Q.Offer(r.state.queue, ev.msg, ev.linked, ev.now);
      assert Q.CheckQueue(o.queue, r.state.limits, ev.msg.createdTs) == Q.Trimmed(o.queue, []);
      assert r.evicted + multiset([]) == r.evicted;
    }
  }

  lemma {:induction false} FewPeeked(q: Q.Queue, l: Q.Limits, time: int)
    requires l.policy.PurgePolicy? && !q.waiting && |q.elems| <= 2 && Q.Peek(q, l, time).Ok?
    ensures var p := Q.Peek(q, l, time).value; !p.queue.waiting && |p.queue.elems| <= |q.elems| && p.dropped == []
    decreases |q.elems|
  {
    if q.elems != [] && q.elems[0].Paged? && Q.IsReady(q.elems[0].group) && q.elems[0].group.unsent == [] {
      FewPeeked(q.(elems := q.elems[1..]), l, time);
    }
  }

  lemma FewServed(r: QR.Run, ev: QR.Event, rest: seq<QR.Event>)
    requires Few(r, rest) && QR.Enabled(r.state, ev) && (ev.PeekAt? || ev == QR.TakeNext(false))
    ensures Few(QR.Step(r, ev), rest)
  {
    hide Q.Peek;
    if ev.PeekAt? && !r.state.destroyed {
      FewPeeked(r.state.queue, r.state.limits, ev.time);
      assert r.evicted + multiset([]) == r.evicted;
    }
  }

  /** It loses nothing: there are never enough elements for a purge. */
  lemma {:induction false} FewKept(r: QR.Run, events: seq<QR.Event>)
    requires QR.Possible(r, events) && Few(r, Commands(events)) && QR.TakeNext(true) !in events
    ensures var e := QR.Exec(r, events); e.evicted == multiset{} && !e.state.destroyed
    decreases |events|
  {
    hide QR.Enabled, QR.Step, Few;
    if events == [] {
      FewNone(r);
    } else {
      var ev, rest := events[0], Commands(events[1..]);
      if ev.PeekAt? || ev.TakeNext? {
        assert [] + rest == rest;
        FewServed(r, ev, rest);
      } else {
        FewNext(r, ev, rest);
        FewSent(r, ev, rest);
      }
      FewKept(QR.Step(r, ev), events[1..]);
    }
  }

  lemma FewNext(r: QR.Run, ev: QR.Event, rest: seq<QR.Event>)
    requires Few(r, [ev] + rest)
    ensures ev.Send?
  {
    assert ev in [ev] + rest;
  }

  lemma FewNone(r: QR.Run)
    requires Few(r, [])
    ensures r.evicted == multiset{} && !r.state.destroyed
  {
  }
}
