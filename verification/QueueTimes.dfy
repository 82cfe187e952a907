/** Which moment an element of the outgoing queue is dated to, seen from the time check alone: an element outlives a check
    with a given target or it does not. */
module QueueTimes {
  import opened Bytes
  import opened Pages
  import opened Queue
  import opened QueueProofs
  import opened QueueBlocks
  import opened QueueRun

  /** The loop of check_queue_time with this target stops at the element. */
  predicate Outlives(e: Elem, target: int)
  {
    DropOld(Queue([e], false, 0, 0), target).dropped == []
  }

  /** The element is dated to this moment. */
  ghost predicate Dated(e: Elem, moment: int)
  {
    forall target :: Outlives(e, target) <==> moment >= target
  }

  lemma OneDate(e: Elem, moment: int, other: int)
    requires Dated(e, moment) && Dated(e, other)
    ensures moment == other
  {
    assert Outlives(e, moment) && Outlives(e, other);
  }

  lemma DateIs(e: Elem)
    ensures Dated(e, ElemTs(e))
  {
  }

  // ---------------------------------------------------------------- dates of elements

  /** A message is dated to its own creation; a group to its arrival, whatever creation time its pages have. */
  lemma ArrivalDated(q: Queue, m: Msg, linked: seq<Msg>, now: int)
    requires Shape(q) && m.pageId <= 0 && !(q.waiting && CanAdd(WaitingGroup(q), m))
    ensures var r := Offer(q, m, linked, now).queue;
            r.elems != [] && Dated(r.elems[|r.elems| - 1], if m.pageId < 0 then now else m.createdTs)
  {
    DateIs(if m.pageId < 0 then Paged(NewGroup(m, linked, now)) else Single(m));
  }

  /** A page that joins the waiting group changes its date only if all pages before it are gone, and then to its own. */
  lemma PageDated(q: Queue, m: Msg, linked: seq<Msg>, now: int, moment: int)
    requires Shape(q) && q.waiting && CanAdd(WaitingGroup(q), m) && Dated(q.elems[|q.elems| - 1], moment)
    ensures var r := Offer(q, m, linked, now).queue;
            |r.elems| == |q.elems| && r.elems[..|q.elems| - 1] == q.elems[..|q.elems| - 1]
            && Dated(r.elems[|q.elems| - 1], if Unsent(q.elems[|q.elems| - 1]) == [] then m.createdTs else moment)
  {
    var e, r := q.elems[|q.elems| - 1], Offer(q, m, linked, now).queue;
    DateIs(e);
    OneDate(e, moment, ElemTs(e));
    DateIs(r.elems[|q.elems| - 1]);
  }

  /** A group of which a page leaves is dated to the page that is next, and so is the queue; without one its date stays. */
  lemma TakenDated(q: Queue, moment: int)
    requires Inv(q) && HasNext(q) && q.elems[0].Paged? && Dated(q.elems[0], moment)
    ensures var (r, m) := Take(q);
            && r.elems != [] && Unsent(r.elems[0]) == Unsent(q.elems[0])[1..] && r.elems[1..] == q.elems[1..]
            && Dated(r.elems[0], if Unsent(r.elems[0]) == [] then moment else Unsent(r.elems[0])[0].createdTs)
            && r.time == if Unsent(r.elems[0]) == [] then moment else Unsent(r.elems[0])[0].createdTs
  {
    hide Inv;
    var (r, m) := Take(q);
    DateIs(q.elems[0]);
    OneDate(q.elems[0], moment, ElemTs(q.elems[0]));
    DateIs(r.elems[0]);
  }

  // ---------------------------------------------------------------- the date of the queue

  /** _current_queue_time is the date of the first element. */
  ghost predicate TimeOfFront(q: Queue)
  {
    q.elems != [] ==> Dated(q.elems[0], q.time)
  }

  /** After get_next_message it is; and so it is after a check that had something to drop, but for the purge of three elements. */
  lemma TakeTime(q: Queue)
    requires HasNext(q)
    ensures var r := Take(q).0; TimeOfFront(r) && (r.elems == [] ==> r.time == q.time)
  {
    var r := Take(q).0;
    if r.elems != [] {
      DateIs(r.elems[0]);
    }
  }

  lemma OfferTime(q: Queue, m: Msg, linked: seq<Msg>, now: int)
    requires Shape(q)
    ensures var o := Offer(q, m, linked, now);
            o.queue.time == if o.arrived != [] && m.pageId <= 0 && |o.queue.elems| == 1 && !(q.waiting && CanAdd(WaitingGroup(q), m))
                            then m.createdTs else q.time
  {
  }

  lemma PurgeTime(q: Queue)
    ensures var r := Purge(q).queue; if |q.elems| >= 4 then TimeOfFront(r) && |r.elems| == 1 else r.time == q.time
  {
    if |q.elems| >= 4 {
      DateIs(q.elems[|q.elems| - 1]);
    }
  }

  lemma DropOldTime(q: Queue, target: int)
    ensures var r := DropOld(q, target).queue; TimeOfFront(r) && (r.elems == [] ==> r.time == q.time)
  {
    hide DropOld;
    DropOldExact(q, target);
    var r := DropOld(q, target).queue;
    if r.elems != [] {
      DateIs(r.elems[0]);
    }
  }

  lemma DropBigTime(q: Queue, maxSize: int)
    requires |q.elems| >= 2
    ensures TimeOfFront(DropBig(q, maxSize).queue)
  {
    hide DropBig;
    var k := DropBigExact(q, maxSize);
    var r := DropBig(q, maxSize).queue;
    if r.elems != [] {
      DateIs(r.elems[0]);
    }
  }

  // ---------------------------------------------------------------- a partly sent group

  /** A group of which some pages left and others wait is dated to the page that is next. */
  ghost predicate NextDated(q: Queue)
  {
    q.elems != [] && !Untouched(q.elems[0]) && Unsent(q.elems[0]) != [] ==> Dated(q.elems[0], Unsent(q.elems[0])[0].createdTs)
  }

  lemma KeptNext(before: Queue, after: Queue, dropped: seq<Elem>)
    requires Kept(before, after, dropped) && NextDated(before)
    ensures NextDated(after)
  {
    hide Inv, Content, Unsent, Untouched;
  }

  lemma OfferNext(q: Queue, m: Msg, linked: seq<Msg>, now: int)
    requires Inv(q) && Arrival(m, linked) && NextDated(q)
    ensures Shape(q) && NextDated(Offer(q, m, linked, now).queue)
  {
    hide Counted, Content, TotalSize, DropOld, GroupOk;
    if q.waiting && CanAdd(WaitingGroup(q), m) {
      var n := |q.elems| - 1;
      DateIs(q.elems[n]);
      PageDated(q, m, linked, now, ElemTs(q.elems[n]));
      if n == 0 && !Untouched(q.elems[0]) && Unsent(q.elems[0]) != [] {
        OneDate(q.elems[0], ElemTs(q.elems[0]), Unsent(q.elems[0])[0].createdTs);
      }
    }
  }

  lemma TakeKeepsNext(q: Queue)
    requires Inv(q) && HasNext(q)
    ensures NextDated(Take(q).0)
  {
    hide Dated, Counted, Shape;
    if q.elems[0].Paged? {
      DateIs(q.elems[0]);
      TakenDated(q, ElemTs(q.elems[0]));
    }
  }

  /** Also when the group waits outside of the queue. */
  ghost predicate DatedState(s: State)
  {
    !Dead(s) ==> NextDated(Waited(s))
  }

  /** Both checks, on a queue that a run can reach. */
  lemma ChecksKeepDates(s: State, l: Limits, time: int)
    requires Inv(s.queue) && s.stray.None? && NextDated(s.queue)
    ensures var t := CheckQueue(s.queue, l, time); NextDated(Waited(Settle(s, t.queue, t.dropped)))
  {
    hide Inv, CheckQueue, Kept, Strays, NextDated;
    CheckQueueExact(s.queue, l, time);
    var t := CheckQueue(s.queue, l, time);
    if Strays(s.queue, l, time) {
      StrayKept(s.queue, l, time);
      var n := |t.dropped| - 1;
      KeptNext(s.queue, Alone(t.dropped[n].group), t.dropped[..n]);
    } else {
      CheckQueueKept(s.queue, l, time);
      KeptNext(s.queue, t.queue, t.dropped);
    }
  }

  lemma SendDated(r: Run, ev: Event)
    requires RunInv(r) && ev.Send? && Enabled(r.state, ev) && DatedState(r.state)
    ensures DatedState(Step(r, ev).state)
  {
    hide RunInv, Inv, CheckQueue, Offer, NextDated, Arrival, CanAdd, Add;
    var s := r.state;
    ClosedWhenDead(r);
    if !Ignored(s, ev.close) {
      RunQueue(r);
      if s.stray.Some? {
        StrayGroup(r);
        NothingNext(s.queue);
        AloneNext(s.stray.value, ev.msg);
      } else {
        OfferNext(s.queue, ev.msg, ev.linked, ev.now);
        var o := Offer(s.queue, ev.msg, ev.linked, ev.now);
        OfferInv(s.queue, ev.msg, ev.linked, ev.now);
        ExchangedInv(s.queue, o.queue, o.arrived, o.dropped);
        var mid := s.(queue := o.queue, stale := 0);
        if o.checks {
          ChecksKeepDates(mid, s.limits, ev.msg.createdTs);
          var t := CheckQueue(o.queue, s.limits, ev.msg.createdTs);
          ChecksDrop(o.queue, s.limits, ev.msg.createdTs);
          SettleAppend(mid, s.(stale := 0), t.queue, o.dropped, t.dropped);
        } else {
          ShapeInv(o.queue);
          SettleNone(s, o.queue, o.dropped);
        }
      }
    }
  }

  lemma ChecksDrop(q: Queue, l: Limits, time: int)
    requires Inv(q)
    ensures var t := CheckQueue(q, l, time); t.queue.waiting && t.queue.elems == [] ==> t.dropped != []
  {
    hide Inv, CheckQueue, Strays, Kept;
    CheckQueueExact(q, l, time);
    if Strays(q, l, time) {
      StrayKept(q, l, time);
    }
  }

  lemma StrayGroup(r: Run)
    requires RunInv(r) && !Dead(r.state) && r.state.stray.Some?
    ensures Inv(Alone(r.state.stray.value)) && r.state.queue.elems == []
  {
  }

  lemma AloneNext(g: Group, m: Msg)
    requires Inv(Alone(g)) && CanAdd(g, m) && NextDated(Alone(g))
    ensures NextDated(Alone(Add(g, m)))
  {
    hide Inv, NextDated, Offer;
    AloneGroup(g);
    OfferNext(Alone(g), m, [], 0);
    SameElems(Offer(Alone(g), m, [], 0).queue, Alone(Add(g, m)), g, m);
  }

  lemma SameElems(a: Queue, b: Queue, g: Group, m: Msg)
    requires Shape(Alone(g)) && CanAdd(g, m) && a == Offer(Alone(g), m, [], 0).queue && b == Alone(Add(g, m)) && NextDated(a)
    ensures NextDated(b)
  {
    assert a.elems == b.elems;
  }

  lemma NothingNext(q: Queue)
    requires q.elems == []
    ensures NextDated(q)
  {
  }

  lemma TakeDated(r: Run, ev: Event)
    requires RunInv(r) && ev.TakeNext? && Enabled(r.state, ev)
    ensures DatedState(Step(r, ev).state)
  {
    hide RunInv, Inv, Take, HasNext, NextDated, Grow;
    NextLive(r);
    RunQueue(r);
    NextExists(r.state.queue);
    TakeKeepsNext(r.state.queue);
  }

  lemma StepDated(r: Run, ev: Event)
    requires RunInv(r) && Enabled(r.state, ev) && DatedState(r.state)
    ensures DatedState(Step(r, ev).state)
  {
    hide RunInv, Inv, NextDated, CheckQueue, Peek, Settle, Kept;
    var s := r.state;
    match ev
    case Send(_, _, _, _) => SendDated(r, ev);
    case TakeNext(_) => TakeDated(r, ev);
    case PeekAt(time) =>
      if !s.destroyed {
        RunQueue(r);
        if s.stray.Some? {
          NothingPeeked(r, ev);
        } else {
          PeekKept(s.queue, s.limits, time);
          var p := Peek(s.queue, s.limits, time).value;
          KeptNext(s.queue, p.queue, p.dropped);
        }
      }
    case SetOptions(maxSize, maxDuration, now) =>
      var l := Limits(SubscribePolicy, maxSize, maxDuration);
      RunQueue(r);
      if s.stray.Some? {
        StrayGroup(r);
        NothingChecked(s.queue, l, now);
        SettleNone(s.(limits := l), s.queue, []);
      } else {
        ChecksKeepDates(s.(limits := l), l, now);
      }
    case Close =>
    case Destroy =>
  }

  lemma {:induction false} ExecDated(r: Run, events: seq<Event>)
    requires RunInv(r) && Possible(r, events) && DatedState(r.state)
    ensures DatedState(Exec(r, events).state)
    decreases |events|
  {
    hide RunInv, Enabled, Step, DatedState;
    if events != [] {
      StepKeeps(r, events[0]);
      StepDated(r, events[0]);
      ExecDated(Step(r, events[0]), events[1..]);
    }
  }

  /** In every state that a run reaches: a group of which some pages left is dated to the page that goes out next. */
  lemma NextPageDated(limits: Limits, events: seq<Event>)
    requires Possible(Start(limits), events) && !Dead(Exec(Start(limits), events).state)
    ensures var q := Exec(Start(limits), events).state.queue;
            q.elems != [] && !Untouched(q.elems[0]) && Unsent(q.elems[0]) != [] ==>
              forall target :: Outlives(q.elems[0], target) <==> Unsent(q.elems[0])[0].createdTs >= target
  {
    hide Possible, Exec, RunInv, Outlives;
    StartInv(limits);
    ExecDated(Start(limits), events);
    ExecKeeps(Start(limits), events);
    var r := Exec(Start(limits), events);
    StrayEmpty(r);
  }

  lemma StrayEmpty(r: Run)
    requires RunInv(r) && !Dead(r.state)
    ensures r.state.stray.Some? ==> r.state.queue.elems == []
  {
  }

  // ---------------------------------------------------------------- what a peek does to it

  /** A page was just taken and the next one is there. Whatever the policy, a peek drops nothing while that page is inside the
      window; a subscription stream with anything behind the group drops the group, sent half, exactly when it is not. */
  lemma HalfSentPeek(q: Queue, l: Limits, time: int)
    requires Inv(q) && HasNext(q) && q.elems[0].Paged? && |Unsent(q.elems[0])| >= 2
    ensures var r := Take(q).0; var next := Unsent(q.elems[0])[1];
            && (time - l.maxDuration <= next.createdTs ==> Peek(r, l, time) == Ok(Peeked(r, next.size, [])))
            && (l.policy.SubscribePolicy? && |r.elems| >= 2 && time - l.maxDuration > next.createdTs && Peek(r, l, time).Ok? ==>
                  Peek(r, l, time).value.dropped != [] && Peek(r, l, time).value.dropped[0] == r.elems[0])
  {
    hide Inv, DropOld, Dated;
    var r, next := Take(q).0, Unsent(q.elems[0])[1];
    DateIs(q.elems[0]);
    TakenDated(q, ElemTs(q.elems[0]));
    TakeTime(q);
    OneDate(r.elems[0], r.time, next.createdTs);
    DateIs(r.elems[0]);
    OneDate(r.elems[0], ElemTs(r.elems[0]), next.createdTs);
    DropOldStart(r, time - l.maxDuration);
  }

  lemma DropOldStart(q: Queue, target: int)
    requires q.elems != []
    ensures ElemTs(q.elems[0]) < target ==> DropOld(q, target).dropped != [] && DropOld(q, target).dropped[0] == q.elems[0]
  {
  }
}
