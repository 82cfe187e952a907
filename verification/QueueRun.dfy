/** Whole runs of one outgoing queue stream: order, conservation and the page groups that reach the wire. */
module QueueRun {
  import opened Bytes
  import opened Sequences
  import opened Pages
  import opened Queue
  import opened QueueProofs
  import opened QueueBlocks

  /** `stray`: the group that _waiting_page_group refers to after a time check emptied the deque under it. `stale`: the bytes
      of its later pages, which _current_queue_size counts until the next message that is queued. */
  datatype State = State(queue: Queue, limits: Limits, closed: bool, destroyed: bool, stray: Option<Group>, stale: nat)

  datatype Event =
    | Send(msg: Msg, linked: seq<Msg>, close: bool, now: int)
    | PeekAt(time: int)
    | TakeNext(closing: bool)
    | SetOptions(maxSize: int, maxDuration: int, now: int)
    | Close
    | Destroy

  /** A state with its history: the messages let into the queue, those handed to the session, those evicted, and the
      handed-over ones cut up into groups. `blocks` are the accepted messages cut up into what became one element of the
      queue each; `homes` are, for the groups handed over, the blocks they come from. */
  datatype Run = Run(state: State, accepted: seq<Msg>, sent: seq<Msg>, evicted: multiset<Msg>, groups: seq<seq<Msg>>,
                     blocks: seq<seq<Msg>>, homes: seq<seq<Msg>>)

  function Start(limits: Limits): Run
  {
    Run(State(Queue([], false, 0, 0), limits, false, false, None, 0), [], [], multiset{}, [], [], [])
  }

  /** send_message on an open stream. */
  function SendMessage(q: Queue, limits: Limits, m: Msg, linked: seq<Msg>, now: int): Offered
    requires Shape(q)
  {
    var o := Offer(q, m, linked, now);
    if o.checks then
      var t := CheckQueue(o.queue, limits, m.createdTs);
      o.(queue := t.queue, dropped := o.dropped + t.dropped)
    else o
  }

  /** The group of the last element dropped, if it is one. */
  function LastGroup(dropped: seq<Elem>): Option<Group>
  {
    if dropped != [] && dropped[|dropped| - 1].Paged? then Some(dropped[|dropped| - 1].group) else None
  }

  /** The state after both checks: a waiting group that they dropped is still waited for. */
  function Settle(s: State, q: Queue, dropped: seq<Elem>): State
  {
    if q.waiting && q.elems == [] then s.(queue := q.(waiting := false), stray := LastGroup(dropped)) else s.(queue := q)
  }

  /** A page for the group that was dropped: it is counted and never queued. */
  function Swallow(s: State, m: Msg): State
    requires s.stray.Some?
  {
    var g := Add(s.stray.value, m);
    s.(stray := if IsReady(g) then None else Some(g), stale := s.stale + m.size)
  }

  /** The state after send_message on an open stream. */
  function Sent(s: State, m: Msg, linked: seq<Msg>, now: int): State
    requires s.stray.Some? || Shape(s.queue)
  {
    if s.stray.Some? then Swallow(s, m)
    else
      var o := SendMessage(s.queue, s.limits, m, linked, now);
      Settle(if o.checks then s.(stale := 0) else s, o.queue, o.dropped)
  }

  /** MessageQueueStream::destroy_impl clears the queue; OutgoingSubscribeStream::destroy_impl does not. */
  function Destroyed(s: State): State
  {
    match s.limits.policy
    case PurgePolicy => s.(queue := s.queue.(elems := []), closed := true, destroyed := true)
    case SubscribePolicy => s.(destroyed := true)
  }

  /** Destroyed, and cleared. */
  predicate Dead(s: State)
  {
    s.destroyed && s.limits.policy.PurgePolicy?
  }

  /** The events the source gives a meaning to in this state. It gives none to a peek whose time check empties the queue, to a
      message that does not continue a group which was dropped while it waited, and to a closing message on a stream that was
      destroyed with its session reference. */
  ghost predicate Enabled(s: State, ev: Event)
  {
    match ev
    case Send(m, linked, close, now) =>
      Arrival(m, linked) && !(Dead(s) && close)
      && (Ignored(s, close) || if s.stray.Some? then CanAdd(s.stray.value, m) else Shape(s.queue))
    case PeekAt(time) => s.destroyed || Peek(s.queue, s.limits, time).Ok?
    case TakeNext(closing) => !s.destroyed && HasNext(s.queue) && (closing ==> s.limits.policy.PurgePolicy?)
    case SetOptions(maxSize, maxDuration, now) => s.limits.policy.SubscribePolicy?
    case Close => true
    case Destroy => true
  }

  predicate Ignored(s: State, close: bool)
  {
    s.closed && !close
  }

  /** One message handed to the session. */
  function Handed(r: Run, q: Queue, m: Msg): Run
    requires r.state.queue.elems != []
  {
    var e := r.state.queue.elems[0];
    r.(state := r.state.(queue := q), sent := r.sent + [m], groups := Grow(r.groups, [m]),
       homes := if Untouched(e) then r.homes + [Unsent(e)] else r.homes)
  }

  function Step(r: Run, ev: Event): Run
    requires Enabled(r.state, ev)
  {
    var s := r.state;
    match ev
    case Send(m, linked, close, now) =>
      if Ignored(s, close) then r
      else if s.stray.Some? then Swallowed(r, m)
      else
        var o := SendMessage(s.queue, s.limits, m, linked, now);
        Offered(r, m, linked, now).(state := Sent(s, m, linked, now), evicted := r.evicted + multiset(Content(o.dropped)))
    case PeekAt(time) =>
      if s.destroyed then r
      else
        var p := Peek(s.queue, s.limits, time).value;
        r.(state := s.(queue := p.queue), evicted := r.evicted + multiset(Content(p.dropped)))
    case TakeNext(closing) =>
      var (q, m) := Take(s.queue);
      var taken := Handed(r, q, m);
      if closing then
        taken.(state := Destroyed(taken.state), evicted := r.evicted + multiset(Content(q.elems)))
      else taken
    case SetOptions(maxSize, maxDuration, now) =>
      var l := Limits(SubscribePolicy, maxSize, maxDuration);
      var t := CheckQueue(s.queue, l, now);
      r.(state := Settle(s.(limits := l), t.queue, t.dropped), evicted := r.evicted + multiset(Content(t.dropped)))
    case Close => r.(state := s.(closed := true))
    case Destroy =>
      r.(state := Destroyed(s),
         evicted := if s.limits.policy.PurgePolicy? then r.evicted + multiset(Content(s.queue.elems)) else r.evicted)
  }

  // ---------------------------------------------------------------- the run invariant

  ghost predicate History(r: Run)
  {
    && Subseq(r.sent + Content(r.state.queue.elems), r.accepted)
    && multiset(r.accepted) == multiset(r.sent) + multiset(Content(r.state.queue.elems)) + r.evicted
  }

  ghost predicate GroupsOk(r: Run)
  {
    && Concat(r.groups) == r.sent
    && (forall i :: 0 <= i < |r.groups| ==> GroupPrefix(r.groups[i]))
    && FrontLink(r.state.queue.elems, r.groups)
  }

  ghost predicate Placed(r: Run)
  {
    && Concat(r.blocks) == r.accepted && AreGroups(r.blocks) && Prefixes(r.groups, r.homes)
    && if Dead(r.state) then Subseq(r.homes, r.blocks) else QueuePlaced(Waited(r.state), r.groups, r.homes, r.blocks)
  }

  /** The queue, or the group that is waited for outside of it. */
  function Waited(s: State): Queue
  {
    if s.stray.Some? then Alone(s.stray.value) else s.queue
  }

  /** A group that is waited for outside of the queue is the last thing that was accepted, and the queue is empty. */
  ghost predicate StrayOk(r: Run)
  {
    r.state.stray.Some? ==>
      r.state.queue.elems == [] && Inv(Waited(r.state)) && FrontLink(Waited(r.state).elems, r.groups)
  }

  ghost predicate RunInv(r: Run)
  {
    (if Dead(r.state) then r.state.closed else Inv(r.state.queue) && StrayOk(r)) && History(r) && GroupsOk(r) && Placed(r)
  }

  // ---------------------------------------------------------------- steps

  lemma SubseqPrefix<T(!new)>(a: seq<T>, b: seq<T>, c: seq<T>)
    requires Subseq(a + b, c)
    ensures Subseq(a, c)
  {
    SubseqWithout(a, b, []);
    assert a + [] == a && a + b + [] == a + b;
    SubseqTrans(a, a + b, c);
  }

  /** Replacing the content by a subsequence of content plus arrivals. */
  lemma HistoryExchange(sent: seq<Msg>, before: seq<Msg>, after: seq<Msg>, arrived: seq<Msg>, accepted: seq<Msg>)
    requires Subseq(sent + before, accepted) && Subseq(after, before + arrived)
    ensures Subseq(sent + after, accepted + arrived)
  {
    hide Subseq;
    SubseqRefl(sent);
    SubseqRefl(arrived);
    SubseqConcat(sent, sent, after, before + arrived);
    SubseqConcat(sent + before, accepted, arrived, arrived);
    assert sent + (before + arrived) == sent + before + arrived;
    SubseqTrans(sent + after, sent + (before + arrived), accepted + arrived);
  }

  /** A partly sent front group stays linked to its sent part through an arrival. */
  lemma OfferFront(q: Queue, m: Msg, linked: seq<Msg>, now: int, groups: seq<seq<Msg>>)
    requires Inv(q) && Arrival(m, linked) && FrontLink(q.elems, groups)
    ensures FrontLink(Offer(q, m, linked, now).queue.elems, groups)
  {
  }

  /** The run after send_message up to CHECK_QUEUE. */
  function Offered(r: Run, m: Msg, linked: seq<Msg>, now: int): Run
    requires Shape(r.state.queue)
  {
    var o := Offer(r.state.queue, m, linked, now);
    r.(state := r.state.(queue := o.queue), accepted := r.accepted + o.arrived, evicted := r.evicted + multiset(Content(o.dropped)),
       blocks := Grow(r.blocks, o.arrived), homes := GrowHome(r.state.queue, r.homes, m))
  }

  /** The run after a page for a group that was dropped. */
  function Swallowed(r: Run, m: Msg): Run
    requires r.state.stray.Some?
  {
    r.(state := Swallow(r.state, m), accepted := r.accepted + [m], evicted := r.evicted + multiset{m}, blocks := Grow(r.blocks, [m]),
       homes := if Untouched(Paged(r.state.stray.value)) then r.homes else Grow(r.homes, [m]))
  }

  ghost predicate Live(s: State)
  {
    !Dead(s) && s.stray.None?
  }

  lemma OfferedKeeps(r: Run, m: Msg, linked: seq<Msg>, now: int)
    requires RunInv(r) && Live(r.state) && Arrival(m, linked)
    ensures Shape(r.state.queue) && RunInv(Offered(r, m, linked, now))
  {
    hide Inv, Content, Subseq, Offer, Exchanged, GroupPrefix, FrontLink, QueuePlaced, AreGroups, Prefixes, Arrival, Grow, GrowHome;
    var q := r.state.queue;
    ShapeInv(q);
    var o := Offer(q, m, linked, now);
    OfferInv(q, m, linked, now);
    OfferFront(q, m, linked, now, r.groups);
    ExchangedInv(q, o.queue, o.arrived, o.dropped);
    ExchangedHistory(r, o.queue, o.arrived, o.dropped);
    OfferPlaced(q, m, linked, now, r.groups, r.homes, r.blocks);
  }

  /** The run after an eviction, perhaps with other limits. */
  lemma EvictionKeeps(r: Run, after: State, dropped: seq<Elem>)
    requires RunInv(r) && Live(r.state) && Live(after) && Kept(r.state.queue, after.queue, dropped)
    ensures RunInv(r.(state := after, evicted := r.evicted + multiset(Content(dropped))))
  {
    hide Inv, Content, Subseq, Kept, GroupPrefix, FrontLink, QueuePlaced, AreGroups, Prefixes;
    KeptInv(r.state.queue, after.queue, dropped);
    KeptHistory(r, after.queue, dropped);
    KeptFront(r.state.queue, after.queue, dropped, r.groups);
    KeptPlaced(r.state.queue, after.queue, dropped, r.groups, r.homes, r.blocks);
  }

  /** The run after both checks, whether or not they drop a waiting group. */
  lemma ChecksKeep(r: Run, s: State, time: int)
    requires RunInv(r) && Live(r.state) && Live(s) && s.queue == r.state.queue
    ensures var t := CheckQueue(s.queue, s.limits, time);
            (t.queue.waiting && t.queue.elems == [] ==> t.dropped != []) && RunInv(r.(state := Settle(s, t.queue, t.dropped), evicted := r.evicted + multiset(Content(t.dropped))))
  {
    hide RunInv, Inv, Content, CheckQueue, Kept, Strays, Alone;
    var q, t := s.queue, CheckQueue(s.queue, s.limits, time);
    RunQueue(r);
    CheckQueueExact(q, s.limits, time);
    if Strays(q, s.limits, time) {
      StrayKept(q, s.limits, time);
      StrayKeeps(r, s.(queue := t.queue.(waiting := false)), t.dropped);
    } else {
      CheckQueueKept(q, s.limits, time);
      EvictionKeeps(r, s.(queue := t.queue), t.dropped);
    }
  }

  /** The run after a time check that dropped the waiting group. */
  ghost function Strayed(r: Run, after: State, dropped: seq<Elem>): Run
  {
    r.(state := after.(stray := LastGroup(dropped)), evicted := r.evicted + multiset(Content(dropped)))
  }

  lemma StrayKeeps(r: Run, after: State, dropped: seq<Elem>)
    requires RunInv(r) && Live(r.state) && Live(after) && Inv(after.queue) && after.queue.elems == []
    requires multiset(Content(r.state.queue.elems)) == multiset(Content(dropped)) && LastGroup(dropped).Some?
    requires Kept(r.state.queue, Alone(LastGroup(dropped).value), dropped[..|dropped| - 1])
    ensures RunInv(Strayed(r, after, dropped))
  {
    hide Inv, Content, Kept, Alone, History, GroupsOk, Placed, StrayOk, LastGroup;
    StrayHistory(r, after, dropped);
    StrayGroups(r, after, dropped);
    StrayPlaced(r, after, dropped);
  }

  lemma StrayHistory(r: Run, after: State, dropped: seq<Elem>)
    requires History(r) && after.queue.elems == []
    requires multiset(Content(r.state.queue.elems)) == multiset(Content(dropped))
    ensures History(Strayed(r, after, dropped))
  {
    hide Content, Subseq;
    ContentNil();
    SubseqPrefix(r.sent, Content(r.state.queue.elems), r.accepted);
    assert r.sent + [] == r.sent;
  }

  lemma StrayGroups(r: Run, after: State, dropped: seq<Elem>)
    requires GroupsOk(r) && after.queue.elems == [] && LastGroup(dropped).Some?
    requires Kept(r.state.queue, Alone(LastGroup(dropped).value), dropped[..|dropped| - 1])
    ensures GroupsOk(Strayed(r, after, dropped)) && StrayOk(Strayed(r, after, dropped))
  {
    hide Inv, Content, Kept, GroupPrefix, FrontLink, Alone;
    var v, rest := Alone(LastGroup(dropped).value), dropped[..|dropped| - 1];
    KeptInv(r.state.queue, v, rest);
    KeptFront(r.state.queue, v, rest, r.groups);
    NoFront(r.groups);
  }

  lemma StrayPlaced(r: Run, after: State, dropped: seq<Elem>)
    requires Placed(r) && Inv(r.state.queue) && Live(r.state) && Live(after) && LastGroup(dropped).Some?
    requires Kept(r.state.queue, Alone(LastGroup(dropped).value), dropped[..|dropped| - 1])
    ensures Placed(Strayed(r, after, dropped))
  {
    hide Inv, Content, Kept, QueuePlaced, AreGroups, Prefixes, Alone, Subseq;
    KeptPlaced(r.state.queue, Alone(LastGroup(dropped).value), dropped[..|dropped| - 1], r.groups, r.homes, r.blocks);
  }

  lemma NoFront(groups: seq<seq<Msg>>)
    ensures FrontLink([], groups)
  {
  }

  lemma EmptySize(q: Queue)
    requires Inv(q)
    ensures q.elems == [] ==> q.size == 0 && !q.waiting
  {
  }

  /** A page for a group that was dropped. */
  lemma SwallowedKeeps(r: Run, m: Msg)
    requires RunInv(r) && !Dead(r.state) && r.state.stray.Some? && CanAdd(r.state.stray.value, m)
    ensures RunInv(Swallowed(r, m))
  {
    hide Inv, Content, Subseq, GroupPrefix, FrontLink, QueuePlaced, AreGroups, Prefixes, CanAdd, Add, Alone, Offer, Grow, GrowHome, Concat;
    var g := r.state.stray.value;
    AloneExtends(g, m, r.homes);
    EmptySize(r.state.queue);
    OfferPlaced(Alone(g), m, [], 0, r.groups, r.homes, r.blocks);
    OfferFront(Alone(g), m, [], 0, r.groups);
    SwallowedHistory(r, m);
    if IsReady(Add(g, m)) {
      var v := Offer(Alone(g), m, [], 0).queue;
      NothingKept(v, r.state.queue);
      KeptPlaced(v, r.state.queue, v.elems, r.groups, GrowHome(Alone(g), r.homes, m), Grow(r.blocks, [m]));
    }
  }

  lemma SwallowedHistory(r: Run, m: Msg)
    requires History(r) && r.state.stray.Some? && r.state.queue.elems == []
    ensures History(Swallowed(r, m).(state := r.state))
  {
    hide Subseq;
    ContentNil();
    SubseqNil([m]);
    SubseqConcat(r.sent + [], r.accepted, [], [m]);
    assert r.sent + [] + [] == r.sent + [];
  }

  lemma AloneExtends(g: Group, m: Msg, homes: seq<seq<Msg>>)
    requires Inv(Alone(g)) && CanAdd(g, m)
    ensures Shape(Alone(g)) && Arrival(m, [])
    ensures var o := Offer(Alone(g), m, [], 0);
            && o.arrived == [m] && Inv(o.queue) && o.queue.waiting == !IsReady(Add(g, m)) && o.queue.elems == [Paged(Add(g, m))]
            && (o.queue.waiting ==> o.queue == Alone(Add(g, m)))
    ensures GrowHome(Alone(g), homes, m) == if Untouched(Paged(g)) then homes else Grow(homes, [m])
  {
    hide Inv, Content, TotalSize, GroupOk, Grow;
    ShapeInv(Alone(g));
    AloneGroup(g);
    ExtendInv(Alone(g), m);
    CountedInv(Extend(Alone(g), m));
    assert Extend(Alone(g), m).elems == [Paged(Add(g, m))];
    SizeOfPair(Paged(Add(g, m)), Paged(Add(g, m)));
  }

  lemma AloneGroup(g: Group)
    requires Inv(Alone(g))
    ensures 1 <= g.waitingPage < g.totalPage && GroupOk(g)
  {
    assert IsLastWaiting(Alone(g), 0) && ElemOk(Alone(g).elems[0]);
  }

  lemma SendKeeps(r: Run, ev: Event)
    requires RunInv(r) && ev.Send? && Enabled(r.state, ev)
    ensures RunInv(Step(r, ev))
  {
    hide RunInv, Sent, SendMessage, Offered, Swallowed, Arrival;
    if !Ignored(r.state, ev.close) {
      ClosedWhenDead(r);
      if r.state.stray.Some? {
        SwallowedKeeps(r, ev.msg);
      } else {
        QueuedKeeps(r, ev);
      }
    }
  }

  lemma QueuedKeeps(r: Run, ev: Event)
    requires RunInv(r) && ev.Send? && Enabled(r.state, ev) && !Ignored(r.state, ev.close) && Live(r.state)
    ensures RunInv(Step(r, ev))
  {
    hide RunInv, Inv, Content, CheckQueue, Offer, Arrival, Grow, GrowHome, Settle;
    OfferedKeeps(r, ev.msg, ev.linked, ev.now);
    var o, mid := Offer(r.state.queue, ev.msg, ev.linked, ev.now), Offered(r, ev.msg, ev.linked, ev.now);
    RunQueue(mid);
    if o.checks {
      var s := mid.state.(stale := 0);
      ChecksKeep(mid, s, ev.msg.createdTs);
      var t := CheckQueue(o.queue, r.state.limits, ev.msg.createdTs);
      ContentAppend(o.dropped, t.dropped);
      assert r.evicted + multiset(Content(o.dropped)) + multiset(Content(t.dropped))
          == r.evicted + multiset(Content(o.dropped) + Content(t.dropped));
      SettleAppend(s, r.state.(stale := 0), t.queue, o.dropped, t.dropped);
    } else {
      SettleNone(r.state, o.queue, o.dropped);
    }
  }

  /** A stream that was cleared is closed. */
  lemma ClosedWhenDead(r: Run)
    requires RunInv(r)
    ensures Dead(r.state) ==> r.state.closed
  {
  }

  lemma RunQueue(r: Run)
    requires RunInv(r) && !Dead(r.state)
    ensures Inv(r.state.queue) && !(r.state.queue.waiting && r.state.queue.elems == [])
  {
  }

  lemma SettleAppend(s: State, from: State, q: Queue, first: seq<Elem>, last: seq<Elem>)
    requires (q.waiting && q.elems == [] ==> last != []) && s == from.(queue := s.queue)
    ensures Settle(from, q, first + last) == Settle(s, q, last)
  {
  }

  lemma SettleNone(s: State, q: Queue, dropped: seq<Elem>)
    requires !(q.waiting && q.elems == [])
    ensures Settle(s, q, dropped) == s.(queue := q)
  {
  }

  lemma ExchangedInv(a: Queue, b: Queue, arrived: seq<Msg>, dropped: seq<Elem>)
    requires Exchanged(a, b, arrived, dropped)
    ensures Inv(b)
  {
  }

  lemma KeptFront(before: Queue, after: Queue, dropped: seq<Elem>, groups: seq<seq<Msg>>)
    requires Kept(before, after, dropped) && FrontLink(before.elems, groups)
    ensures FrontLink(after.elems, groups)
  {
  }

  lemma ExchangedHistory(r: Run, after: Queue, arrived: seq<Msg>, dropped: seq<Elem>)
    requires History(r) && Exchanged(r.state.queue, after, arrived, dropped)
    ensures Inv(after)
    ensures History(r.(state := r.state.(queue := after), accepted := r.accepted + arrived,
                       evicted := r.evicted + multiset(Content(dropped))))
  {
    hide Inv, Content, Subseq;
    HistoryExchange(r.sent, Content(r.state.queue.elems), Content(after.elems), arrived, r.accepted);
    assert multiset(r.accepted + arrived) == multiset(r.accepted) + multiset(arrived);
    Balance(multiset(r.accepted), multiset(r.sent), multiset(Content(r.state.queue.elems)), r.evicted,
            multiset(arrived), multiset(Content(after.elems)), multiset(Content(dropped)));
  }

  lemma Balance(accepted: multiset<Msg>, sent: multiset<Msg>, before: multiset<Msg>, evicted: multiset<Msg>,
                arrived: multiset<Msg>, after: multiset<Msg>, dropped: multiset<Msg>)
    requires accepted == sent + before + evicted && before + arrived == after + dropped
    ensures accepted + arrived == sent + after + (evicted + dropped)
  {
    forall m ensures (accepted + arrived)[m] == (sent + after + (evicted + dropped))[m] {
      assert (before + arrived)[m] == (after + dropped)[m];
    }
  }

  lemma KeptHistory(r: Run, after: Queue, dropped: seq<Elem>)
    requires History(r) && Kept(r.state.queue, after, dropped)
    ensures History(r.(state := r.state.(queue := after), evicted := r.evicted + multiset(Content(dropped))))
  {
    hide Inv, Content, Subseq, Untouched;
    assert Content(r.state.queue.elems) + [] == Content(r.state.queue.elems) && r.accepted + [] == r.accepted;
    HistoryExchange(r.sent, Content(r.state.queue.elems), Content(after.elems), [], r.accepted);
  }

  lemma PeekKeeps(r: Run, ev: Event)
    requires RunInv(r) && ev.PeekAt? && Enabled(r.state, ev)
    ensures RunInv(Step(r, ev))
  {
    if r.state.destroyed {
    } else if r.state.stray.Some? {
      NothingPeeked(r, ev);
    } else {
      hide RunInv, Inv, Content, Peek, Kept;
      var p := Peek(r.state.queue, r.state.limits, ev.time).value;
      RunQueue(r);
      PeekKept(r.state.queue, r.state.limits, ev.time);
      EvictionKeeps(r, r.state.(queue := p.queue), p.dropped);
    }
  }

  lemma NothingPeeked(r: Run, ev: Event)
    requires RunInv(r) && ev.PeekAt? && Enabled(r.state, ev) && !r.state.destroyed && r.state.stray.Some?
    ensures Step(r, ev) == r
  {
    hide Placed, History, GroupsOk;
    assert Content([]) == [] && r.evicted + multiset{} == r.evicted;
  }

  lemma OptionsKeep(r: Run, ev: Event)
    requires RunInv(r) && ev.SetOptions? && Enabled(r.state, ev)
    ensures RunInv(Step(r, ev))
  {
    hide RunInv, Inv, Content, CheckQueue, Settle;
    var l := Limits(SubscribePolicy, ev.maxSize, ev.maxDuration);
    if r.state.stray.Some? {
      StrayOptions(r, l, ev.now);
    } else {
      ChecksKeep(r, r.state.(limits := l), ev.now);
    }
  }

  /** New limits for an empty queue. */
  lemma StrayOptions(r: Run, l: Limits, now: int)
    requires RunInv(r) && r.state.stray.Some? && l.policy == r.state.limits.policy && !Dead(r.state)
    ensures var t := CheckQueue(r.state.queue, l, now);
            RunInv(r.(state := Settle(r.state.(limits := l), t.queue, t.dropped), evicted := r.evicted + multiset(Content(t.dropped))))
  {
    hide Inv, Content, Subseq, FrontLink, QueuePlaced, AreGroups, Prefixes, GroupPrefix, CheckQueue;
    NothingChecked(r.state.queue, l, now);
    EmptySize(r.state.queue);
    ContentNil();
    assert r.evicted + multiset(Content([])) == r.evicted;
  }

  lemma NothingChecked(q: Queue, l: Limits, now: int)
    requires q.elems == []
    ensures CheckQueue(q, l, now) == Trimmed(q, [])
  {
  }

  /** Handing over one message moves it from the head of the content to the end of the sent messages. */
  lemma TakeHistory(r: Run)
    requires RunInv(r) && !Dead(r.state) && HasNext(r.state.queue)
    ensures var (q, m) := Take(r.state.queue);
            Inv(q) && History(r.(state := r.state.(queue := q), sent := r.sent + [m]))
  {
    hide Inv, Subseq, HasNext, Content, Take, Placed;
    TakeInv(r.state.queue);
    var (q, m) := Take(r.state.queue);
    assert r.sent + ([m] + Content(q.elems)) == (r.sent + [m]) + Content(q.elems);
  }

  /** A later page joins the group it belongs to. */
  lemma GroupGrows(group: seq<Msg>, g: Group, m: Msg)
    requires GroupPrefix(group) && SentPart(group, g) && GroupOk(g) && g.unsent != [] && m == g.unsent[0]
    ensures m.pageId > 0 && GroupPrefix(group + [m]) && SentPart(group + [m], RemoveNext(g))
  {
  }

  lemma TakeGroups(r: Run)
    requires RunInv(r) && !Dead(r.state) && HasNext(r.state.queue)
    ensures var (q, m) := Take(r.state.queue);
            GroupsOk(r.(state := r.state.(queue := q), sent := r.sent + [m], groups := Grow(r.groups, [m])))
  {
    hide Content, TotalSize, History, Counted, Shape, Concat, GroupPrefix, GroupOk, IsPage, Continues;
    var q, m, e := Take(r.state.queue).0, Take(r.state.queue).1, r.state.queue.elems[0];
    assert ElemOk(e);
    TakeFront(r.state.queue, r.groups);
    if Untouched(e) {
      StartsGroup(e);
      ConcatSnoc(r.groups, [m]);
    } else {
      GroupGrows(r.groups[|r.groups| - 1], e.group, m);
      GrowLast(r.groups, m);
    }
  }

  /** The new front element matches the last group handed over. */
  lemma TakeFront(q: Queue, groups: seq<seq<Msg>>)
    requires ElemsOk(q.elems) && HasNext(q) && FrontLink(q.elems, groups)
    requires forall i :: 0 <= i < |groups| ==> GroupPrefix(groups[i])
    ensures var (r, m) := Take(q); FrontLink(r.elems, Grow(groups, [m]))
  {
  }

  lemma StartsGroup(e: Elem)
    requires ElemOk(e) && Untouched(e) && Unsent(e) != []
    ensures var m := Unsent(e)[0];
            m.pageId <= 0 && GroupPrefix([m]) && (e.Paged? ==> SentPart([m], RemoveNext(e.group)))
  {
  }

  lemma DestroyKeeps(r: Run)
    requires RunInv(r)
    ensures RunInv(Step(r, Destroy))
  {
    hide Inv, Content, Subseq, GroupPrefix, Placed, FrontLink, Concat;
    ContentNil();
    SubseqPrefix(r.sent, Content(r.state.queue.elems), r.accepted);
    assert r.sent + [] == r.sent;
    NoFront(r.groups);
    DestroyPlaced(r);
  }

  lemma DestroyPlaced(r: Run)
    requires Placed(r)
    ensures Placed(Step(r, Destroy))
  {
    hide Subseq, Parts, Rest, AreGroups, Prefixes, Concat, Content;
    if !Dead(r.state) {
      SubseqPrefix(r.homes, Parts(Rest(Waited(r.state).elems)), r.blocks);
    }
  }

  lemma TakeKeeps(r: Run, ev: Event)
    requires RunInv(r) && ev.TakeNext? && Enabled(r.state, ev)
    ensures RunInv(Step(r, ev))
  {
    hide RunInv, Inv, Content, HasNext, Take, Grow;
    NextLive(r);
    HandedKeeps(r);
    NextExists(r.state.queue);
    var (q, m) := Take(r.state.queue);
    if ev.closing {
      DestroyKeeps(Handed(r, q, m));
    }
  }

  lemma NextLive(r: Run)
    requires RunInv(r) && !r.state.destroyed && HasNext(r.state.queue)
    ensures Live(r.state)
  {
  }

  lemma NextExists(q: Queue)
    requires HasNext(q)
    ensures q.elems != []
  {
  }

  lemma HandedKeeps(r: Run)
    requires RunInv(r) && Live(r.state) && HasNext(r.state.queue)
    ensures var (q, m) := Take(r.state.queue); RunInv(Handed(r, q, m))
  {
    hide Inv, Content, HasNext, Take, Subseq, Grow, GroupPrefix, FrontLink, QueuePlaced, AreGroups, Prefixes;
    TakeHistory(r);
    TakeGroups(r);
    TakePlaced(r.state.queue, r.groups, r.homes, r.blocks);
  }

  lemma StepKeeps(r: Run, ev: Event)
    requires RunInv(r) && Enabled(r.state, ev)
    ensures RunInv(Step(r, ev))
  {
    hide RunInv, Enabled;
    match ev
    case Send(_, _, _, _) => SendKeeps(r, ev);
    case PeekAt(_) => PeekKeeps(r, ev);
    case TakeNext(_) => TakeKeeps(r, ev);
    case SetOptions(_, _, _) => OptionsKeep(r, ev);
    case Close => CloseKeeps(r);
    case Destroy => DestroyKeeps(r);
  }

  lemma CloseKeeps(r: Run)
    requires RunInv(r)
    ensures RunInv(Step(r, Close))
  {
  }

  // ---------------------------------------------------------------- runs

  ghost predicate Possible(r: Run, events: seq<Event>)
    decreases |events|
  {
    events != [] ==> Enabled(r.state, events[0]) && Possible(Step(r, events[0]), events[1..])
  }

  function Exec(r: Run, events: seq<Event>): Run
    requires Possible(r, events)
    decreases |events|
  {
    if events == [] then r else Exec(Step(r, events[0]), events[1..])
  }

  lemma {:induction false} ExecKeeps(r: Run, events: seq<Event>)
    requires RunInv(r) && Possible(r, events)
    ensures RunInv(Exec(r, events))
    decreases |events|
  {
    hide RunInv, Enabled, Step;
    if events != [] {
      StepKeeps(r, events[0]);
      ExecKeeps(Step(r, events[0]), events[1..]);
    }
  }

  lemma {:induction false} ExecAppend(r: Run, first: seq<Event>, second: seq<Event>)
    requires Possible(r, first) && Possible(Exec(r, first), second)
    ensures Possible(r, first + second) && Exec(r, first + second) == Exec(Exec(r, first), second)
    decreases |first|
  {
    hide Enabled, Step;
    if first == [] {
      assert first + second == second;
    } else {
      ExecAppend(Step(r, first[0]), first[1..], second);
      assert (first + second)[1..] == first[1..] + second;
    }
  }

  lemma ExecOne(r: Run, ev: Event)
    requires Enabled(r.state, ev)
    ensures Possible(r, [ev]) && Exec(r, [ev]) == Step(r, ev)
  {
    hide Enabled, Step;
    assert [ev][1..] == [];
  }

  lemma StartInv(limits: Limits)
    ensures RunInv(Start(limits))
  {
  }

  /** Over every run of one stream: what was handed over, followed by what is still queued, is the accepted messages in
      their order with some left out; every accepted message is handed over, queued or evicted, exactly once; the
      handed-over messages are whole or started groups, one after the other, never interleaved. */
  lemma RunHistory(limits: Limits, events: seq<Event>)
    requires Possible(Start(limits), events)
    ensures var r := Exec(Start(limits), events);
            Subseq(r.sent + Content(r.state.queue.elems), r.accepted)
            && multiset(r.accepted) == multiset(r.sent) + multiset(Content(r.state.queue.elems)) + r.evicted
            && Concat(r.groups) == r.sent
            && (forall i :: 0 <= i < |r.groups| ==> GroupPrefix(r.groups[i]))
            && (!Dead(r.state) ==> Inv(r.state.queue))
  {
    hide Inv, Subseq, Content, GroupPrefix, Exec, Possible;
    StartInv(limits);
    ExecKeeps(Start(limits), events);
  }

  /** Over every run of one stream: what was accepted is a row of groups, one for each element the queue ever had, and every
      group handed over is a prefix of one of them, in their order and each at most once. */
  lemma RunBlocks(limits: Limits, events: seq<Event>)
    requires Possible(Start(limits), events)
    ensures var r := Exec(Start(limits), events);
            Concat(r.blocks) == r.accepted && AreGroups(r.blocks) && Prefixes(r.groups, r.homes) && Subseq(r.homes, r.blocks)
  {
    hide Inv, Subseq, Content, GroupPrefix, Exec, Possible, AreGroups, Prefixes;
    StartInv(limits);
    ExecKeeps(Start(limits), events);
    var r := Exec(Start(limits), events);
    if !Dead(r.state) {
      SubseqPrefix(r.homes, Parts(Rest(Waited(r.state).elems)), r.blocks);
    }
  }

  /** When nothing was evicted and nothing is left, exactly the accepted messages were handed over, in order. */
  lemma RunComplete(limits: Limits, events: seq<Event>)
    requires Possible(Start(limits), events)
    requires var r := Exec(Start(limits), events); r.evicted == multiset{} && Content(r.state.queue.elems) == []
    ensures var r := Exec(Start(limits), events); r.sent == r.accepted
  {
    hide Inv, Subseq, Content, GroupPrefix, Exec, Possible;
    RunHistory(limits, events);
    var r := Exec(Start(limits), events);
    assert r.sent + [] == r.sent;
    assert |multiset(r.accepted)| == |r.accepted| && |multiset(r.sent)| == |r.sent|;
    SubseqLength(r.sent, r.accepted);
  }
}
