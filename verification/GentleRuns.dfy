/** Runs on which no partly sent group is evicted: a condition on the queue before each event, and what it buys at the other
    end, whatever whole groups are evicted and whatever the sequence ids. */
module GentleRuns {
  import opened Bytes
  import opened Sequences
  import opened Pages
  import opened Queue
  import opened QueueProofs
  import opened QueueBlocks
  import opened QueueRun
  import opened Receiver
  import opened Pipeline

  /** Some pages of the first group were handed over and others, here or still to arrive, were not. */
  predicate PartlySent(q: Queue)
  {
    q.elems != [] && !Untouched(q.elems[0]) && !(IsReady(q.elems[0].group) && q.elems[0].group.unsent == [])
  }

  // ---------------------------------------------------------------- what the checks drop

  /** purge with fewer than four elements, or a size check with nothing to drop. */
  predicate SizeSpares(q: Queue, l: Limits)
  {
    match l.policy
    case PurgePolicy => |q.elems| < 4
    case SubscribePolicy => |q.elems| <= 2
  }

  /** purge with fewer than four elements, or a first element inside its time window. */
  predicate TimeSpares(q: Queue, l: Limits, time: int)
  {
    match l.policy
    case PurgePolicy => |q.elems| < 4
    case SubscribePolicy => |q.elems| <= 1 || ElemTs(q.elems[0]) >= time - l.maxDuration
  }

  predicate ChecksSpare(q: Queue, l: Limits, time: int)
  {
    && (q.size > l.maxSize ==> SizeSpares(q, l))
    && (AfterSizeCheck(q, l).time < time - l.maxDuration ==> TimeSpares(AfterSizeCheck(q, l), l, time))
  }

  /** The first element is still the first one. */
  ghost predicate SameFront(before: Queue, after: Queue)
  {
    before.elems != [] && after.elems != [] && after.elems[0] == before.elems[0]
  }

  lemma SizeSparesExact(q: Queue, l: Limits)
    requires Inv(q) && PartlySent(q)
    ensures SameFront(q, CheckSize(q, l).queue) <==> SizeSpares(q, l)
  {
    hide Shape, Counted, Content, TotalSize, DropBig, WithoutFirst;
    if l.policy.SubscribePolicy? && |q.elems| > 2 {
      var k := DropBigExact(q, l.maxSize);
      FirstDropped(q, k);
    }
  }

  lemma TimeSparesExact(q: Queue, l: Limits, time: int)
    requires Inv(q) && PartlySent(q)
    ensures SameFront(q, CheckTime(q, l, time).queue) <==> TimeSpares(q, l, time)
  {
    hide Shape, Counted, Content, TotalSize, DropOld, WithoutFirst;
    if l.policy.SubscribePolicy? && |q.elems| > 1 {
      DropOldExact(q, time - l.maxDuration);
      FirstDropped(q, OldCount(q.elems, time - l.maxDuration));
    }
  }

  lemma FirstDropped(q: Queue, k: nat)
    requires Inv(q) && PartlySent(q) && k <= |q.elems|
    ensures SameFront(q, WithoutFirst(q, k)) <==> k == 0
  {
    hide Shape, Counted, Content, TotalSize;
  }

  /** Both checks together keep a partly sent group exactly on these conditions. */
  lemma ChecksSpareExact(q: Queue, l: Limits, time: int)
    requires Inv(q) && PartlySent(q)
    ensures SameFront(q, CheckQueue(q, l, time).queue) <==> ChecksSpare(q, l, time)
  {
    hide Inv, CheckSize, CheckTime, SizeSpares, TimeSpares, Kept;
    CheckSizeKept(q, l);
    KeptRefl(q);
    var a := AfterSizeCheck(q, l);
    SizeSparesExact(q, l);
    if SameFront(q, a) {
      SizedInv(q, l);
      TimeSparesExact(a, l, time);
    } else {
      FrontGone(q, l, time);
    }
  }

  lemma SizedInv(q: Queue, l: Limits)
    requires Inv(q)
    ensures Inv(AfterSizeCheck(q, l))
  {
    hide Inv, CheckSize, Kept;
    CheckSizeKept(q, l);
    if q.size > l.maxSize {
      KeptInv(q, CheckSize(q, l).queue, CheckSize(q, l).dropped);
    }
  }

  lemma FrontGone(q: Queue, l: Limits, time: int)
    requires Inv(q) && PartlySent(q) && !SameFront(q, AfterSizeCheck(q, l))
    ensures !SameFront(q, CheckQueue(q, l, time).queue)
  {
    hide Inv, CheckSize, CheckTime, Kept, TimeCheckEmpties;
    var a := AfterSizeCheck(q, l);
    SizedInv(q, l);
    CheckSizeKept(q, l);
    KeptRefl(q);
    NewFront(q, a, if q.size > l.maxSize then CheckSize(q, l).dropped else []);
    var b := CheckTime(a, l, time);
    if Strands(a, l, time) {
      TimeCheckEmptiesExact(a, l, time);
    } else {
      CheckTimeKept(a, l, time);
      NewFront(a, b.queue, b.dropped);
    }
  }

  /** A new front element is untouched. */
  lemma NewFront(before: Queue, after: Queue, dropped: seq<Elem>)
    requires Kept(before, after, dropped)
    ensures after.elems == [] || Untouched(after.elems[0]) || SameFront(before, after)
  {
  }

  // ---------------------------------------------------------------- gentle events

  /** A new message abandons the group that waits for pages: not if that is the partly sent one. */
  predicate OfferSpares(q: Queue, m: Msg)
    requires Shape(q)
  {
    q.waiting && |q.elems| == 1 ==> CanAdd(WaitingGroup(q), m)
  }

  /** The event leaves a partly sent group where it is; and no group of one page arrives. */
  ghost predicate Gentle(s: State, ev: Event)
    requires Enabled(s, ev)
  {
    match ev
    case Send(m, linked, close, now) =>
      m.pageId != -1
      && (s.destroyed || Ignored(s, close) || s.stray.Some? || !PartlySent(s.queue)
          || (OfferSpares(s.queue, m)
              && var o := Offer(s.queue, m, linked, now);
                 o.checks ==> ChecksSpare(o.queue, s.limits, m.createdTs)))
    case PeekAt(time) =>
      s.destroyed || !PartlySent(s.queue) || (time - s.limits.maxDuration > s.queue.time ==> TimeSpares(s.queue, s.limits, time))
    case SetOptions(maxSize, maxDuration, now) =>
      s.destroyed || !PartlySent(s.queue) || ChecksSpare(s.queue, Limits(SubscribePolicy, maxSize, maxDuration), now)
    case TakeNext(_) => true
    case Close => true
    case Destroy => true
  }

  ghost predicate AllGentle(r: Run, events: seq<Event>)
    requires Possible(r, events)
    decreases |events|
  {
    events != [] ==> Gentle(r.state, events[0]) && AllGentle(Step(r, events[0]), events[1..])
  }

  /** All groups handed over are complete but perhaps the last, and that one is still at the front of a live queue. */
  ghost predicate GentleInv(r: Run)
  {
    && (forall m :: m in r.accepted ==> m.pageId != -1)
    && (forall i :: 0 <= i < |r.groups| - 1 ==> CompleteGroup(r.groups[i]))
    && (r.groups != [] && !CompleteGroup(r.groups[|r.groups| - 1]) ==> r.state.destroyed || PartlySent(r.state.queue))
  }

  /** Nothing was handed over: what was accepted may grow, and a partly sent front group stays. */
  lemma NothingHanded(r: Run, after: Run)
    requires GentleInv(r) && after.groups == r.groups
    requires after.accepted == r.accepted || forall m :: m in after.accepted ==> m.pageId != -1
    requires after.state.destroyed == r.state.destroyed || after.state.destroyed
    requires !r.state.destroyed && PartlySent(r.state.queue) ==> after.state.destroyed || PartlySent(after.state.queue)
    ensures GentleInv(after)
  {
  }

  lemma GentlePeek(r: Run, ev: Event)
    requires RunInv(r) && ev.PeekAt? && Enabled(r.state, ev) && Gentle(r.state, ev) && GentleInv(r)
    ensures GentleInv(Step(r, ev))
  {
    hide RunInv, GentleInv, Peek;
    if !r.state.destroyed && PartlySent(r.state.queue) {
      NotDead(r);
      PeekSpares(r.state.queue, r.state.limits, ev.time);
    }
    NothingHanded(r, Step(r, ev));
  }

  lemma PeekSpares(q: Queue, l: Limits, time: int)
    requires Inv(q) && PartlySent(q) && (time - l.maxDuration > q.time ==> TimeSpares(q, l, time)) && Peek(q, l, time).Ok?
    ensures SameFront(q, Peek(q, l, time).value.queue)
  {
    hide Inv, CheckTime, TimeSpares;
    TimeSparesExact(q, l, time);
  }

  lemma NotDead(r: Run)
    requires RunInv(r) && !r.state.destroyed
    ensures Inv(r.state.queue)
  {
  }

  lemma SparedFront(before: Queue, after: Queue)
    requires PartlySent(before) && SameFront(before, after)
    ensures PartlySent(after)
  {
  }

  lemma GentleOptions(r: Run, ev: Event)
    requires RunInv(r) && ev.SetOptions? && Enabled(r.state, ev) && Gentle(r.state, ev) && GentleInv(r)
    ensures GentleInv(Step(r, ev))
  {
    hide RunInv, GentleInv, CheckQueue, ChecksSpare, PartlySent;
    var l := Limits(SubscribePolicy, ev.maxSize, ev.maxDuration);
    var t := CheckQueue(r.state.queue, l, ev.now);
    if !r.state.destroyed && PartlySent(r.state.queue) {
      NotDead(r);
      ChecksSpareExact(r.state.queue, l, ev.now);
      SparedFront(r.state.queue, t.queue);
    }
    NothingHanded(r, Step(r, ev));
  }

  /** A page or a new element behind a partly sent group leaves it partly sent. */
  lemma OfferSparesFront(q: Queue, m: Msg, linked: seq<Msg>, now: int)
    requires Inv(q) && PartlySent(q) && Arrival(m, linked)
    ensures Shape(q) && (OfferSpares(q, m) ==> PartlySent(Offer(q, m, linked, now).queue))
  {
    hide Counted, Content, TotalSize;
  }

  lemma GentleSend(r: Run, ev: Event)
    requires RunInv(r) && ev.Send? && Enabled(r.state, ev) && Gentle(r.state, ev) && GentleInv(r)
    ensures GentleInv(Step(r, ev))
  {
    hide RunInv, GentleInv, CheckQueue, ChecksSpare, PartlySent, Offer, OfferSpares, Inv, Arrival;
    var s := r.state;
    ArrivedStarts(r, ev);
    if !s.destroyed && !Ignored(s, ev.close) && PartlySent(s.queue) {
      NotDead(r);
      StrayEmpty(r);
      var o := Offer(s.queue, ev.msg, ev.linked, ev.now);
      OfferSparesFront(s.queue, ev.msg, ev.linked, ev.now);
      OfferInv(s.queue, ev.msg, ev.linked, ev.now);
      ExchangedInv(s.queue, o.queue, o.arrived, o.dropped);
      NotEmptyFront(o.queue);
      if o.checks {
        var t := CheckQueue(o.queue, s.limits, ev.msg.createdTs);
        ChecksSpareExact(o.queue, s.limits, ev.msg.createdTs);
        SparedFront(o.queue, t.queue);
        NotEmptyFront(t.queue);
      }
    }
    NothingHanded(r, Step(r, ev));
  }

  lemma NotEmptyFront(q: Queue)
    requires PartlySent(q)
    ensures q.elems != []
  {
  }

  lemma StrayEmpty(r: Run)
    requires RunInv(r) && !r.state.destroyed && PartlySent(r.state.queue)
    ensures r.state.stray.None?
  {
  }

  /** What a send lets in starts no group of one page. */
  lemma ArrivedStarts(r: Run, ev: Event)
    requires ev.Send? && Enabled(r.state, ev) && ev.msg.pageId != -1 && GentleInv(r)
    ensures forall m :: m in Step(r, ev).accepted ==> m.pageId != -1
  {
    hide CheckQueue, Content;
    var arrived := [ev.msg] + ev.linked;
    assert forall m :: m in ev.linked ==> m.pageId > 0;
    assert forall m :: m in Step(r, ev).accepted ==> m in r.accepted || m in arrived;
  }

  lemma GentleTake(r: Run, ev: Event)
    requires RunInv(r) && ev.TakeNext? && Enabled(r.state, ev) && GentleInv(r)
    ensures GentleInv(Step(r, ev))
  {
    hide RunInv, GentleInv, Take, HasNext, PartlySent, Inv, Content;
    NextLive(r);
    NextExists(r.state.queue);
    NotDead(r);
    HandedKeeps(r);
    var (q, m) := Take(r.state.queue);
    if Untouched(r.state.queue.elems[0]) {
      StartsGently(r);
    } else {
      ContinuesGently(r);
    }
    if ev.closing {
      NothingHanded(Handed(r, q, m), Step(r, ev));
    }
  }

  /** The first page of another group is handed over: the group before it is complete. */
  lemma StartsGently(r: Run)
    requires RunInv(r) && Live(r.state) && !r.state.destroyed && HasNext(r.state.queue) && GentleInv(r)
    requires r.state.queue.elems != [] && Untouched(r.state.queue.elems[0])
    ensures var (q, m) := Take(r.state.queue); GentleInv(Handed(r, q, m))
  {
    hide RunInv, Take, PartlySent, Inv, HasNext, Untouched, Unsent, History, GroupPrefix;
    var (q, m) := Take(r.state.queue);
    NotDead(r);
    RunParts(r);
    Sendable(r);
    NotPartly(r.state.queue);
    FirstTaken(r.state.queue);
    assert Grow(r.groups, [m]) == r.groups + [[m]];
    assert CompleteGroup([m]) <==> m.pageId == 0;
  }

  lemma RunParts(r: Run)
    requires RunInv(r)
    ensures History(r)
  {
  }

  lemma NotPartly(q: Queue)
    requires q.elems != [] && Untouched(q.elems[0])
    ensures !PartlySent(q)
  {
  }

  lemma FirstTaken(q: Queue)
    requires Inv(q) && HasNext(q) && Untouched(q.elems[0])
    ensures var (r, m) := Take(q); m.pageId <= 0 && (m.pageId < -1 ==> PartlySent(r))
  {
    hide Counted, Shape, Content, GroupOk;
    var e := q.elems[0];
    assert ElemOk(e);
    StartPage(e);
    if e.Paged? {
      FirstPageOf(e.group);
    }
  }

  /** The message to be handed over was accepted. */
  lemma Sendable(r: Run)
    requires History(r) && Inv(r.state.queue) && HasNext(r.state.queue)
    ensures Take(r.state.queue).1 in r.accepted
  {
    hide Subseq, Inv;
    TakeInv(r.state.queue);
    var m := Take(r.state.queue).1;
    assert m in Content(r.state.queue.elems);
    assert (r.sent + Content(r.state.queue.elems))[|r.sent|] == m;
    SubseqMembers(r.sent + Content(r.state.queue.elems), r.accepted);
  }

  lemma FirstPageOf(g: Group)
    requires GroupOk(g) && Untouched(Paged(g)) && g.unsent != []
    ensures g.unsent[0].pageId == -g.totalPage && |g.unsent| == g.waitingPage
  {
    assert IsPage(g, g.unsent[0], 0);
  }

  /** A later page is handed over: its group is the last one, and unless it is complete now it is still at the front. */
  lemma ContinuesGently(r: Run)
    requires RunInv(r) && Live(r.state) && !r.state.destroyed && HasNext(r.state.queue) && GentleInv(r)
    requires r.state.queue.elems != [] && !Untouched(r.state.queue.elems[0])
    requires var (q, m) := Take(r.state.queue); RunInv(Handed(r, q, m))
    ensures var (q, m) := Take(r.state.queue); GentleInv(Handed(r, q, m))
  {
    hide Subseq, Counted, Shape, Content, QueuePlaced, AreGroups, Prefixes, GroupOk, GroupPrefix, History, Concat;
    var e, m := r.state.queue.elems[0], Take(r.state.queue).1;
    NotDead(r);
    assert ElemOk(e);
    LaterPages(e);
    var last := r.groups[|r.groups| - 1];
    var grown := Grow(r.groups, [m]);
    assert grown == r.groups[..|r.groups| - 1] + [last + [m]];
    assert GroupPrefix(grown[|grown| - 1]);
    GroupPages(e.group);
    LastPage(last, e.group, m);
  }

  lemma LastPage(last: seq<Msg>, g: Group, m: Msg)
    requires SentPart(last, g) && g.unsent != [] && m == g.unsent[0] && GroupPrefix(last + [m]) && g.totalPage > 0
    ensures IsReady(g) && g.unsent[1..] == [] ==> CompleteGroup(last + [m])
  {
  }

  lemma GentleStep(r: Run, ev: Event)
    requires RunInv(r) && Enabled(r.state, ev) && Gentle(r.state, ev) && GentleInv(r)
    ensures GentleInv(Step(r, ev))
  {
    hide RunInv, Enabled, Gentle, GentleInv;
    match ev
    case Send(_, _, _, _) => GentleSend(r, ev);
    case PeekAt(_) => GentlePeek(r, ev);
    case TakeNext(_) => GentleTake(r, ev);
    case SetOptions(_, _, _) => GentleOptions(r, ev);
    case Close => NothingHanded(r, Step(r, ev));
    case Destroy => NothingHanded(r, Step(r, ev));
  }

  // ---------------------------------------------------------------- whole runs

  lemma {:induction false} GentleExec(r: Run, events: seq<Event>)
    requires RunInv(r) && Possible(r, events) && AllGentle(r, events) && GentleInv(r)
    ensures GentleInv(Exec(r, events))
    decreases |events|
  {
    hide RunInv, Enabled, Step, Gentle, GentleInv;
    if events != [] {
      StepKeeps(r, events[0]);
      GentleStep(r, events[0]);
      GentleExec(Step(r, events[0]), events[1..]);
    }
  }

  /** Over every run on which no partly sent group is evicted, whatever else is: all groups handed over but the last are
      complete, so no abandoned group is followed by another one, and the receiver delivers exactly the values of the groups
      handed over completely, in order, whatever their sequence ids. */
  lemma GentleDelivery(limits: Limits, events: seq<Event>, rid: Int32)
    requires Possible(Start(limits), events) && AllGentle(Start(limits), events)
    ensures var r := Exec(Start(limits), events);
            && (forall i :: 0 <= i < |r.groups| - 1 ==> CompleteGroup(r.groups[i]))
            && Undisturbed(Clear, WireGroups(r.groups, rid))
            && ValuesOf(Deliver(IDLE, Wire(r.sent, rid)).1) == Values(r.groups)
  {
    hide Exec, Possible, AllGentle, RunInv, CompleteGroup, GroupPrefix, Undisturbed, Deliver, Values, PartlySent;
    StartInv(limits);
    GentleExec(Start(limits), events);
    var r := Exec(Start(limits), events);
    RunGroups(limits, events);
    WireSeparated(r.groups, rid);
    EndToEnd(limits, events, rid);
  }

  lemma RunGroups(limits: Limits, events: seq<Event>)
    requires Possible(Start(limits), events)
    ensures AreGroups(Exec(Start(limits), events).groups)
  {
    hide Exec, Possible, Inv, Subseq, Content, GroupPrefix;
    RunHistory(limits, events);
  }

  /** Byte values sent with set_value, with any ids: on every such run they come out unchanged, in order and at most once. */
  lemma GentleValues(limits: Limits, events: seq<Event>, rid: Int32, values: seq<Bytes>, ids: seq<Int32>, stamps: seq<nat -> Stamp>)
    requires |values| == |ids| == |stamps| && Possible(Start(limits), events) && AllGentle(Start(limits), events)
    requires Exec(Start(limits), events).accepted == Concat(InvokeGroups(values, ids, stamps))
    ensures var r := Exec(Start(limits), events); var out := ValuesOf(Deliver(IDLE, Wire(r.sent, rid)).1);
            out == Values(r.groups) && Subseq(out, values)
  {
    hide *;
    GentleDelivery(limits, events, rid);
    SetValueInOrder(limits, events, rid, values, ids, stamps);
  }

  /** And when nothing is left to send or to wait for: each group handed over is the whole of one that was accepted, and
      nothing is missing but what was evicted. */
  lemma GentleIdentity(limits: Limits, events: seq<Event>, rid: Int32)
    requires Possible(Start(limits), events) && AllGentle(Start(limits), events)
    requires var s := Exec(Start(limits), events).state; !s.destroyed && !s.queue.waiting && Content(s.queue.elems) == []
    ensures var r := Exec(Start(limits), events);
            && AllComplete(r.groups) && Subseq(r.groups, r.blocks)
            && multiset(Concat(r.blocks)) == multiset(Concat(r.groups)) + r.evicted
            && ValuesOf(Deliver(IDLE, Wire(r.sent, rid)).1) == ValuesOf(r.groups)
  {
    hide Exec, Possible, AllGentle, RunInv, CompleteGroup, GroupPrefix, Undisturbed, Deliver, PartlySent, Subseq, Inv, Content, Prefixes;
    StartInv(limits);
    GentleExec(Start(limits), events);
    var r := Exec(Start(limits), events);
    GentleDelivery(limits, events, rid);
    RunHistory(limits, events);
    NoneLeft(r.state.queue);
    forall g | g in r.groups ensures CompleteGroup(g) {
      var i :| 0 <= i < |r.groups| && r.groups[i] == g;
    }
    NothingLeftOut(r.groups);
    RunBlocks(limits, events);
    WholeHomes(r.groups, r.homes, r.blocks);
  }

  /** In a queue with nothing to send and nothing to wait for no group is partly sent. */
  lemma NoneLeft(q: Queue)
    requires Inv(q) && !q.waiting && Content(q.elems) == []
    ensures !PartlySent(q)
  {
  }

  lemma WholeHomes(groups: seq<seq<Msg>>, homes: seq<seq<Msg>>, blocks: seq<seq<Msg>>)
    requires AllComplete(groups) && Prefixes(groups, homes) && Subseq(homes, blocks) && AreGroups(blocks)
    ensures groups == homes
  {
    hide CompleteGroup, GroupPrefix, Subseq;
    SubseqMembers(homes, blocks);
    forall i | 0 <= i < |groups| ensures groups[i] == homes[i] {
      assert homes[i] in homes && groups[i] in groups;
      WholeHome(groups[i], homes[i]);
    }
  }
}
