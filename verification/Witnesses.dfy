/** Runs on which a promise of the queue fails, with the limits the source starts with. */
module Witnesses {
  import opened Bytes
  import opened Sequences
  import opened Pages
  import opened Queue
  import opened QueueProofs
  import opened QueueBlocks
  import opened QueueRun
  import opened Receiver
  import opened Pipeline

  const MAX_QUEUE_SIZE := 0x10000
  const MAX_QUEUE_TIME := 120

  function Plain(policy: Policy): Limits
  {
    Limits(policy, MAX_QUEUE_SIZE, MAX_QUEUE_TIME)
  }

  /** A possible run of a fresh stream that hands over exactly `sent`. */
  ghost predicate HandsOver(limits: Limits, events: seq<Event>, sent: seq<Msg>)
  {
    Possible(Start(limits), events) && Exec(Start(limits), events).sent == sent
  }

  // ---------------------------------------------------------------- a group evicted after two of its pages

  predicate AllAt(msgs: seq<Msg>, time: int)
  {
    forall m :: m in msgs ==> m.createdTs == time
  }

  /** Two values of three pages each with two small ones between them, all sent with the default sequence id 0. */
  ghost predicate FourValues(a: seq<Msg>, b: Msg, c: Msg, d: seq<Msg>)
  {
    && CompleteGroup(a) && CompleteGroup(d) && |a| == |d| == 3 && b.pageId == c.pageId == 0
    && a[0].sequenceId == d[0].sequenceId == 0
    && a[2].size + b.size + c.size <= MAX_QUEUE_SIZE < a[2].size + b.size + c.size + d[0].size + d[1].size + d[2].size
    && AllAt(a + [b, c] + d, 0)
  }

  function Sending(g: seq<Msg>): seq<Event>
    requires g != []
  {
    [Send(g[0], g[1..], false, 0)]
  }

  /** Running on from a state that a run has reached. */
  ghost predicate Goes(r: Run, events: seq<Event>, q: Queue, sent: seq<Msg>)
  {
    Possible(r, events) && At(Exec(r, events), q, sent)
  }

  lemma GoesOn(r: Run, first: seq<Event>, q: Queue, sent: seq<Msg>, second: seq<Event>, last: Queue, all: seq<Msg>)
    requires Goes(r, first, q, sent) && Goes(Exec(r, first), second, last, all)
    ensures Goes(r, first + second, last, all)
  {
    hide At;
    ExecAppend(r, first, second);
  }

  /** The session peeks and takes `count` times. */
  function Handing(count: nat): seq<Event>
  {
    if count == 0 then [] else Handing(count - 1) + [PeekAt(0), TakeNext(false)]
  }

  /** Two pages of the first value are handed over before the others are sent; then whatever is left. */
  function Purging(a: seq<Msg>, b: Msg, c: Msg, d: seq<Msg>): seq<Event>
    requires |a| == |d| == 3
  {
    Sending(a) + Handing(2) + Sending([b]) + Sending([c]) + Sending(d) + Handing(3)
  }

  /** An open queue stream with the default limits, nothing in it waiting for pages and nothing old. */
  ghost predicate At(r: Run, q: Queue, sent: seq<Msg>)
  {
    r.state == State(q, Plain(PurgePolicy), false, false, None, 0) && r.sent == sent && q.time == 0 && !q.waiting && Shape(q)
  }

  /** A queued value, with all its pages linked. */
  function ElemOf(g: seq<Msg>): Elem
    requires g != []
  {
    if g[0].pageId < 0 then Paged(Group(g[0].rid, g[0].sequenceId, -g[0].pageId, |g|, g, 0)) else Single(g[0])
  }

  /** The queue after a value was sent; beyond the limit, with four elements or more, only the newest one stays. */
  function SentTo(q: Queue, g: seq<Msg>): Queue
    requires g != []
  {
    var size := if q.elems == [] then TotalSize(g) else q.size + TotalSize(g);
    if q.elems == [] || size <= MAX_QUEUE_SIZE then Queue(q.elems + [ElemOf(g)], false, size, 0)
    else Queue([ElemOf(g)], false, TotalSize(g), 0)
  }

  lemma PushedValue(q: Queue, g: seq<Msg>)
    requires Shape(q) && !q.waiting && q.time == 0 && CompleteGroup(g) && AllAt(g, 0)
    ensures var o := Offer(q, g[0], g[1..], 0);
            o.checks && o.queue == Queue(q.elems + [ElemOf(g)], false, if q.elems == [] then TotalSize(g) else q.size + TotalSize(g), 0)
  {
    assert [g[0]] + g[1..] == g && g[0] in g;
    assert |g| == 1 ==> g == [g[0]];
  }

  lemma SentValue(q: Queue, g: seq<Msg>)
    requires Shape(q) && !q.waiting && q.time == 0 && CompleteGroup(g) && AllAt(g, 0)
    requires q.elems != [] ==> q.size + TotalSize(g) <= MAX_QUEUE_SIZE || |q.elems| >= 3
    ensures SendMessage(q, Plain(PurgePolicy), g[0], g[1..], 0).queue == SentTo(q, g) && Shape(SentTo(q, g))
  {
    PushedValue(q, g);
    assert g[0] in g;
    var size := if q.elems == [] then TotalSize(g) else q.size + TotalSize(g);
    var p := Queue(q.elems + [ElemOf(g)], false, size, 0);
    assert p.elems[|p.elems| - 1] == ElemOf(g) && Remain(ElemOf(g)) == TotalSize(g) && ElemTs(ElemOf(g)) == 0 by {
      assert |g| == 1 ==> g == [g[0]];
    }
    assert Shape(p);
  }

  lemma Sends(r: Run, q: Queue, sent: seq<Msg>, g: seq<Msg>)
    requires At(r, q, sent) && CompleteGroup(g) && AllAt(g, 0)
    requires q.elems != [] ==> q.size + TotalSize(g) <= MAX_QUEUE_SIZE || |q.elems| >= 3
    ensures Goes(r, Sending(g), SentTo(q, g), sent)
  {
    SentValue(q, g);
    assert Arrival(g[0], g[1..]);
    hide TotalSize, Offer, CheckQueue, SendMessage, Arrival, AfterSizeCheck, AllOld, SentTo, Shape, Content, Grow, GrowHome;
    ExecOne(r, Send(g[0], g[1..], false, 0));
  }

  lemma Peeks(r: Run, q: Queue, sent: seq<Msg>)
    requires At(r, q, sent) && HasNext(q)
    ensures Enabled(r.state, PeekAt(0)) && At(Step(r, PeekAt(0)), q, sent)
  {
    hide Content, CheckTime;
  }

  lemma Takes(r: Run, q: Queue, sent: seq<Msg>)
    requires At(r, q, sent) && HasNext(q)
    requires Take(q).0.time == 0 && Shape(Take(q).0)
    ensures Enabled(r.state, TakeNext(false)) && At(Step(r, TakeNext(false)), Take(q).0, sent + [Take(q).1])
  {
    hide Content;
  }

  /** A group of which `n` pages were handed over, alone in the queue. */
  function Part(g: seq<Msg>, n: nat): Elem
    requires g != [] && n <= |g|
  {
    Paged(Group(g[0].rid, g[0].sequenceId, -g[0].pageId, |g|, g[n..], 0))
  }

  function PartQueue(g: seq<Msg>, n: nat): Queue
    requires g != [] && n <= |g|
  {
    Queue([Part(g, n)], false, TotalSize(g[n..]), 0)
  }

  /** Pages of the front group are handed over one by one, each after the peek that announces it. */
  lemma {:induction false} Hands(r: Run, g: seq<Msg>, sent: seq<Msg>, count: nat)
    requires CompleteGroup(g) && |g| >= 2 && AllAt(g, 0) && count <= |g| && At(r, PartQueue(g, 0), sent)
    ensures Goes(r, Handing(count), PartQueue(g, count), sent + g[..count])
  {
    hide CompleteGroup, PartQueue, Step, Enabled, At, AllAt;
    if count == 0 {
      assert sent + g[..0] == sent;
    } else {
      var n := count - 1;
      Hands(r, g, sent, n);
      var mid := Exec(r, Handing(n));
      HandsOne(mid, g, sent + g[..n], n);
      ExecAppend(r, Handing(n), [PeekAt(0), TakeNext(false)]);
      assert (sent + g[..n]) + [g[n]] == sent + g[..count];
    }
  }

  lemma HandsOne(r: Run, g: seq<Msg>, sent: seq<Msg>, n: nat)
    requires CompleteGroup(g) && |g| >= 2 && AllAt(g, 0) && n < |g| && At(r, PartQueue(g, n), sent)
    ensures var e := [PeekAt(0), TakeNext(false)];
            Possible(r, e) && At(Exec(r, e), PartQueue(g, n + 1), sent + [g[n]])
  {
    hide CompleteGroup, PartQueue, Step, Enabled, At, AllAt, Take, HasNext, Shape;
    var q := PartQueue(g, n);
    HandedPart(g, n);
    Peeks(r, q, sent);
    var mid := Step(r, PeekAt(0));
    Takes(mid, q, sent);
    ExecOne(r, PeekAt(0));
    ExecOne(mid, TakeNext(false));
    ExecAppend(r, [PeekAt(0)], [TakeNext(false)]);
    assert [PeekAt(0)] + [TakeNext(false)] == [PeekAt(0), TakeNext(false)];
  }

  lemma HandedPart(g: seq<Msg>, n: nat)
    requires CompleteGroup(g) && |g| >= 2 && AllAt(g, 0) && n < |g|
    ensures var q, next := PartQueue(g, n), PartQueue(g, n + 1);
            HasNext(q) && Take(q) == (next, g[n]) && next.time == 0 && Shape(next)
  {
    assert g[n..][1..] == g[n + 1..] && TotalSize(g[n..]) == g[n].size + TotalSize(g[n + 1..]);
    assert g[n..][0] == g[n] && PartQueue(g, n).elems[1..] == [];
    assert n + 1 < |g| ==> g[n..][1] == g[n + 1] && g[n + 1] in g;
    assert RemoveNext(Part(g, n).group) == Part(g, n + 1).group;
    assert Take(PartQueue(g, n)).0.elems == [Part(g, n + 1)];
  }

  lemma ThenSends(r: Run, first: seq<Event>, q: Queue, sent: seq<Msg>, g: seq<Msg>)
    requires Goes(r, first, q, sent) && CompleteGroup(g) && AllAt(g, 0)
    requires q.elems != [] ==> q.size + TotalSize(g) <= MAX_QUEUE_SIZE || |q.elems| >= 3
    ensures Goes(r, first + Sending(g), SentTo(q, g), sent)
  {
    hide TotalSize, AllAt, At, SentTo, Possible, Exec, Sending;
    Sends(Exec(r, first), q, sent, g);
    GoesOn(r, first, q, sent, Sending(g), SentTo(q, g), sent);
  }

  lemma ThenHands(r: Run, first: seq<Event>, sent: seq<Msg>, g: seq<Msg>, count: nat)
    requires CompleteGroup(g) && |g| >= 2 && AllAt(g, 0) && count <= |g| && Goes(r, first, PartQueue(g, 0), sent)
    ensures Goes(r, first + Handing(count), PartQueue(g, count), sent + g[..count])
  {
    hide TotalSize, CompleteGroup, AllAt, At, PartQueue, Possible, Exec, Handing;
    Hands(Exec(r, first), g, sent, count);
    GoesOn(r, first, PartQueue(g, 0), sent, Handing(count), PartQueue(g, count), sent + g[..count]);
  }

  /** The queue just before the last value is sent: the rest of the first group, and the two small values. */
  lemma BeforeLast(a: seq<Msg>, b: Msg, c: Msg, d: seq<Msg>)
    requires FourValues(a, b, c, d)
    ensures CompleteGroup([b]) && CompleteGroup([c]) && AllAt(a, 0) && AllAt(d, 0) && AllAt([b], 0) && AllAt([c], 0)
    ensures PartQueue(a, 0) == SentTo(Queue([], false, 0, 0), a)
    ensures var q := PartQueue(a, 2); var qb := SentTo(q, [b]); var qc := SentTo(qb, [c]);
            && q.size + TotalSize([b]) <= MAX_QUEUE_SIZE && qb.size + TotalSize([c]) <= MAX_QUEUE_SIZE
            && |qc.elems| == 3 && SentTo(qc, d) == PartQueue(d, 0)
  {
    assert a[2..] == [a[2]] && a[0..] == a && d[0..] == d;
    Total1(a[2]);
    Total1(b);
    Total1(c);
    Total3(d);
  }

  lemma Total1(m: Msg)
    ensures TotalSize([m]) == m.size
  {
    assert [m][1..] == [];
  }

  lemma Total3(d: seq<Msg>)
    requires |d| == 3
    ensures TotalSize(d) == d[0].size + d[1].size + d[2].size
  {
    assert d[1..][1..] == [d[2]];
    Total1(d[2]);
    assert TotalSize(d) == d[0].size + TotalSize(d[1..]) && TotalSize(d[1..]) == d[1].size + TotalSize(d[1..][1..]);
  }

  lemma StartsEmpty()
    ensures At(Start(Plain(PurgePolicy)), Queue([], false, 0, 0), [])
  {
  }

  /** The purge spares only the newest value: the rest of the first group and the two small values are gone... */
  lemma PurgedRun(a: seq<Msg>, b: Msg, c: Msg, d: seq<Msg>)
    requires FourValues(a, b, c, d)
    ensures HandsOver(Plain(PurgePolicy), Purging(a, b, c, d), a[..2] + d)
  {
    hide TotalSize, CompleteGroup, AllAt, Goes, SentTo, PartQueue, Sending, Handing, Start, Plain, HandsOver;
    BeforeLast(a, b, c, d);
    var r, q := Start(Plain(PurgePolicy)), Queue([], false, 0, 0);
    StartsEmpty();
    Sends(r, q, [], a);
    var e := Sending(a);
    ThenHands(r, e, [], a, 2);
    e := e + Handing(2);
    var sent, q2 := [] + a[..2], PartQueue(a, 2);
    ThenSends(r, e, q2, sent, [b]);
    e := e + Sending([b]);
    ThenSends(r, e, SentTo(q2, [b]), sent, [c]);
    e := e + Sending([c]);
    ThenSends(r, e, SentTo(SentTo(q2, [b]), [c]), sent, d);
    e := e + Sending(d);
    ThenHands(r, e, sent, d, 3);
    Arrived(Plain(PurgePolicy), e + Handing(3), PartQueue(d, 3), sent + d[..3]);
    assert sent + d[..3] == a[..2] + d;
  }

  lemma Arrived(limits: Limits, events: seq<Event>, q: Queue, sent: seq<Msg>)
    requires Goes(Start(limits), events, q, sent)
    ensures HandsOver(limits, events, sent)
  {
  }

  /** ...and what comes out at the other end is its first two pages, joined: a value that nobody sent. */
  lemma TruncatedValue(a: seq<Msg>, b: Msg, c: Msg, d: seq<Msg>, rid: Int32)
    requires FourValues(a, b, c, d)
    ensures HandsOver(Plain(PurgePolicy), Purging(a, b, c, d), a[..2] + d)
    ensures ValuesOf(Deliver(IDLE, Wire(a[..2] + d, rid)).1) == [a[0].body + a[1].body]
  {
    PurgedRun(a, b, c, d);
    hide Deliver, Purging, HandsOver, Wire;
    CompletePrefixes([a]);
    CompletePrefixes([d]);
    assert GroupPrefix([a][0]) && GroupPrefix([d][0]);
    PrefixOfGroup(a, 2);
    WireAppend(a[..2], d, rid);
    WireGroup(a[..2], rid);
    WireGroup(d, rid);
    var g, h := Wire(a[..2], rid), Wire(d, rid);
    FollowedBySameId(g, h);
    TwoBodies(a[..2]);
    TwoJoined(a[0].body, a[1].body);
  }

  lemma FollowedBySameId(g: seq<Msg>, h: seq<Msg>)
    requires Abandoned(g) && CompleteGroup(h) && SameId(g, h) && g[0].pageId == -3 && |h| == 3
    ensures ValuesOf(Deliver(IDLE, g + h).1) == [Concat(Bodies(g))]
  {
    hide Deliver;
    assert h[0].pageId < 0;
    SameIdLost(g, h, 3);
    assert h[..3] == h && h[2].pageId == 2 by { PrefixOfGroup(h, 2); }
    assert Deliver(IDLE, g + h).1 == [g];
    assert [g][1..] == [];
  }

  lemma TwoBodies(g: seq<Msg>)
    requires |g| == 2
    ensures Bodies(g) == [g[0].body, g[1].body]
  {
    assert g[1..] == [g[1]] && Bodies([g[1]]) == [g[1].body] + Bodies([]);
  }

  lemma TwoJoined(x: Bytes, y: Bytes)
    ensures Concat([x, y]) == x + y
  {
    assert [x, y][1..] == [y] && [y][1..] == [] && Concat([y]) == y + [];
  }

  // ---------------------------------------------------------------- a subscription queue emptied by its time check

  function Two(m: Msg, n: Msg): seq<Event>
  {
    [Send(m, [], false, m.createdTs), Send(n, [], false, n.createdTs)]
  }

  /** Two updates and then nothing for longer than the queue keeps them: the peek that finds them too old removes both and
      reads the front of an empty deque. */
  lemma EmptiedSubscription(m: Msg, n: Msg, time: int)
    requires m.pageId == n.pageId == 0 && m.createdTs == n.createdTs && m.size + n.size <= MAX_QUEUE_SIZE
    requires time > m.createdTs + MAX_QUEUE_TIME
    ensures var l := Plain(SubscribePolicy); var events := Two(m, n);
            Possible(Start(l), events) && Peek(Exec(Start(l), events).state.queue, l, time).Err?
  {
    hide Possible, Exec, Peek;
    var l, t := Plain(SubscribePolicy), m.createdTs;
    var q := Queue([Single(m)], false, m.size, t);
    UpdateStep(Start(l), Queue([], false, 0, 0), m);
    var r := Exec(Start(l), [Two(m, n)[0]]);
    UpdateStep(r, q, n);
    ExecAppend(Start(l), [Two(m, n)[0]], [Two(m, n)[1]]);
    assert [Two(m, n)[0]] + [Two(m, n)[1]] == Two(m, n);
    assert q.elems + [Single(n)] == [Single(m), Single(n)];
    TwoOld(m, n, time);
  }

  lemma UpdateStep(r: Run, q: Queue, m: Msg)
    requires r.state == State(q, Plain(SubscribePolicy), false, false, None, 0) && m.pageId == 0 && m.size <= MAX_QUEUE_SIZE && !q.waiting
    requires q.elems == [] || (|q.elems| == 1 && q.elems[0].Single? && q.time == m.createdTs && q.size + m.size <= MAX_QUEUE_SIZE)
    ensures var e := [Send(m, [], false, m.createdTs)];
            Possible(r, e)
            && Exec(r, e).state == State(Queue(q.elems + [Single(m)], false, (if q.elems == [] then 0 else q.size) + m.size, m.createdTs),
                                         Plain(SubscribePolicy), false, false, None, 0)
            && Exec(r, e).accepted == r.accepted + [m] && Exec(r, e).sent == r.sent
  {
    QueuedUpdate(q, m);
    assert Shape(q) && Arrival(m, []);
    hide SendMessage, Offer, Strands, AfterSizeCheck, Shape, Arrival, Content, Grow, GrowHome;
    ExecOne(r, Send(m, [], false, m.createdTs));
  }

  lemma TwoOld(m: Msg, n: Msg, time: int)
    requires m.createdTs == n.createdTs && time > m.createdTs + MAX_QUEUE_TIME
    ensures Peek(Queue([Single(m), Single(n)], false, m.size + n.size, m.createdTs), Plain(SubscribePolicy), time).Err?
  {
    TimeCheckEmptiesExact(Queue([Single(m), Single(n)], false, m.size + n.size, m.createdTs), Plain(SubscribePolicy), time);
  }

  lemma QueuedUpdate(q: Queue, m: Msg)
    requires q.elems == [] || (|q.elems| == 1 && q.elems[0].Single? && q.time == m.createdTs && q.size + m.size <= MAX_QUEUE_SIZE)
    requires m.pageId == 0 && m.size <= MAX_QUEUE_SIZE && !q.waiting
    ensures var l := Plain(SubscribePolicy); var o := Offer(q, m, [], m.createdTs);
            o.checks && !Strands(AfterSizeCheck(o.queue, l), l, m.createdTs)
    ensures SendMessage(q, Plain(SubscribePolicy), m, [], m.createdTs).queue
         == Queue(q.elems + [Single(m)], false, (if q.elems == [] then 0 else q.size) + m.size, m.createdTs)
  {
    Total1(m);
  }

  // ---------------------------------------------------------------- a group that is dropped while it waits

  function Arriving(u: Msg, p: seq<Msg>, time: int): seq<Event>
    requires |p| == 3
  {
    [Send(u, [], false, 0), Send(p[0], [], false, 0)] + [Send(p[1], [], false, time)] + [Send(p[2], [], false, time)]
  }

  /** The group with the pages that arrived. */
  function Begun(p: seq<Msg>, n: nat): Group
    requires p != [] && n <= |p|
  {
    Group(p[0].rid, p[0].sequenceId, -p[0].pageId, n, p[..n], 0)
  }

  /** A subscription stream that has handed over nothing. */
  ghost predicate Waits(r: Run, q: Queue, accepted: seq<Msg>, stray: Option<Group>, stale: nat)
  {
    r.state == State(q, Plain(SubscribePolicy), false, false, stray, stale) && r.accepted == accepted && r.sent == []
  }

  function Pair(u: Msg, p: seq<Msg>, n: nat): Queue
    requires p != [] && n <= |p|
  {
    Queue([Single(u), Paged(Begun(p, n))], true, u.size + TotalSize(p[..n]), 0)
  }

  lemma FirstArrives(r: Run, u: Msg, p: seq<Msg>)
    requires Waits(r, Queue([Single(u)], false, u.size, 0), [u], None, 0) && CompleteGroup(p) && |p| == 3
    requires p[0].createdTs == 0 && u.size + p[0].size <= MAX_QUEUE_SIZE
    ensures Enabled(r.state, Send(p[0], [], false, 0))
    ensures Waits(Step(r, Send(p[0], [], false, 0)), Pair(u, p, 1), [u, p[0]], None, 0)
  {
    hide AllOld, Grow, GrowHome;
    Total1(p[0]);
    assert p[..1] == [p[0]] == [p[0]] + [] && [u] + [p[0]] == [u, p[0]];
  }

  /** The second page joins the group, and then both elements are too old. */
  lemma SecondArrives(r: Run, u: Msg, p: seq<Msg>, time: int)
    requires CompleteGroup(p) && |p| == 3 && Waits(r, Pair(u, p, 1), [u, p[0]], None, 0)
    requires u.createdTs == 0 && p[1].createdTs == time > MAX_QUEUE_TIME && u.size + p[0].size + p[1].size <= MAX_QUEUE_SIZE
    ensures Enabled(r.state, Send(p[1], [], false, time))
    ensures Waits(Step(r, Send(p[1], [], false, time)), Queue([], false, 0, 0), [u, p[0], p[1]], Some(Begun(p, 2)), 0)
  {
    hide Grow, GrowHome, DropOld, Content;
    assert p[1..][0] == p[1] && p[..2] == p[..1] + [p[1]];
    assert [u, p[0]] + [p[1]] == [u, p[0], p[1]];
    Total1(p[0]);
    assert TotalSize(p[..2]) == p[0].size + p[1].size by { TotalSizeAppend(p[..1], [p[1]]); Total1(p[1]); }
    PairExtends(u, p);
    BothDropped(u, p, time - MAX_QUEUE_TIME);
  }

  lemma PairExtends(u: Msg, p: seq<Msg>)
    requires CompleteGroup(p) && |p| == 3
    ensures Shape(Pair(u, p, 1)) && CanAdd(WaitingGroup(Pair(u, p, 1)), p[1]) && Extend(Pair(u, p, 1), p[1]) == Pair(u, p, 2)
  {
    assert p[1..][0] == p[1] && p[..2] == p[..1] + [p[1]];
    Total1(p[0]);
    Total1(p[1]);
    TotalSizeAppend(p[..1], [p[1]]);
    assert p[..1] == [p[0]];
    assert Add(Begun(p, 1), p[1]) == Begun(p, 2);
    assert [Single(u)] + [Paged(Begun(p, 2))] == Pair(u, p, 2).elems;
  }

  lemma BothDropped(u: Msg, p: seq<Msg>, target: int)
    requires |p| == 3 && u.createdTs == 0 < target
    ensures DropOld(Pair(u, p, 2), target) == Trimmed(Queue([], true, 0, 0), Pair(u, p, 2).elems)
  {
    var q := Pair(u, p, 2);
    var second := q.(elems := q.elems[1..], size := q.size - u.size);
    Total1(u);
    assert DropOld(second, target) == Trimmed(Queue([], true, 0, 0), [q.elems[1]]) by {
      assert second.elems[1..] == [] && [q.elems[1]] + [] == [q.elems[1]];
    }
    assert [q.elems[0]] + [q.elems[1]] == q.elems;
  }

  lemma ThirdArrives(r: Run, u: Msg, p: seq<Msg>, time: int)
    requires CompleteGroup(p) && |p| == 3 && Waits(r, Queue([], false, 0, 0), [u, p[0], p[1]], Some(Begun(p, 2)), 0)
    ensures Enabled(r.state, Send(p[2], [], false, time))
    ensures Waits(Step(r, Send(p[2], [], false, time)), Queue([], false, 0, 0), [u] + p, None, p[2].size)
  {
    hide Grow;
    assert p[1..][1] == p[2] && [u, p[0], p[1]] + [p[2]] == [u] + p;
  }

  /** An update, the first of three pages, and the other two after longer than the queue keeps them: the check behind the
      second page empties the deque, the third page completes a group that is not in it, and the value is gone, although
      _current_queue_size still counts that page. */
  lemma VanishedValue(u: Msg, p: seq<Msg>, time: int)
    requires u.pageId == 0 && CompleteGroup(p) && |p| == 3 && time > MAX_QUEUE_TIME
    requires u.createdTs == p[0].createdTs == 0 && p[1].createdTs == time && u.size + p[0].size + p[1].size <= MAX_QUEUE_SIZE
    ensures Possible(Start(Plain(SubscribePolicy)), Arriving(u, p, time))
    ensures var r := Exec(Start(Plain(SubscribePolicy)), Arriving(u, p, time));
            && r.accepted == [u] + p && r.sent == [] && r.state.queue == Queue([], false, 0, 0)
            && r.state.stray.None? && r.state.stale == p[2].size
  {
    hide Possible, Exec, Enabled, Step, CompleteGroup;
    var r0 := Start(Plain(SubscribePolicy));
    var e := [Send(u, [], false, 0)];
    UpdateStep(r0, Queue([], false, 0, 0), u);
    assert [] + [Single(u)] == [Single(u)] && [] + [u] == [u];
    var r1 := Exec(r0, e);
    FirstArrives(r1, u, p);
    var e1 := Send(p[0], [], false, 0);
    ExecOne(r1, e1);
    ExecAppend(r0, e, [e1]);
    SecondArrives(Step(r1, e1), u, p, time);
    var e2 := Send(p[1], [], false, time);
    ExecOne(Step(r1, e1), e2);
    ExecAppend(r0, e + [e1], [e2]);
    ThirdArrives(Step(Step(r1, e1), e2), u, p, time);
    var e3 := Send(p[2], [], false, time);
    ExecOne(Step(Step(r1, e1), e2), e3);
    ExecAppend(r0, e + [e1] + [e2], [e3]);
    assert e + [e1] == [Send(u, [], false, 0), e1];
  }
}
