/** The outgoing message queue as a state machine on values: the specification that the class in QueueStream.dfy is
    proved against. src/sdk/stream/message_io_stream.cc, src/sdk/message/message_page_group.cc and
    src/sdk/stream/responder/outgoing_subscribe_stream.cc. */
module Queue {
  import opened Bytes
  import opened Pages

  /** An OutgoingPages object. `unsent` is the linked list that starts at _next_send. */
  datatype Group = Group(rid: Int32, sequenceId: Int32, totalPage: int, waitingPage: int, unsent: seq<Msg>, createdTs: int)

  datatype Elem = Single(msg: Msg) | Paged(group: Group)

  /** Which check_queue_time and check_queue_size run: those of MessageQueueStream or of OutgoingSubscribeStream. */
  datatype Policy = PurgePolicy | SubscribePolicy

  datatype Limits = Limits(policy: Policy, maxSize: int, maxDuration: int)

  /** _queue, whether _waiting_page_group is set (it then is the last element), _current_queue_size, _current_queue_time. */
  datatype Queue = Queue(elems: seq<Elem>, waiting: bool, size: int, time: int)

  function TotalSize(msgs: seq<Msg>): nat
  {
    if msgs == [] then 0 else msgs[0].size + TotalSize(msgs[1..])
  }

  function Unsent(e: Elem): seq<Msg>
  {
    match e
    case Single(m) => [m]
    case Paged(g) => g.unsent
  }

  /** Everything still to be sent, in order. */
  function Content(elems: seq<Elem>): seq<Msg>
  {
    if elems == [] then [] else Unsent(elems[0]) + Content(elems[1..])
  }

  /** GET_REMAIN_SIZE. */
  function Remain(e: Elem): nat { TotalSize(Unsent(e)) }

  function ElemTs(e: Elem): int
  {
    match e
    case Single(m) => m.createdTs
    case Paged(g) => g.createdTs
  }

  predicate IsReady(g: Group) { g.waitingPage >= g.totalPage }

  // ---------------------------------------------------------------- eviction

  datatype Trimmed = Trimmed(queue: Queue, dropped: seq<Elem>)

  /** MessageQueueStream::purge. */
  function Purge(q: Queue): Trimmed
  {
    var n := |q.elems|;
    if n <= 2 then Trimmed(q, [])
    else if n == 3 then
      Trimmed(q.(elems := [q.elems[0], q.elems[2]], size := Remain(q.elems[0]) + Remain(q.elems[2])), [q.elems[1]])
    else
      Trimmed(q.(elems := [q.elems[n - 1]], size := Remain(q.elems[n - 1]), time := ElemTs(q.elems[n - 1])), q.elems[..n - 1])
  }

  /** The loop of OutgoingSubscribeStream::check_queue_time. */
  function DropOld(q: Queue, target: int): Trimmed
    decreases |q.elems|
  {
    if q.elems == [] then Trimmed(q, [])
    else if ElemTs(q.elems[0]) >= target then Trimmed(q.(time := ElemTs(q.elems[0])), [])
    else
      var t := DropOld(q.(elems := q.elems[1..], size := q.size - Remain(q.elems[0])), target);
      Trimmed(t.queue, [q.elems[0]] + t.dropped)
  }

  function CheckTime(q: Queue, limits: Limits, time: int): Trimmed
  {
    match limits.policy
    case PurgePolicy => Purge(q)
    case SubscribePolicy => if |q.elems| <= 1 then Trimmed(q, []) else DropOld(q, time - limits.maxDuration)
  }

  /** The loop of OutgoingSubscribeStream::check_queue_size: at least one element goes, the last one stays. Its guard for
      a partly sent first group reads a link that is never set on a group, so it protects nothing. */
  function DropBig(q: Queue, maxSize: int): Trimmed
    requires |q.elems| >= 2
    decreases |q.elems|
  {
    var rest := q.(elems := q.elems[1..], size := q.size - Remain(q.elems[0]));
    if rest.size <= maxSize || |rest.elems| == 1 then Trimmed(rest.(time := ElemTs(rest.elems[0])), [q.elems[0]])
    else
      var t := DropBig(rest, maxSize);
      Trimmed(t.queue, [q.elems[0]] + t.dropped)
  }

  function CheckSize(q: Queue, limits: Limits): Trimmed
  {
    match limits.policy
    case PurgePolicy => Purge(q)
    case SubscribePolicy => if |q.elems| <= 2 then Trimmed(q, []) else DropBig(q, limits.maxSize)
  }

  /** The tail of send_message from CHECK_QUEUE on. */
  function CheckQueue(q: Queue, limits: Limits, currentTime: int): Trimmed
  {
    var a := if q.size > limits.maxSize then CheckSize(q, limits) else Trimmed(q, []);
    if a.queue.time < currentTime - limits.maxDuration then
      var b := CheckTime(a.queue, limits, currentTime);
      Trimmed(b.queue, a.dropped + b.dropped)
    else a
  }

  // ---------------------------------------------------------------- arrival

  /** The OutgoingPages constructor on a first page and the pages already linked behind it. */
  function NewGroup(first: Msg, linked: seq<Msg>, now: int): Group
  {
    Group(first.rid, first.sequenceId, -first.pageId, 1 + |linked|, [first] + linked, now)
  }

  /** OutgoingPages::check_add accepts the message. */
  predicate CanAdd(g: Group, m: Msg)
  {
    m.rid == g.rid && m.sequenceId == g.sequenceId && m.pageId == g.waitingPage
  }

  function Add(g: Group, m: Msg): Group
  {
    g.(waitingPage := g.waitingPage + 1, unsent := g.unsent + [m],
       createdTs := if g.unsent == [] then m.createdTs else g.createdTs)
  }

  /** `arrived`: the messages that joined the queue; `checks`: control reached CHECK_QUEUE. */
  datatype Offered = Offered(queue: Queue, arrived: seq<Msg>, dropped: seq<Elem>, checks: bool)

  function WaitingGroup(q: Queue): Group
    requires Shape(q) && q.waiting
  {
    q.elems[|q.elems| - 1].group
  }

  /** A page that continues the waiting group. */
  function Extend(q: Queue, m: Msg): Queue
    requires Shape(q) && q.waiting
  {
    var g := Add(WaitingGroup(q), m);
    q.(elems := q.elems[..|q.elems| - 1] + [Paged(g)], size := q.size + m.size, waiting := !IsReady(g))
  }

  /** A message that does not continue it: the group is abandoned. */
  function Abandon(q: Queue): Queue
    requires Shape(q) && q.waiting
  {
    q.(elems := q.elems[..|q.elems| - 1], size := q.size - Remain(q.elems[|q.elems| - 1]), waiting := false)
  }

  /** A new element at the back, or nothing for a later page whose group is gone. */
  function Push(q: Queue, m: Msg, linked: seq<Msg>, now: int): Queue
  {
    var e := if m.pageId < 0 then Paged(NewGroup(m, linked, now)) else Single(m);
    q.(elems := q.elems + [e],
       waiting := e.Paged? && !IsReady(e.group),
       size := if q.elems == [] then Remain(e) else q.size + Remain(e),
       time := if q.elems == [] then m.createdTs else q.time)
  }

  /** send_message up to CHECK_QUEUE; `linked` are the pages already linked behind a first page. */
  function Offer(q: Queue, m: Msg, linked: seq<Msg>, now: int): Offered
    requires Shape(q)
  {
    if q.waiting && CanAdd(WaitingGroup(q), m) then Offered(Extend(q, m), [m], [], true)
    else
      var base := if q.waiting then Abandon(q) else q;
      var gone := if q.waiting then [q.elems[|q.elems| - 1]] else [];
      if m.pageId > 0 then Offered(base, [], gone, false)
      else Offered(Push(base, m, linked, now), if m.pageId < 0 then [m] + linked else [m], gone, true)
  }

  // ---------------------------------------------------------------- departure

  datatype Peeked = Peeked(queue: Queue, size: int, dropped: seq<Elem>)

  /** peek_next_message_size on a live stream. It has no value when the time check empties the queue: the source then
      reads the front of an empty deque. */
  function Peek(q: Queue, limits: Limits, time: int): (r: Result<Peeked>)
    decreases |q.elems|
  {
    if q.elems == [] then Ok(Peeked(q, 0, []))
    else
      var t := if time - limits.maxDuration > q.time then CheckTime(q, limits, time) else Trimmed(q, []);
      CheckTimeShrinks(q, limits, time);
      if t.queue.elems == [] then Err("front of an empty queue")
      else
        match t.queue.elems[0]
        case Single(m) => Ok(Peeked(t.queue, m.size, t.dropped))
        case Paged(g) =>
          if IsReady(g) && g.unsent == [] then
            var r := Peek(t.queue.(elems := t.queue.elems[1..]), limits, time);
            if r.Err? then r else Ok(r.value.(dropped := t.dropped + r.value.dropped))
          else Ok(Peeked(t.queue, if g.unsent == [] then 0 else g.unsent[0].size, t.dropped))
  }

  lemma CheckTimeShrinks(q: Queue, limits: Limits, time: int)
    ensures |CheckTime(q, limits, time).queue.elems| <= |q.elems|
  {
    DropOldShrinks(q, time - limits.maxDuration);
  }

  lemma {:induction false} DropOldShrinks(q: Queue, target: int)
    ensures |DropOld(q, target).queue.elems| <= |q.elems|
    decreases |q.elems|
  {
    if q.elems != [] && ElemTs(q.elems[0]) < target {
      DropOldShrinks(q.(elems := q.elems[1..], size := q.size - Remain(q.elems[0])), target);
    }
  }

  /** There is a message to take: peek_next_message_size just returned a positive size. */
  predicate HasNext(q: Queue)
  {
    q.elems != [] && Unsent(q.elems[0]) != []
  }

  /** OutgoingPages::remove_next_send. */
  function RemoveNext(g: Group): Group
    requires g.unsent != []
  {
    g.(unsent := g.unsent[1..], createdTs := if |g.unsent| >= 2 then g.unsent[1].createdTs else g.createdTs)
  }

  /** get_next_message, when the message taken does not close the stream. */
  function Take(q: Queue): (Queue, Msg)
    requires HasNext(q)
  {
    var m := Unsent(q.elems[0])[0];
    var elems := match q.elems[0] case Single(_) => q.elems[1..] case Paged(g) => [Paged(RemoveNext(g))] + q.elems[1..];
    (q.(elems := elems, size := q.size - m.size, time := if elems == [] then q.time else ElemTs(elems[0])), m)
  }

  // ---------------------------------------------------------------- the invariant

  predicate IsLastWaiting(q: Queue, i: int)
    requires 0 <= i < |q.elems|
  {
    q.waiting && i == |q.elems| - 1
  }

  /** A non-null _waiting_page_group is not ready and is the last element; every other group is ready. */
  ghost predicate Shape(q: Queue)
  {
    && (q.waiting ==> q.elems != [])
    && forall i :: 0 <= i < |q.elems| ==>
         (IsLastWaiting(q, i) <==> q.elems[i].Paged? && !IsReady(q.elems[i].group))
  }

  /** The page that has number `k` in this group. */
  predicate IsPage(g: Group, m: Msg, k: int)
  {
    m.rid == g.rid && m.sequenceId == g.sequenceId && m.pageId == if k == 0 then -g.totalPage else k
  }

  /** The unsent pages of a group are its last accepted ones, in page order, none missing. */
  ghost predicate GroupOk(g: Group)
  {
    && 1 <= g.waitingPage <= g.totalPage
    && |g.unsent| <= g.waitingPage
    && forall j :: 0 <= j < |g.unsent| ==> IsPage(g, g.unsent[j], g.waitingPage - |g.unsent| + j)
  }

  ghost predicate ElemOk(e: Elem)
  {
    match e
    case Single(m) => m.pageId == 0
    case Paged(g) => GroupOk(g)
  }

  predicate Untouched(e: Elem)
  {
    e.Paged? ==> |e.group.unsent| == e.group.waitingPage
  }

  /** Only the first element can be partly sent. */
  ghost predicate ElemsOk(elems: seq<Elem>)
  {
    && (forall i :: 0 <= i < |elems| ==> ElemOk(elems[i]))
    && (forall i :: 1 <= i < |elems| ==> Untouched(elems[i]))
  }

  /** _current_queue_size is the number of bytes that remain to be sent. */
  ghost predicate Counted(q: Queue)
  {
    q.size == TotalSize(Content(q.elems))
  }

  ghost predicate Inv(q: Queue)
  {
    Shape(q) && ElemsOk(q.elems) && Counted(q)
  }
}
