/** MessageQueueStream and OutgoingSubscribeStream: the deque of messages and page groups, updated in place.
    Every method is proved to do what the specification in Queue.dfy says.
    src/sdk/stream/message_io_stream.cc and src/sdk/stream/responder/outgoing_subscribe_stream.cc. */
module QueueStream {
  import opened Bytes
  import opened Pages
  import opened PageObjects
  import Q = Queue
  import QP = QueueProofs
  import QR = QueueRun

  /** An element of the deque: a message, or an OutgoingPages in the role of one. */
  datatype Entry = One(message: Message) | Many(pages: OutgoingPages)

  function GroupsOf(entries: seq<Entry>): set<OutgoingPages>
  {
    set i | 0 <= i < |entries| && entries[i].Many? :: entries[i].pages
  }

  ghost function AbsEntry(e: Entry): Q.Elem
    reads if e.Many? then {e.pages} else {}
  {
    match e
    case One(m) => Q.Single(m.msg)
    case Many(p) => Q.Paged(p.Abs())
  }

  ghost function AbsEntries(entries: seq<Entry>): (r: seq<Q.Elem>)
    reads GroupsOf(entries)
    ensures |r| == |entries| && forall i :: 0 <= i < |r| ==> r[i] == AbsEntry(entries[i])
  {
    if entries == [] then []
    else
      assert forall p :: p in GroupsOf(entries[1..]) ==> p in GroupsOf(entries);
      [AbsEntry(entries[0])] + AbsEntries(entries[1..])
  }

  /** The groups are consistent objects and no group is in the deque twice. */
  ghost predicate EntriesOk(entries: seq<Entry>)
    reads GroupsOf(entries)
  {
    && (forall i :: 0 <= i < |entries| && entries[i].Many? ==> entries[i].pages.Valid())
    && (forall i, j :: 0 <= i < j < |entries| && entries[i].Many? && entries[j].Many? ==> entries[i].pages != entries[j].pages)
  }

  /** GET_REMAIN_SIZE on the object. */
  function RemainSize(e: Entry): int
    reads if e.Many? then {e.pages} else {}
  {
    match e
    case One(m) => m.msg.size
    case Many(p) => p.remainSize
  }

  function CreatedTs(e: Entry): int
    reads if e.Many? then {e.pages} else {}
  {
    match e
    case One(m) => m.msg.createdTs
    case Many(p) => p.createdTs
  }

  lemma RemainSizeExact(e: Entry)
    requires e.Many? ==> e.pages.Valid()
    ensures RemainSize(e) == Q.Remain(AbsEntry(e)) && CreatedTs(e) == Q.ElemTs(AbsEntry(e))
  {
    if e.One? {
      QP.TotalSizeOne(e.message.msg);
    }
  }

  lemma EntriesMore(entries: seq<Entry>, e: Entry)
    requires EntriesOk(entries) && (e.Many? ==> e.pages.Valid() && e.pages !in GroupsOf(entries))
    ensures EntriesOk(entries + [e])
  {
    assert forall i :: 0 <= i < |entries| && entries[i].Many? ==> entries[i].pages in GroupsOf(entries);
  }

  lemma AbsEntriesMore(entries: seq<Entry>, e: Entry)
    ensures AbsEntries(entries + [e]) == AbsEntries(entries) + [AbsEntry(e)]
  {
  }

  /** One round of each eviction loop, on the specification. */
  lemma DropOldRound(q: Q.Queue, target: int)
    ensures q.elems == [] ==> Q.DropOld(q, target).queue == q
    ensures q.elems != [] && Q.ElemTs(q.elems[0]) >= target ==> Q.DropOld(q, target).queue == q.(time := Q.ElemTs(q.elems[0]))
    ensures q.elems != [] && Q.ElemTs(q.elems[0]) < target ==>
              Q.DropOld(q, target).queue == Q.DropOld(q.(elems := q.elems[1..], size := q.size - Q.Remain(q.elems[0])), target).queue
  {
  }

  lemma DropBigRound(q: Q.Queue, maxSize: int)
    requires |q.elems| >= 2
    ensures var rest := q.(elems := q.elems[1..], size := q.size - Q.Remain(q.elems[0]));
            Q.DropBig(q, maxSize).queue ==
            if rest.size <= maxSize || |rest.elems| == 1 then rest.(time := Q.ElemTs(rest.elems[0])) else Q.DropBig(rest, maxSize).queue
  {
  }

  /** The links of every queued group reach exactly its unsent pages: what the receiving stream's merger maintains. */
  ghost predicate LinkedEntries(entries: seq<Entry>)
    reads GroupsOf(entries), PagesOf(entries)
  {
    forall i :: 0 <= i < |entries| && entries[i].Many? ==> Linked(entries[i].pages.unsent)
  }

  ghost function PagesOf(entries: seq<Entry>): set<Message>
    reads GroupsOf(entries)
  {
    set i, j | 0 <= i < |entries| && entries[i].Many? && 0 <= j < |entries[i].pages.unsent| :: entries[i].pages.unsent[j]
  }

  /** The same, when the merger has already linked `m` behind the group it continues. */
  ghost predicate LinkedWith(entries: seq<Entry>, waiting: OutgoingPages?, m: Message)
    reads GroupsOf(entries), PagesOf(entries), m
  {
    forall i :: 0 <= i < |entries| && entries[i].Many? ==>
      var g := entries[i].pages;
      Linked(if g == waiting && Q.CanAdd(g.Abs(), m.msg) then g.unsent + [m] else g.unsent)
  }

  lemma LinkedSubset(some: seq<Entry>, all: seq<Entry>)
    requires LinkedEntries(all) && forall e :: e in some ==> e in all
    ensures LinkedEntries(some)
  {
    forall i | 0 <= i < |some| && some[i].Many? ensures Linked(some[i].pages.unsent) {
      assert some[i] in all;
    }
  }

  lemma LinkedNotWaiting(entries: seq<Entry>, waiting: OutgoingPages?, m: Message)
    requires LinkedWith(entries, waiting, m) && (waiting != null ==> !Q.CanAdd(waiting.Abs(), m.msg))
    ensures LinkedEntries(entries)
  {
  }

  lemma LinkedTail(chain: seq<Message>)
    requires chain != [] && Linked(chain)
    ensures Linked(chain[1..])
  {
  }

  lemma LinkedAppend(entries: seq<Entry>, e: Entry)
    requires LinkedEntries(entries) && (e.Many? ==> Linked(e.pages.unsent))
    ensures LinkedEntries(entries + [e])
  {
  }

  lemma EntriesTail(entries: seq<Entry>)
    requires EntriesOk(entries) && entries != []
    ensures EntriesOk(entries[1..]) && AbsEntries(entries[1..]) == AbsEntries(entries)[1..]
  {
    hide OutgoingPages.Valid;
  }

  /** check_add on the group at the back of the deque, or outside an empty one, leaves the other elements alone. */
  method AddToLast(entries: seq<Entry>, g: OutgoingPages, m: Message)
    requires EntriesOk(entries) && (entries != [] ==> entries[|entries| - 1] == Many(g)) && g.Valid() && Q.CanAdd(g.Abs(), m.msg)
    modifies g
    ensures EntriesOk(entries) && g.Valid()
    ensures entries != [] ==>
              AbsEntries(entries) == old(AbsEntries(entries))[..|entries| - 1] + [Q.Paged(Q.Add(old(g.Abs()), m.msg))]
    ensures g.Abs() == Q.Add(old(g.Abs()), m.msg) && g.unsent == old(g.unsent) + [m]
    ensures forall i :: 0 <= i < |entries| - 1 && entries[i].Many? ==> entries[i].pages.unsent == old(entries[i].pages.unsent)
    ensures old(LinkedWith(entries, g, m)) ==> LinkedEntries(entries)
  {
    hide Q.CanAdd, Q.Add, Q.TotalSize, Vals, AbsEntries;
    ghost var n := |entries|;
    assert forall i :: 0 <= i < n - 1 && entries[i].Many? ==> entries[i].pages != g;
    assert n > 0 ==> entries[n - 1].pages == g;
    var ok := g.CheckAdd(m);
    assert forall i :: 0 <= i < n - 1 ==> AbsEntry(entries[i]) == old(AbsEntry(entries[i]));
  }

  /** drop on a group that is no longer in the deque. */
  method DropOutside(entries: seq<Entry>, g: OutgoingPages)
    requires EntriesOk(entries) && g !in GroupsOf(entries)
    modifies g
    ensures EntriesOk(entries) && AbsEntries(entries) == old(AbsEntries(entries))
    ensures old(LinkedEntries(entries)) ==> LinkedEntries(entries)
  {
    assert forall i :: 0 <= i < |entries| && entries[i].Many? ==> entries[i].pages in GroupsOf(entries);
    g.Drop();
  }

  class MessageQueueStream {
    const policy: Q.Policy
    var queue: seq<Entry>
    var waitingPageGroup: OutgoingPages?
    var currentQueueSize: int
    var currentQueueTime: int
    var maxQueueSize: int
    var maxQueueDuration: int
    var closed: bool
    var destroyed: bool
    /** _writing: the session has this stream in its write list. */
    var writing: bool

    ghost function Abs(): Q.Queue
      reads this, GroupsOf(queue)
    {
      Q.Queue(AbsEntries(queue), waitingPageGroup != null, currentQueueSize, currentQueueTime)
    }

    ghost function Limits(): Q.Limits
      reads this
    {
      Q.Limits(policy, maxQueueSize, maxQueueDuration)
    }

    /** The deque and _waiting_page_group agree. */
    ghost predicate Consistent()
      reads this, GroupsOf(queue)
    {
      && EntriesOk(queue)
      && (waitingPageGroup != null && queue != [] ==> queue[|queue| - 1] == Many(waitingPageGroup))
    }

    ghost predicate Valid()
      reads this, GroupsOf(queue)
    {
      Consistent() && Q.Inv(Abs())
    }

    /** The deque is empty. _waiting_page_group may refer to a group that a time check dropped, and _current_queue_size may
        count pages of that group. */
    ghost predicate Emptied()
      reads this, waitingPageGroup
    {
      queue == [] && currentQueueSize >= 0 && (waitingPageGroup != null ==> waitingPageGroup.Valid())
    }

    ghost predicate Ok()
      reads this, GroupsOf(queue), waitingPageGroup
    {
      Valid() || Emptied()
    }

    ghost function State(): QR.State
      reads this, GroupsOf(queue), waitingPageGroup
    {
      if queue == [] then
        QR.State(Q.Queue([], false, 0, currentQueueTime), Limits(), closed, destroyed,
                 if waitingPageGroup == null then None else Some(waitingPageGroup.Abs()),
                 if currentQueueSize >= 0 then currentQueueSize else 0)
      else QR.State(Abs(), Limits(), closed, destroyed, None, 0)
    }

    lemma StateFields()
      requires Ok() || Valid() || Emptied()
      ensures Ok() && forall c :: QR.Ignored(State(), c) <==> closed && !c
      ensures State().limits == Limits() && Limits().policy == policy
      ensures State().destroyed == destroyed && State().closed == closed
      ensures Valid() ==> State() == QR.State(Abs(), Limits(), closed, destroyed, None, 0)
      ensures State().stray.Some? <==> waitingPageGroup != null && queue == []
      ensures State().stray.Some? ==> State().stray.value == waitingPageGroup.Abs()
      ensures queue != [] ==> Valid()
      ensures queue == [] ==> Emptied() && State().queue == Q.Queue([], false, 0, currentQueueTime)
    {
      hide Q.ElemsOk;
      if Valid() && queue == [] {
        QR.EmptySize(Abs());
      }
    }

    /** The group outside the deque. */
    ghost function Stray(): Option<Q.Group>
      reads `waitingPageGroup, waitingPageGroup
    {
      if waitingPageGroup == null then None else Some(waitingPageGroup.Abs())
    }

    lemma EmptyState()
      requires queue == []
      ensures State() == QR.State(Q.Queue([], false, 0, Abs().time), Limits(), closed, destroyed, Stray(),
                                  if Abs().size >= 0 then Abs().size else 0)
      ensures Abs().elems == [] && (waitingPageGroup != null ==> Stray() == Some(waitingPageGroup.Abs()))
      ensures Emptied() <==> Abs().size >= 0 && (waitingPageGroup != null ==> waitingPageGroup.Valid())
    {
    }

    lemma Parts()
      requires Ok()
      ensures Consistent() && |Abs().elems| == |queue| && Abs().waiting == (waitingPageGroup != null)
      ensures Q.Inv(State().queue) && State().queue.elems == Abs().elems && (queue != [] ==> State().queue == Abs())
      ensures waitingPageGroup != null ==> waitingPageGroup.Valid()
      ensures waitingPageGroup != null && queue != [] ==>
                Q.Shape(Abs()) && Abs().elems[|queue| - 1] == Q.Paged(waitingPageGroup.Abs())
                && Q.WaitingGroup(Abs()) == waitingPageGroup.Abs()
    {
    }

    /** What the checks leave, seen as a state. */
    lemma Checked(s: QR.State, time: int)
      requires s.queue.elems != [] && Q.Inv(s.queue) && s == QR.State(s.queue, Limits(), closed, destroyed, None, 0)
      requires Consistent() && Abs() == Q.CheckQueue(s.queue, s.limits, time).queue && s.queue.waiting == (waitingPageGroup != null)
      requires waitingPageGroup != null ==>
                 waitingPageGroup.Valid() && s.queue.elems[|s.queue.elems| - 1] == Q.Paged(waitingPageGroup.Abs())
      ensures var t := Q.CheckQueue(s.queue, s.limits, time); Ok() && State() == QR.Settle(s, t.queue, t.dropped)
    {
      hide *;
      var t := Q.CheckQueue(s.queue, s.limits, time);
      EntryCount();
      SettleParts(s, time);
      if QP.Strays(s.queue, s.limits, time) {
        WaitingAbs();
        EmptyState();
      } else {
        MakeValid(t.queue);
      }
      StateFields();
    }

    lemma WaitingAbs()
      ensures Abs().waiting == (waitingPageGroup != null)
    {
    }

    constructor (policy: Q.Policy)
      ensures Valid() && Abs() == QR.Start(Limits()).state.queue && this.policy == policy && !closed && !destroyed && !writing
      ensures State() == QR.Start(Q.Limits(policy, 0x10000, 120)).state
    {
      this.policy := policy;
      queue, waitingPageGroup, currentQueueSize, currentQueueTime := [], null, 0, 0;
      maxQueueSize, maxQueueDuration := 0x10000, 120;
      closed, destroyed, writing := false, false, false;
    }

    // -------------------------------------------------------------- eviction

    /** purge. */
    method Purge()
      requires Consistent()
      modifies `queue, `currentQueueSize, `currentQueueTime
      ensures Consistent() && Abs() == Q.Purge(old(Abs())).queue
      ensures forall e :: e in queue ==> e in old(queue)
    {
      if |queue| == 3 {
        PurgeMiddle();
      } else if |queue| > 3 {
        PurgeAllButLast();
      }
    }

    method PurgeMiddle()
      requires Consistent() && |queue| == 3
      modifies `queue, `currentQueueSize
      ensures Consistent() && Abs() == Q.Purge(old(Abs())).queue
      ensures queue == [old(queue)[0], old(queue)[2]]
    {
      hide Q.Remain;
      var last := queue[2];
      RemainSizeExact(last);
      RemainSizeExact(queue[0]);
      currentQueueSize := RemainSize(queue[0]) + RemainSize(last);
      queue := [queue[0]] + [last];
    }

    method PurgeAllButLast()
      requires Consistent() && |queue| > 3
      modifies `queue, `currentQueueSize, `currentQueueTime
      ensures Consistent() && Abs() == Q.Purge(old(Abs())).queue
      ensures queue == [old(queue)[|old(queue)| - 1]]
    {
      hide Q.Remain;
      var last := queue[|queue| - 1];
      RemainSizeExact(last);
      queue := [last];
      currentQueueSize := RemainSize(last);
      currentQueueTime := CreatedTs(last);
    }

    /** The loop of OutgoingSubscribeStream::check_queue_time. */
    method DropOld(target: int)
      requires Consistent()
      modifies `queue, `currentQueueSize, `currentQueueTime
      ensures Consistent() && Abs() == Q.DropOld(old(Abs()), target).queue
      ensures forall e :: e in queue ==> e in old(queue)
    {
      hide Q.DropOld, Q.Remain, Q.ElemTs, EntriesOk, AbsEntries;
      ghost var k := 0;
      while queue != []
        invariant 0 <= k <= |old(queue)| && queue == old(queue)[k..]
        invariant Consistent()
        invariant Q.DropOld(Abs(), target).queue == Q.DropOld(old(Abs()), target).queue
        decreases |queue|
      {
        DropOldRound(Abs(), target);
        FrontExact();
        if CreatedTs(queue[0]) >= target {
          SetTimeFromFront();
          return;
        }
        DropFront();
        k := k + 1;
      }
      DropOldRound(Abs(), target);
    }

    method SetTimeFromFront()
      requires Consistent() && queue != []
      modifies `currentQueueTime
      ensures Consistent() && Abs() == old(Abs()).(time := Q.ElemTs(old(Abs()).elems[0]))
    {
      FrontExact();
      currentQueueTime := CreatedTs(queue[0]);
    }

    lemma FrontExact()
      requires Consistent() && queue != []
      ensures CreatedTs(queue[0]) == Q.ElemTs(Abs().elems[0]) && RemainSize(queue[0]) == Q.Remain(Abs().elems[0])
    {
      RemainSizeExact(queue[0]);
    }

    /** Size bookkeeping and pop_front, as both eviction loops do it. */
    method DropFront()
      requires Consistent() && queue != []
      modifies `queue, `currentQueueSize
      ensures Consistent() && queue == old(queue)[1..]
      ensures var q := old(Abs()); Abs() == q.(elems := q.elems[1..], size := q.size - Q.Remain(q.elems[0]))
    {
      hide Q.Remain;
      RemainSizeExact(queue[0]);
      currentQueueSize := currentQueueSize - RemainSize(queue[0]);
      queue := queue[1..];
    }

    /** The loop of OutgoingSubscribeStream::check_queue_size. */
    method DropBig()
      requires Consistent() && |queue| >= 2
      modifies `queue, `currentQueueSize, `currentQueueTime
      ensures Consistent() && Abs() == Q.DropBig(old(Abs()), maxQueueSize).queue
      ensures forall e :: e in queue ==> e in old(queue)
    {
      hide Q.DropBig, Q.Remain, Q.ElemTs, EntriesOk, AbsEntries;
      ghost var k, whole := 0, Q.DropBig(Abs(), maxQueueSize).queue;
      while true
        invariant 0 <= k && |queue| >= 2 && k + |queue| == |old(queue)| && queue == old(queue)[k..]
        invariant Consistent() && Q.DropBig(Abs(), maxQueueSize).queue == whole
        decreases |queue|
      {
        DropBigRound(Abs(), maxQueueSize);
        DropFront();
        k := k + 1;
        if currentQueueSize <= maxQueueSize || |queue| == 1 {
          break;
        }
      }
      SetTimeFromFront();
    }

    /** check_queue_time, which subclasses override. */
    method CheckQueueTime(time: int)
      requires Consistent()
      modifies `queue, `currentQueueSize, `currentQueueTime
      ensures Consistent() && Abs() == Q.CheckTime(old(Abs()), Limits(), time).queue
      ensures forall e :: e in queue ==> e in old(queue)
    {
      hide Q.Purge, Q.DropOld, EntriesOk, AbsEntries;
      if policy.PurgePolicy? {
        Purge();
      } else if |queue| > 1 {
        DropOld(time - maxQueueDuration);
      }
    }

    /** check_queue_size, which subclasses override. */
    method CheckQueueSize()
      requires Consistent()
      modifies `queue, `currentQueueSize, `currentQueueTime
      ensures Consistent() && Abs() == Q.CheckSize(old(Abs()), Limits()).queue
      ensures forall e :: e in queue ==> e in old(queue)
    {
      hide Q.Purge, Q.DropBig, EntriesOk, AbsEntries;
      if policy.PurgePolicy? {
        Purge();
      } else if |queue| > 2 {
        DropBig();
      }
    }

    /** The two checks at the end of send_message and of set_options. */
    method CheckQueue(currentTime: int)
      requires Consistent()
      modifies `queue, `currentQueueSize, `currentQueueTime
      ensures Consistent() && Abs() == Q.CheckQueue(old(Abs()), Limits(), currentTime).queue
      ensures forall e :: e in queue ==> e in old(queue)
    {
      hide Q.CheckSize, Q.CheckTime, EntriesOk, AbsEntries;
      if currentQueueSize > maxQueueSize {
        CheckQueueSize();
      }
      if currentQueueTime < currentTime - maxQueueDuration {
        CheckQueueTime(currentTime);
      }
    }

    // -------------------------------------------------------------- arrival

    /** The waiting group takes the message. */
    method ExtendWaiting(m: Message)
      requires Ok() && waitingPageGroup != null && Q.CanAdd(waitingPageGroup.Abs(), m.msg)
      requires LinkedWith(queue, waitingPageGroup, m)
      modifies `waitingPageGroup, `currentQueueSize, waitingPageGroup
      ensures LinkedEntries(queue) && Consistent() && Limits() == old(Limits())
      ensures old(queue) != [] ==> old(Valid()) && Abs() == Q.Extend(old(Abs()), m.msg)
      ensures old(queue) == [] ==> Emptied() && State() == QR.Swallow(old(State()), m.msg)
      ensures queue == old(queue) && old(waitingPageGroup).unsent == old(waitingPageGroup.unsent) + [m]
      ensures forall i :: 0 <= i < |queue| - 1 && queue[i].Many? ==> queue[i].pages.unsent == old(queue[i].pages.unsent)
    {
      hide Q.Inv, Q.CanAdd, Q.Add, Q.Remain, EntriesOk, AbsEntries, LinkedWith, LinkedEntries, State, OutgoingPages.Valid;
      StateFields();
      WaitingValid();
      var g := waitingPageGroup;
      if queue == [] {
        EmptyState();
      }
      AddToLast(queue, g, m);
      Account(m.msg.size, if g.IsReady() then null else g);
      if queue == [] {
        EmptyState();
      }
    }

    lemma WaitingValid()
      requires Ok() && waitingPageGroup != null
      ensures waitingPageGroup.Valid() && EntriesOk(queue) && (queue != [] ==> Valid() && Q.Shape(Abs()))
      ensures queue != [] ==> queue[|queue| - 1] == Many(waitingPageGroup)
    {
    }

    /** Changes _current_queue_size and _waiting_page_group. */
    method Account(delta: int, waiting: OutgoingPages?)
      requires Consistent()
      requires waiting != null && queue != [] ==> queue[|queue| - 1] == Many(waiting)
      modifies `currentQueueSize, `waitingPageGroup
      ensures Consistent() && waitingPageGroup == waiting
      ensures Abs() == old(Abs()).(size := old(currentQueueSize) + delta, waiting := waiting != null)
      ensures old(LinkedEntries(queue)) ==> LinkedEntries(queue)
    {
      hide AbsEntries, Linked;
      currentQueueSize := currentQueueSize + delta;
      waitingPageGroup := waiting;
      assert AbsEntries(queue) == old(AbsEntries(queue));
    }

    /** The waiting group is dropped from the queue. */
    method AbandonWaiting()
      requires Valid() && waitingPageGroup != null && LinkedEntries(queue)
      modifies `queue, `waitingPageGroup, `currentQueueSize, waitingPageGroup
      ensures LinkedEntries(queue)
      ensures Consistent() && Abs() == Q.Abandon(old(Abs())) && waitingPageGroup == null
      ensures queue == old(queue)[..|old(queue)| - 1]
    {
      hide Q.Inv, Q.Remain, EntriesOk, AbsEntries;
      QP.ShapeInv(Abs());
      var g := waitingPageGroup;
      BackExact();
      Account(-g.remainSize, null);
      PopBack();
      LinkedSubset(queue, old(queue));
      DropOutside(queue, g);
    }

    lemma BackExact()
      requires Consistent() && queue != []
      ensures RemainSize(queue[|queue| - 1]) == Q.Remain(Abs().elems[|queue| - 1])
    {
      RemainSizeExact(queue[|queue| - 1]);
    }

    method PopBack()
      requires Consistent() && queue != [] && waitingPageGroup == null
      modifies `queue
      ensures Consistent() && queue == old(queue)[..|old(queue)| - 1]
      ensures Abs() == old(Abs()).(elems := old(Abs()).elems[..|old(queue)| - 1])
      ensures var e := old(queue)[|old(queue)| - 1]; e.Many? ==> e.pages !in GroupsOf(queue)
    {
      queue := queue[..|queue| - 1];
    }

    /** emplace_back of a message or of a new group. `chain` are the pages linked behind a first page. */
    method Push(m: Message, ghost chain: seq<Message>, now: int)
      requires Consistent() && waitingPageGroup == null && m.msg.pageId <= 0
      requires chain != [] && chain[0] == m && Linked(chain) && LinkedEntries(queue)
      modifies `queue, `waitingPageGroup, `currentQueueSize, `currentQueueTime
      ensures LinkedEntries(queue)
      ensures Consistent() && Abs() == Q.Push(old(Abs()), m.msg, Vals(chain[1..]), now)
      ensures |queue| == |old(queue)| + 1 && queue[..|old(queue)|] == old(queue)
      ensures var e := queue[|old(queue)|]; e.Many? ==> fresh(e.pages) && e.pages.unsent == chain
      ensures waitingPageGroup == null || fresh(waitingPageGroup)
    {
      hide Q.Remain, Linked, EntriesOk, AbsEntries, LinkedEntries;
      var e: Entry;
      if m.msg.pageId < 0 {
        var g := MakeGroup(m, chain, now);
        e := Many(g);
        LinkedAppend(queue, e);
        PushEntry(e, m.msg.createdTs, if g.IsReady() then null else g);
      } else {
        e := One(m);
        LinkedAppend(queue, e);
        PushEntry(e, m.msg.createdTs, null);
      }
    }

    method MakeGroup(m: Message, ghost chain: seq<Message>, now: int) returns (g: OutgoingPages)
      requires Consistent() && chain != [] && chain[0] == m && Linked(chain) && LinkedEntries(queue)
      ensures fresh(g) && g.Valid() && g.unsent == chain && g.Abs() == Q.NewGroup(m.msg, Vals(chain[1..]), now)
      ensures Consistent() && Abs() == old(Abs()) && LinkedEntries(queue) && Linked(chain) && g !in GroupsOf(queue)
    {
      hide Q.TotalSize, Vals, AbsEntries;
      g := new OutgoingPages(m, chain, now);
      assert AbsEntries(queue) == old(AbsEntries(queue));
    }

    method PushEntry(e: Entry, createdTs: int, waiting: OutgoingPages?)
      requires Consistent() && waitingPageGroup == null
      requires e.Many? ==> e.pages.Valid() && e.pages !in GroupsOf(queue)
      requires LinkedEntries(queue + [e])
      requires waiting != null ==> e == Many(waiting)
      modifies `queue, `waitingPageGroup, `currentQueueSize, `currentQueueTime
      ensures LinkedEntries(queue)
      ensures Consistent() && queue == old(queue) + [e] && waitingPageGroup == waiting
      ensures var q := old(Abs());
              Abs() == Q.Queue(q.elems + [AbsEntry(e)], waiting != null,
                               if q.elems == [] then Q.Remain(AbsEntry(e)) else q.size + Q.Remain(AbsEntry(e)),
                               if q.elems == [] then createdTs else q.time)
    {
      hide Q.Remain, EntriesOk, AbsEntries, LinkedEntries;
      Append(e, createdTs);
      Account(0, waiting);
    }

    /** The bookkeeping of send_message for a new element. */
    method Append(e: Entry, createdTs: int)
      requires Consistent() && waitingPageGroup == null
      requires e.Many? ==> e.pages.Valid() && e.pages !in GroupsOf(queue)
      requires LinkedEntries(queue + [e])
      modifies `queue, `currentQueueSize, `currentQueueTime
      ensures LinkedEntries(queue)
      ensures Consistent() && queue == old(queue) + [e] && AbsEntries(queue) == old(AbsEntries(queue)) + [AbsEntry(e)]
      ensures currentQueueSize == (if old(queue) == [] then 0 else old(currentQueueSize)) + Q.Remain(AbsEntry(e))
      ensures currentQueueTime == if old(queue) == [] then createdTs else old(currentQueueTime)
    {
      hide Q.Remain, AbsEntries, Linked, OutgoingPages.Valid;
      RemainSizeExact(e);
      AbsEntriesMore(queue, e);
      EntriesMore(queue, e);
      if queue == [] {
        currentQueueTime := createdTs;
        currentQueueSize := RemainSize(e);
      } else {
        currentQueueSize := currentQueueSize + RemainSize(e);
      }
      queue := queue + [e];
    }

    /** send_message. `chain` is the message with the pages already linked behind it; the pages of the waiting group are
        linked by the merger of the receiving stream before the message is offered here. */
    method SendMessage(m: Message, ghost chain: seq<Message>, close: bool, now: int)
      requires Ok() && chain != [] && chain[0] == m && Linked(chain) && LinkedWith(queue, waitingPageGroup, m)
      requires QR.Enabled(State(), QR.Send(m.msg, Vals(chain[1..]), close, now))
      modifies this, waitingPageGroup
      ensures old(QR.Ignored(State(), close)) ==> State() == old(State()) && writing == old(writing) && queue == old(queue)
      ensures !old(QR.Ignored(State(), close)) ==>
                && (old(State()).stray.Some? || Q.Shape(old(State()).queue))
                && State() == QR.Sent(old(State()), m.msg, Vals(chain[1..]), now)
                && writing == (old(writing) || old(State()).stray.Some?
                               || QR.SendMessage(old(State()).queue, Limits(), m.msg, Vals(chain[1..]), now).checks)
                && LinkedEntries(queue)
      ensures Ok() && Limits() == old(Limits()) && closed == old(closed) && destroyed == old(destroyed)
    {
      hide *;
      ghost var s := State();
      StateFields();
      SendParts(s, m.msg, Vals(chain[1..]), close, now);
      if closed && !close {
        return;
      }
      Parts();
      SentParts(s, m.msg, Vals(chain[1..]), now);
      var checks := OfferMessage(m, chain, now);
      if checks {
        CheckQueueOk(m.msg.createdTs);
        WriteStream([]);
      }
    }

    /** The request to the session: write_stream, unless this stream is in its write list already. */
    method WriteStream(ghost before: seq<Entry>)
      requires Ok()
      modifies `writing
      ensures Ok() && (old(Valid()) ==> Valid()) && Abs() == old(Abs()) && State() == old(State()) && Limits() == old(Limits()) && writing
      ensures queue == old(queue) && waitingPageGroup == old(waitingPageGroup) && (old(LinkedEntries(queue)) ==> LinkedEntries(queue))
      ensures old(FrontTime(before)) ==> FrontTime(before)
    {
      hide Q.Inv, AbsEntries;
      if !writing {
        writing := true;
        assert AbsEntries(queue) == old(AbsEntries(queue));
      }
    }

    lemma LimitsAre()
      ensures Limits() == Q.Limits(policy, maxQueueSize, maxQueueDuration)
    {
    }

    /** Both checks, which may drop the group that is still waiting for pages. */
    method CheckQueueOk(currentTime: int)
      requires Ok() && LinkedEntries(queue)
      modifies `queue, `currentQueueSize, `currentQueueTime
      ensures Ok() && LinkedEntries(queue) && Limits() == old(Limits()) && forall e :: e in queue ==> e in old(queue)
      ensures var t := Q.CheckQueue(old(State()).queue, old(Limits()), currentTime);
              State() == QR.Settle(old(State()), t.queue, t.dropped)
      ensures old(queue) == [] ==> State() == old(State())
    {
      hide *;
      ghost var s := State();
      StateFields();
      Parts();
      LimitsAre();
      if queue == [] {
        EmptyState();
        QR.NothingChecked(s.queue, Limits(), currentTime);
        QR.NothingChecked(Abs(), Limits(), currentTime);
        QR.SettleNone(s, s.queue, []);
      }
      CheckLinked(currentTime);
      LimitsAre();
      if s.queue.elems == [] {
        EntryCount();
        EmptyState();
        StateFields();
      } else {
        Checked(s, currentTime);
      }
    }

    method CheckLinked(currentTime: int)
      requires Consistent() && LinkedEntries(queue) && (waitingPageGroup != null ==> waitingPageGroup.Valid())
      modifies `queue, `currentQueueSize, `currentQueueTime
      ensures Consistent() && LinkedEntries(queue) && Abs() == Q.CheckQueue(old(Abs()), old(Limits()), currentTime).queue
      ensures forall e :: e in queue ==> e in old(queue)
      ensures waitingPageGroup != null ==> waitingPageGroup.Valid() && waitingPageGroup.Abs() == old(waitingPageGroup.Abs())
      ensures Stray() == old(Stray())
    {
      hide Q.CheckQueue, EntriesOk, AbsEntries, Linked;
      CheckQueue(currentTime);
      LinkedSubset(queue, old(queue));
    }

    /** send_message up to CHECK_QUEUE. */
    method OfferMessage(m: Message, ghost chain: seq<Message>, now: int) returns (checks: bool)
      requires Ok() && chain != [] && chain[0] == m && Linked(chain) && QP.Arrival(m.msg, Vals(chain[1..]))
      requires LinkedWith(queue, waitingPageGroup, m)
      requires State().stray.Some? ==> Q.CanAdd(State().stray.value, m.msg)
      modifies `queue, `waitingPageGroup, `currentQueueSize, `currentQueueTime, waitingPageGroup
      ensures Ok() && (!checks ==> m.msg.pageId > 0) && Limits() == old(Limits()) && LinkedEntries(queue)
      ensures old(State()).stray.Some? ==> checks && queue == [] && State() == QR.Swallow(old(State()), m.msg)
      ensures old(State()).stray.None? ==>
                && Q.Shape(old(State()).queue)
                && var o := Q.Offer(old(State()).queue, m.msg, Vals(chain[1..]), now);
                   checks == o.checks
                   && State() == (if checks then old(State()).(stale := 0) else old(State())).(queue := o.queue)
    {
      hide *;
      ghost var s, linked := State(), Vals(chain[1..]);
      StateFields();
      LimitsAre();
      Parts();
      if s.stray.None? {
        OfferCases(s.queue, m.msg, linked, now);
      }
      if waitingPageGroup != null {
        var g := waitingPageGroup;
        GroupFields(g, m);
        if m.msg.rid == g.rid && m.msg.sequenceId == g.sequenceId && m.msg.pageId == g.waitingPage {
          ExtendWaiting(m);
          if s.stray.None? {
            MakeValid(Q.Offer(s.queue, m.msg, linked, now).queue);
          }
          StateFields();
          return true;
        }
        LinkedNotWaiting(queue, waitingPageGroup, m);
        AbandonWaiting();
      } else {
        LinkedNotWaiting(queue, waitingPageGroup, m);
      }
      PushOnEmpty(Abs(), s.queue, m.msg, linked, now);
      LimitsAre();
      if m.msg.pageId <= 0 {
        Push(m, chain, now);
        MakeValid(Q.Offer(s.queue, m.msg, linked, now).queue);
        checks := true;
      } else {
        if s.queue.waiting {
          MakeValid(Q.Offer(s.queue, m.msg, linked, now).queue);
        }
        checks := false;
      }
      LimitsAre();
      StateFields();
    }

    // -------------------------------------------------------------- departure

    /** peek_next_message_size: evicts what is too old, skips finished groups, and reports the size of the message that
        get_next_message would return, or 0. */
    method PeekNextMessageSize(available: int, time: int) returns (size: int)
      requires Ok() && LinkedEntries(queue)
      requires destroyed || Q.Peek(State().queue, Limits(), time).Ok?
      modifies `queue, `currentQueueSize, `currentQueueTime
      ensures Ok() && LinkedEntries(queue) && Limits() == old(Limits())
      ensures destroyed ==> size == 0 && State() == old(State())
      ensures !destroyed ==> var p := Q.Peek(old(State()).queue, Limits(), time).value;
                             State() == old(State()).(queue := p.queue) && size == p.size
      decreases |queue|
    {
      hide *;
      LimitsAre();
      StateFields();
      Parts();
      PeekCases(State().queue, Limits(), time);
      if destroyed || queue == [] {
        return 0;
      }
      ValidParts();
      EntryCount();
      if time - maxQueueDuration > currentQueueTime {
        CheckTimeValid(time);
        LimitsAre();
        EntryCount();
      }
      StateFields();
      FrontKind();
      match queue[0] {
        case One(m) =>
          return m.msg.size;
        case Many(pages) =>
          if pages.waitingPage >= pages.totalPage && pages.nextSend == null {
            PopFinished();
            LimitsAre();
            StateFields();
            size := PeekNextMessageSize(available, time);
            return;
          }
          size := pages.NextSize();
      }
    }

    lemma EntryCount()
      ensures |Abs().elems| == |queue| && Abs().time == currentQueueTime
    {
    }

    /** How the front of the deque shows in the specification. */
    lemma FrontKind()
      requires Consistent() && queue != []
      ensures match queue[0]
              case One(m) => Abs().elems[0] == Q.Single(m.msg)
              case Many(g) =>
                g.Valid() && Abs().elems[0] == Q.Paged(g.Abs())
                && (Q.IsReady(g.Abs()) <==> g.waitingPage >= g.totalPage)
                && (g.Abs().unsent == [] <==> g.nextSend == null) && (g.unsent == [] <==> g.nextSend == null)
                && (g.unsent != [] ==> g.Abs().unsent[0] == g.unsent[0].msg)
                && g.NextSize() == (if g.unsent == [] then 0 else g.unsent[0].msg.size)
    {
    }

    method CheckTimeValid(time: int)
      requires Valid() && LinkedEntries(queue) && !QP.TimeCheckEmpties(Abs(), Limits(), time)
      modifies `queue, `currentQueueSize, `currentQueueTime
      ensures Valid() && LinkedEntries(queue) && Abs() == Q.CheckTime(old(Abs()), old(Limits()), time).queue && Limits() == old(Limits())
      ensures Consistent() && |queue| <= |old(queue)|
    {
      hide Q.Inv, Q.CheckTime, QP.TimeCheckEmpties, QP.Kept, QP.NewestKept, EntriesOk, AbsEntries;
      ghost var q, l := Abs(), Limits();
      QP.CheckTimeKept(q, l, time);
      QP.KeptInv(q, Q.CheckTime(q, l, time).queue, Q.CheckTime(q, l, time).dropped);
      Q.CheckTimeShrinks(q, l, time);
      CheckQueueTime(time);
      LinkedSubset(queue, old(queue));
    }

    /** pop_front of a group that is completely sent. */
    method PopFinished()
      requires Valid() && LinkedEntries(queue) && queue != [] && queue[0].Many?
      requires queue[0].pages.waitingPage >= queue[0].pages.totalPage && queue[0].pages.nextSend == null
      modifies `queue
      ensures Valid() && LinkedEntries(queue) && queue == old(queue)[1..] && Limits() == old(Limits())
      ensures Abs() == old(Abs()).(elems := old(Abs()).elems[1..])
    {
      hide *;
      ghost var q := Abs();
      ValidParts();
      LimitsAre();
      EntryCount();
      FrontKind();
      FinishedGone(q);
      LinkedSubset(queue[1..], queue);
      PopFrontLinked();
      LimitsAre();
      MakeValid(q.(elems := q.elems[1..]));
    }

    /** get_next_message. `closing` is the answer of check_close_message on the message taken; it makes the session destroy
        the stream. Otherwise a stream with anything left asks to be written again. */
    method GetNextMessage(closing: bool) returns (m: Message)
      requires Ok() && LinkedEntries(queue) && QR.Enabled(State(), QR.TakeNext(closing))
      modifies this, GroupsOf(queue)
      ensures m.msg == Q.Take(old(State()).queue).1 && Limits() == old(Limits()) && Ok()
      ensures !closing ==> LinkedEntries(queue) && State() == old(State()).(queue := Q.Take(old(State()).queue).0) && FrontTime(old(queue))
      ensures closing ==> queue == [] && closed && destroyed
      ensures writing == (old(writing) || queue != [])
    {
      hide *;
      TakeEnabled(State(), closing);
      StateFields();
      Parts();
      m := TakeFront();
      StateFields();
      if closing {
        Destroy();
      } else if queue != [] {
        WriteStream(old(queue));
      }
    }

    method TakeFront() returns (m: Message)
      requires Valid() && LinkedEntries(queue) && Q.HasNext(Abs())
      modifies `queue, `currentQueueSize, `currentQueueTime, GroupsOf(queue)
      ensures Valid() && LinkedEntries(queue) && Abs() == Q.Take(old(Abs())).0 && m.msg == Q.Take(old(Abs())).1
      ensures Limits() == old(Limits()) && FrontTime(old(queue))
    {
      hide *;
      ghost var q := Abs();
      LimitsAre();
      ValidParts();
      QP.TakeInv(q);
      TakeCases(q);
      EntryCount();
      m := RemoveFront();
      EntryCount();
      SettleFront(m.msg.size, old(queue));
      MakeFrontTime(old(queue));
      LimitsAre();
      MakeValid(Q.Take(q).0);
    }

    /** _current_queue_time is that of the first message, or of the next page of a group of which a page left. */
    ghost predicate FrontTime(before: seq<Entry>)
      reads `queue, `currentQueueTime, GroupsOf(queue)
    {
      FrontNext(before) && (queue != [] ==> currentQueueTime == CreatedTs(queue[0]))
    }

    ghost predicate FrontNext(before: seq<Entry>)
      reads `queue, GroupsOf(queue)
    {
      queue != [] && before != [] && before[0] == queue[0] && queue[0].Many? && queue[0].pages.unsent != [] ==>
        CreatedTs(queue[0]) == queue[0].pages.unsent[0].msg.createdTs
    }

    lemma MakeFrontTime(before: seq<Entry>)
      requires FrontNext(before) && (queue != [] ==> currentQueueTime == CreatedTs(queue[0]))
      ensures FrontTime(before)
    {
    }

    /** The first message of the deque leaves it. */
    method RemoveFront() returns (m: Message)
      requires Consistent() && LinkedEntries(queue) && queue != [] && Q.Unsent(Abs().elems[0]) != []
      modifies `queue, GroupsOf(queue)
      ensures Consistent() && LinkedEntries(queue)
      ensures m.msg == Q.Unsent(old(Abs()).elems[0])[0] && FrontNext(old(queue))
      ensures var q := old(Abs());
              Abs() == q.(elems := match q.elems[0]
                                   case Single(_) => q.elems[1..]
                                   case Paged(g) => [Q.Paged(Q.RemoveNext(g))] + q.elems[1..])
    {
      hide *;
      FrontUnsent();
      FrontKind();
      match queue[0] {
        case One(message) =>
          m := message;
          LinkedSubset(queue[1..], queue);
          PopFrontLinked();
          OtherFront(old(queue));
        case Many(pages) =>
          m := SendPage(pages);
      }
    }

    lemma OtherFront(before: seq<Entry>)
      requires before != [] && before[0].One?
      ensures FrontNext(before)
    {
    }

    lemma FrontUnsent()
      requires Consistent() && queue != []
      ensures Abs().elems != []
      ensures match queue[0]
              case One(m) => Q.Unsent(Abs().elems[0]) == [m.msg]
              case Many(g) => Q.Unsent(Abs().elems[0]) == g.Abs().unsent && g in GroupsOf(queue)
    {
    }

    /** _current_queue_size and _current_queue_time after a message left. */
    method SettleFront(taken: int, ghost before: seq<Entry>)
      requires Consistent() && LinkedEntries(queue)
      modifies `currentQueueSize, `currentQueueTime
      ensures Consistent() && LinkedEntries(queue) && queue == old(queue)
      ensures queue != [] ==> currentQueueTime == CreatedTs(queue[0])
      ensures old(FrontNext(before)) ==> FrontNext(before)
      ensures var q := old(Abs());
              Abs() == q.(size := q.size - taken, time := if q.elems == [] then q.time else Q.ElemTs(q.elems[0]))
    {
      hide AbsEntries, Linked, OutgoingPages.Valid, Q.ElemTs, Q.Remain;
      if queue != [] {
        FrontExact();
        currentQueueTime := CreatedTs(queue[0]);
      }
      currentQueueSize := currentQueueSize - taken;
      assert AbsEntries(queue) == old(AbsEntries(queue));
    }

    method PopFrontLinked()
      requires Consistent() && queue != [] && LinkedEntries(queue[1..])
      modifies `queue
      ensures Consistent() && queue == old(queue)[1..] && Abs() == old(Abs()).(elems := old(Abs()).elems[1..])
      ensures LinkedEntries(queue)
    {
      hide Linked, OutgoingPages.Valid, AbsEntries;
      EntriesTail(queue);
      queue := queue[1..];
    }

    /** remove_next_send on the group at the front. */
    method SendPage(g: OutgoingPages) returns (m: Message)
      requires Consistent() && LinkedEntries(queue) && queue != [] && queue[0] == Many(g) && g.unsent != []
      modifies g
      ensures Consistent() && LinkedEntries(queue) && m == old(g.unsent[0]) && FrontNext(queue)
      ensures Abs() == old(Abs()).(elems := [Q.Paged(Q.RemoveNext(old(g.Abs())))] + old(Abs()).elems[1..])
    {
      hide Q.RemoveNext, Vals, AbsEntries, Linked, Q.TotalSize, OutgoingPages.Valid;
      assert forall i :: 1 <= i < |queue| && queue[i].Many? ==> queue[i].pages != g;
      m := g.RemoveNextSend();
      LinkedTail(old(g.unsent));
      assert forall i :: 1 <= i < |queue| ==> AbsEntry(queue[i]) == old(AbsEntry(queue[i]));
      assert AbsEntries(queue) == [AbsEntry(queue[0])] + old(AbsEntries(queue))[1..];
    }

    /** set_options, which only subscription streams have. */
    method SetOptions(queueSize: int, queueDuration: int, currentTime: int)
      requires Ok() && LinkedEntries(queue) && policy.SubscribePolicy?
      modifies `queue, `currentQueueSize, `currentQueueTime, `maxQueueSize, `maxQueueDuration
      ensures Ok() && LinkedEntries(queue)
      ensures var l := Q.Limits(Q.SubscribePolicy, if queueSize > 0 then queueSize else 0x10000,
                                if queueDuration > 0 then queueDuration else 120);
              var t := Q.CheckQueue(old(State()).queue, l, currentTime);
              Limits() == l && State() == QR.Settle(old(State()).(limits := l), t.queue, t.dropped)
    {
      hide Q.CheckQueue, QR.Settle, State, Ok, Limits, LinkedEntries;
      SetLimits(if queueSize > 0 then queueSize else 0x10000, if queueDuration > 0 then queueDuration else 120);
      CheckQueueOk(currentTime);
    }

    method SetLimits(maxSize: int, maxDuration: int)
      requires Ok() && LinkedEntries(queue)
      modifies `maxQueueSize, `maxQueueDuration
      ensures Ok() && LinkedEntries(queue) && Limits() == Q.Limits(policy, maxSize, maxDuration)
      ensures State() == old(State()).(limits := Limits())
    {
      hide Q.Inv, AbsEntries, Linked, OutgoingPages.Valid;
      maxQueueSize, maxQueueDuration := maxSize, maxDuration;
      assert AbsEntries(queue) == old(AbsEntries(queue));
    }

    /** destroy_impl: MessageQueueStream clears its queue, OutgoingSubscribeStream overrides this and does not. */
    method Destroy()
      requires Ok()
      modifies `queue, `closed, `destroyed
      ensures destroyed && Ok() && Limits() == old(Limits())
      ensures policy.PurgePolicy? ==> queue == [] && closed
      ensures policy.SubscribePolicy? ==> queue == old(queue) && closed == old(closed) && State() == old(State()).(destroyed := true)
    {
      hide Q.Inv, AbsEntries, OutgoingPages.Valid;
      StateFields();
      Parts();
      SizeNotNegative();
      destroyed := true;
      assert AbsEntries(queue) == old(AbsEntries(queue));
      if policy.PurgePolicy? {
        closed := true;
        queue := [];
      }
    }

    lemma SizeNotNegative()
      requires Ok()
      ensures currentQueueSize >= 0
    {
    }

    lemma ValidParts()
      requires Valid()
      ensures Consistent() && Q.Inv(Abs()) && Q.Shape(Abs()) && Abs().waiting == (waitingPageGroup != null)
      ensures waitingPageGroup != null ==> Q.WaitingGroup(Abs()) == waitingPageGroup.Abs()
    {
    }

    lemma MakeValid(q: Q.Queue)
      requires Consistent() && Abs() == q && Q.Inv(q)
      ensures Valid()
    {
    }

    lemma GroupFields(g: OutgoingPages, m: Message)
      ensures Q.CanAdd(g.Abs(), m.msg)
              <==> m.msg.rid == g.rid && m.msg.sequenceId == g.sequenceId && m.msg.pageId == g.waitingPage
    {
    }
  }

  lemma FinishedGone(q: Q.Queue)
    requires Q.Inv(q) && q.elems != [] && q.elems[0].Paged? && Q.IsReady(q.elems[0].group) && q.elems[0].group.unsent == []
    ensures Q.Inv(q.(elems := q.elems[1..]))
  {
    hide Q.Inv, QP.Kept;
    QP.PopFinished(q);
    QP.KeptInv(q, q.(elems := q.elems[1..]), []);
  }

  lemma TakeEnabled(s: QR.State, closing: bool)
    requires QR.Enabled(s, QR.TakeNext(closing))
    ensures !s.destroyed && Q.HasNext(s.queue) && (closing ==> s.limits.policy.PurgePolicy?)
  {
  }

  /** The cases of Take. */
  lemma TakeCases(q: Q.Queue)
    requires Q.HasNext(q)
    ensures q.elems != [] && Q.Unsent(q.elems[0]) != []
    ensures var (r, m) := Q.Take(q);
            m == Q.Unsent(q.elems[0])[0] && r.waiting == q.waiting && r.size == q.size - m.size
            && r.time == (if r.elems == [] then q.time else Q.ElemTs(r.elems[0]))
            && match q.elems[0]
               case Single(x) => m == x && r.elems == q.elems[1..]
               case Paged(g) => m == g.unsent[0] && g.unsent != [] && r.elems == [Q.Paged(Q.RemoveNext(g))] + q.elems[1..]
  {
  }

  /** The cases of Peek. */
  lemma PeekCases(q: Q.Queue, l: Q.Limits, time: int)
    ensures q.elems == [] ==> Q.Peek(q, l, time) == Ok(Q.Peeked(q, 0, []))
    ensures q.elems != [] && Q.Peek(q, l, time).Ok? ==>
              (time - l.maxDuration > q.time ==> !QP.TimeCheckEmpties(q, l, time))
              && var t := if time - l.maxDuration > q.time then Q.CheckTime(q, l, time).queue else q;
                 t.elems != []
                 && var p := Q.Peek(q, l, time).value;
                    match t.elems[0]
                    case Single(m) => p.queue == t && p.size == m.size
                    case Paged(g) =>
                      if Q.IsReady(g) && g.unsent == [] then
                        var r := Q.Peek(t.(elems := t.elems[1..]), l, time);
                        r.Ok? && p.queue == r.value.queue && p.size == r.value.size
                      else p.queue == t && p.size == if g.unsent == [] then 0 else g.unsent[0].size
  {
    hide Q.CheckTime, QP.TimeCheckEmpties;
    Q.CheckTimeShrinks(q, l, time);
    if q.elems != [] {
      QP.TimeCheckEmptiesExact(q, l, time);
    }
  }

  /** The size and the time of an empty queue do not matter to what is pushed on it. */
  lemma PushOnEmpty(a: Q.Queue, b: Q.Queue, m: Msg, linked: seq<Msg>, now: int)
    ensures a.elems == [] && b.elems == [] ==> Q.Push(a, m, linked, now) == Q.Push(b, m, linked, now)
  {
  }

  lemma SendParts(s: QR.State, m: Msg, linked: seq<Msg>, close: bool, now: int)
    requires QR.Enabled(s, QR.Send(m, linked, close, now))
    ensures QP.Arrival(m, linked)
    ensures !QR.Ignored(s, close) ==> if s.stray.Some? then Q.CanAdd(s.stray.value, m) else Q.Shape(s.queue)
  {
  }

  /** The last element dropped with a waiting group is that group. */
  lemma LastDropped(q: Q.Queue, g: Q.Group, dropped: seq<Q.Elem>)
    requires q.elems != [] && q.waiting && QP.Kept(q, QP.Alone(g), dropped)
    ensures q.elems[|q.elems| - 1] == Q.Paged(g)
  {
    hide Q.Inv, Q.Content;
  }

  lemma SettleParts(s: QR.State, time: int)
    requires s.queue.elems != [] && Q.Inv(s.queue)
    ensures var t := Q.CheckQueue(s.queue, s.limits, time);
            if QP.Strays(s.queue, s.limits, time) then
              && t.queue.elems == [] && t.queue.size == 0 && s.queue.waiting && s.queue.elems[|s.queue.elems| - 1].Paged?
              && QR.Settle(s, t.queue, t.dropped)
                 == s.(queue := Q.Queue([], false, 0, t.queue.time), stray := Some(s.queue.elems[|s.queue.elems| - 1].group))
            else Q.Inv(t.queue) && QR.Settle(s, t.queue, t.dropped) == s.(queue := t.queue)
  {
    hide Q.Inv, Q.CheckQueue, QP.Strays, QP.Kept, Q.Content;
    var t := Q.CheckQueue(s.queue, s.limits, time);
    QP.CheckQueueExact(s.queue, s.limits, time);
    if QP.Strays(s.queue, s.limits, time) {
      QP.StrayKept(s.queue, s.limits, time);
      QR.EmptySize(t.queue.(waiting := false));
      KeptWaiting(s.queue, QP.Alone(t.dropped[|t.dropped| - 1].group), t.dropped[..|t.dropped| - 1]);
      LastDropped(s.queue, t.dropped[|t.dropped| - 1].group, t.dropped[..|t.dropped| - 1]);
    }
  }

  lemma KeptWaiting(q: Q.Queue, r: Q.Queue, dropped: seq<Q.Elem>)
    requires QP.Kept(q, r, dropped)
    ensures q.waiting == r.waiting
  {
  }

  /** send_message in the steps of the method. */
  lemma SentParts(s: QR.State, m: Msg, linked: seq<Msg>, now: int)
    requires QP.Arrival(m, linked) && if s.stray.Some? then s.queue.elems == [] else Q.Inv(s.queue)
    ensures s.stray.Some? ==> QR.Sent(s, m, linked, now) == QR.Swallow(s, m)
    ensures s.stray.None? ==>
              && Q.Shape(s.queue)
              && var o := Q.Offer(s.queue, m, linked, now);
                 QR.SendMessage(s.queue, s.limits, m, linked, now).checks == o.checks
                 && QR.Sent(s, m, linked, now)
                 == if o.checks then
                      var t := Q.CheckQueue(o.queue, s.limits, m.createdTs);
                      QR.Settle(s.(stale := 0, queue := o.queue), t.queue, t.dropped)
                    else s.(queue := o.queue)
  {
    if s.stray.None? {
      hide Q.Inv, Q.Offer, Q.CheckQueue, QP.Arrival, QP.Strays, QR.Settle;
      OfferCases(s.queue, m, linked, now);
      var o := Q.Offer(s.queue, m, linked, now);
      var t := Q.CheckQueue(o.queue, s.limits, m.createdTs);
      if o.checks {
        QP.CheckQueueExact(o.queue, s.limits, m.createdTs);
        if QP.Strays(o.queue, s.limits, m.createdTs) {
          QP.StrayKept(o.queue, s.limits, m.createdTs);
        }
        QR.SettleAppend(s.(stale := 0, queue := o.queue), s.(stale := 0), t.queue, o.dropped, t.dropped);
      } else {
        QP.ShapeInv(o.queue);
        QR.SettleNone(s, o.queue, o.dropped);
      }
    }
  }

  lemma OfferCases(q: Q.Queue, m: Msg, linked: seq<Msg>, now: int)
    requires Q.Inv(q) && QP.Arrival(m, linked)
    ensures Q.Shape(q)
    ensures var o := Q.Offer(q, m, linked, now);
            Q.Inv(o.queue)
            && (q.waiting && Q.CanAdd(Q.WaitingGroup(q), m) ==> o.queue == Q.Extend(q, m) && o.checks)
            && (!(q.waiting && Q.CanAdd(Q.WaitingGroup(q), m)) ==>
                  var base := if q.waiting then Q.Abandon(q) else q;
                  !base.waiting
                  && (m.pageId > 0 ==> o.queue == base && !o.checks)
                  && (m.pageId <= 0 ==> o.queue == Q.Push(base, m, linked, now) && o.checks))
  {
    hide Q.Inv, Q.CanAdd, QP.Arrival, Q.Extend, Q.Push;
    QP.ShapeInv(q);
    QP.OfferInv(q, m, linked, now);
    var o := Q.Offer(q, m, linked, now);
    QR.ExchangedInv(q, o.queue, o.arrived, o.dropped);
  }
}
