/** What every queue operation keeps: shape, byte accounting, order and conservation of messages. */
module QueueProofs {
  import opened Bytes
  import opened Sequences
  import opened Pages
  import opened Queue

  // ---------------------------------------------------------------- sums and concatenation

  lemma {:induction false} ContentAppend(a: seq<Elem>, b: seq<Elem>)
    ensures Content(a + b) == Content(a) + Content(b)
  {
    if a == [] {
      assert a + b == b;
    } else {
      ContentAppend(a[1..], b);
      assert (a + b)[1..] == a[1..] + b;
    }
  }

  lemma ContentNil()
    ensures Content([]) == []
  {
  }

  lemma ContentSnoc(a: seq<Elem>, e: Elem)
    ensures Content(a + [e]) == Content(a) + Unsent(e)
  {
    ContentAppend(a, [e]);
    assert Content([e]) == Unsent(e) + Content([]);
  }

  lemma {:induction false} TotalSizeAppend(a: seq<Msg>, b: seq<Msg>)
    ensures TotalSize(a + b) == TotalSize(a) + TotalSize(b)
  {
    if a == [] {
      assert a + b == b;
    } else {
      TotalSizeAppend(a[1..], b);
      assert (a + b)[1..] == a[1..] + b;
    }
  }

  lemma TotalSizeOne(m: Msg)
    ensures TotalSize([m]) == m.size
  {
  }

  // ---------------------------------------------------------------- eviction

  /** `after` is `before` with some whole elements taken out; the dropped messages are accounted for, the waiting
      group stays, and a partly sent group can only remain at the front. */
  ghost predicate Kept(before: Queue, after: Queue, dropped: seq<Elem>)
  {
    && Inv(after)
    && after.waiting == before.waiting
    && Subseq(after.elems, before.elems) && (before.waiting ==> NewestKept(before, after))
    && Subseq(Content(after.elems), Content(before.elems))
    && multiset(Content(before.elems)) == multiset(Content(after.elems)) + multiset(Content(dropped))
    && (after.elems != [] && !Untouched(after.elems[0]) ==> before.elems != [] && after.elems[0] == before.elems[0])
  }

  /** The newest element is still there, at the back. */
  ghost predicate NewestKept(before: Queue, after: Queue)
  {
    before.elems != [] ==> after.elems != [] && after.elems[|after.elems| - 1] == before.elems[|before.elems| - 1]
  }

  lemma KeptRefl(q: Queue)
    requires Inv(q)
    ensures Kept(q, q, []) && NewestKept(q, q)
  {
    SubseqRefl(q.elems);
    SubseqRefl(Content(q.elems));
  }

  lemma KeptInv(before: Queue, after: Queue, dropped: seq<Elem>)
    requires Kept(before, after, dropped)
    ensures Inv(after)
  {
  }

  lemma KeptTrans(a: Queue, b: Queue, c: Queue, d1: seq<Elem>, d2: seq<Elem>)
    requires Kept(a, b, d1) && Kept(b, c, d2)
    ensures Kept(a, c, d1 + d2)
  {
    hide Inv, Content, Untouched, Subseq;
    SubseqTrans(c.elems, b.elems, a.elems);
    SubseqTrans(Content(c.elems), Content(b.elems), Content(a.elems));
    ContentAppend(d1, d2);
  }

  /** Taking out elements [a..b] anywhere but at the back, and counting them off. */
  lemma CutOut(q: Queue, a: nat, b: nat, time: int)
    requires Inv(q) && a <= b < |q.elems|
    ensures var r := Queue(q.elems[..a] + q.elems[b..], q.waiting, q.size - TotalSize(Content(q.elems[a..b])), time);
            Kept(q, r, q.elems[a..b]) && NewestKept(q, r)
  {
    hide Shape, ElemsOk, Content, TotalSize, Untouched, Subseq;
    CutOutContent(q.elems, a, b);
    CutOutShape(q, a, b, Queue(q.elems[..a] + q.elems[b..], q.waiting, q.size - TotalSize(Content(q.elems[a..b])), time));
  }

  lemma CutOutContent(elems: seq<Elem>, a: nat, b: nat)
    requires a <= b <= |elems|
    ensures var rest, out := elems[..a] + elems[b..], elems[a..b];
            Subseq(rest, elems) && Subseq(Content(rest), Content(elems))
            && multiset(Content(elems)) == multiset(Content(rest)) + multiset(Content(out))
            && TotalSize(Content(elems)) == TotalSize(Content(rest)) + TotalSize(Content(out))
  {
    hide Content, TotalSize, Subseq;
    var x, m, y := elems[..a], elems[a..b], elems[b..];
    assert elems == x + m + y;
    ContentAppend(x + m, y);
    ContentAppend(x, m);
    ContentAppend(x, y);
    SubseqWithout(x, m, y);
    SubseqWithout(Content(x), Content(m), Content(y));
    TotalSizeAppend(Content(x) + Content(m), Content(y));
    TotalSizeAppend(Content(x), Content(m));
    TotalSizeAppend(Content(x), Content(y));
  }

  lemma CutOutShape(q: Queue, a: nat, b: nat, r: Queue)
    requires Shape(q) && ElemsOk(q.elems) && a <= b < |q.elems|
    requires r.elems == q.elems[..a] + q.elems[b..] && r.waiting == q.waiting
    ensures Shape(r) && ElemsOk(r.elems)
    ensures !Untouched(r.elems[0]) ==> r.elems[0] == q.elems[0]
  {
  }

  lemma PurgeKept(q: Queue)
    requires Inv(q)
    ensures var t := Purge(q); Kept(q, t.queue, t.dropped) && NewestKept(q, t.queue)
  {
    hide Inv, Content, TotalSize, Untouched, Subseq;
    var n := |q.elems|;
    KeptRefl(q);
    if n == 3 {
      CutOut(q, 1, 2, q.time);
      assert q.elems[..1] + q.elems[2..] == [q.elems[0], q.elems[2]];
      assert q.elems[1..2] == [q.elems[1]];
      CountedInv(Queue([q.elems[0], q.elems[2]], q.waiting, q.size - TotalSize(Content([q.elems[1]])), q.time));
      SizeOfPair(q.elems[0], q.elems[2]);
    } else if n > 3 {
      CutOut(q, 0, n - 1, ElemTs(q.elems[n - 1]));
      assert q.elems[..0] + q.elems[n - 1..] == [q.elems[n - 1]];
      assert q.elems[0..n - 1] == q.elems[..n - 1];
      CountedInv(Queue([q.elems[n - 1]], q.waiting, q.size - TotalSize(Content(q.elems[..n - 1])), ElemTs(q.elems[n - 1])));
      SizeOfPair(q.elems[n - 1], q.elems[n - 1]);
    }
  }

  lemma CountedInv(q: Queue)
    requires Inv(q)
    ensures q.size == TotalSize(Content(q.elems))
  {
  }

  lemma SizeOfPair(a: Elem, b: Elem)
    ensures TotalSize(Content([a, b])) == Remain(a) + Remain(b)
    ensures TotalSize(Content([a])) == Remain(a)
  {
    ContentSnoc([], a);
    ContentSnoc([a], b);
    assert [] + [a] == [a] && [a] + [b] == [a, b];
    assert Content([a]) == Unsent(a);
    TotalSizeAppend(Unsent(a), Unsent(b));
  }

  /** How many elements at the front are older than `target`. */
  function OldCount(elems: seq<Elem>, target: int): (n: nat)
    ensures n <= |elems|
  {
    if elems == [] || ElemTs(elems[0]) >= target then 0 else 1 + OldCount(elems[1..], target)
  }

  /** `q` without its first `k` elements, as both loops of OutgoingSubscribeStream leave it. */
  function WithoutFirst(q: Queue, k: nat): Queue
    requires k <= |q.elems|
  {
    Queue(q.elems[k..], q.waiting, q.size - TotalSize(Content(q.elems[..k])),
          if k < |q.elems| then ElemTs(q.elems[k]) else q.time)
  }

  lemma WithoutFirstStep(q: Queue, k: nat)
    requires q.elems != [] && k <= |q.elems[1..]|
    ensures WithoutFirst(q, k + 1)
         == WithoutFirst(q.(elems := q.elems[1..], size := q.size - Remain(q.elems[0])), k)
    ensures q.elems[..k + 1] == [q.elems[0]] + q.elems[1..][..k]
  {
    assert q.elems[..k + 1] == [q.elems[0]] + q.elems[1..][..k];
    ContentAppend([q.elems[0]], q.elems[1..][..k]);
    ContentSnoc([], q.elems[0]);
    assert [] + [q.elems[0]] == [q.elems[0]];
    TotalSizeAppend(Unsent(q.elems[0]), Content(q.elems[1..][..k]));
  }

  lemma WithoutNone(q: Queue)
    requires q.elems != []
    ensures WithoutFirst(q, 0) == q.(time := ElemTs(q.elems[0]))
  {
  }

  /** The time check drops exactly the leading elements that are too old. */
  lemma {:induction false} DropOldExact(q: Queue, target: int)
    ensures var k := OldCount(q.elems, target);
            DropOld(q, target) == Trimmed(WithoutFirst(q, k), q.elems[..k])
    decreases |q.elems|
  {
    hide DropOld, WithoutFirst, OldCount, Remain, ElemTs;
    DropOldCases(q, target);
    if q.elems == [] || ElemTs(q.elems[0]) >= target {
    } else {
      DropOldExact(q.(elems := q.elems[1..], size := q.size - Remain(q.elems[0])), target);
      WithoutFirstStep(q, OldCount(q.elems[1..], target));
    }
  }

  lemma DropOldCases(q: Queue, target: int)
    ensures if q.elems == [] || ElemTs(q.elems[0]) >= target
            then OldCount(q.elems, target) == 0 && DropOld(q, target) == Trimmed(WithoutFirst(q, 0), q.elems[..0])
            else var t := DropOld(q.(elems := q.elems[1..], size := q.size - Remain(q.elems[0])), target);
                 OldCount(q.elems, target) == 1 + OldCount(q.elems[1..], target)
                 && DropOld(q, target) == Trimmed(t.queue, [q.elems[0]] + t.dropped)
  {
    hide Remain, ElemTs;
    assert q.elems[..0] == [] && q.elems[0..] == q.elems;
  }

  predicate AllOld(elems: seq<Elem>, target: int)
  {
    forall i :: 0 <= i < |elems| ==> ElemTs(elems[i]) < target
  }

  lemma {:induction false} OldCountAll(elems: seq<Elem>, target: int)
    ensures OldCount(elems, target) == |elems| <==> AllOld(elems, target)
  {
    if elems != [] && ElemTs(elems[0]) < target {
      OldCountAll(elems[1..], target);
      if AllOld(elems[1..], target) {
        forall i | 0 <= i < |elems| ensures ElemTs(elems[i]) < target {
          assert i > 0 ==> elems[i] == elems[1..][i - 1];
        }
      }
      if AllOld(elems, target) {
        forall i | 0 <= i < |elems[1..]| ensures ElemTs(elems[1..][i]) < target {
          assert elems[1..][i] == elems[i + 1];
        }
      }
    }
  }

  /** check_queue_time of a subscription stream has no guard for the newest element: it empties the queue exactly when
      there are two elements or more and every one of them is older than the window. */
  predicate TimeCheckEmpties(q: Queue, limits: Limits, time: int)
  {
    limits.policy.SubscribePolicy? && |q.elems| > 1 && AllOld(q.elems, time - limits.maxDuration)
  }

  lemma TimeCheckEmptiesExact(q: Queue, limits: Limits, time: int)
    requires q.elems != []
    ensures CheckTime(q, limits, time).queue.elems == [] <==> TimeCheckEmpties(q, limits, time)
    ensures TimeCheckEmpties(q, limits, time) ==> limits.policy.SubscribePolicy?
  {
    hide DropOld, Content, TotalSize, OldCount, Remain, Purge;
    DropOldExact(q, time - limits.maxDuration);
    OldCountAll(q.elems, time - limits.maxDuration);
    PurgeLeavesOne(q);
  }

  lemma PurgeLeavesOne(q: Queue)
    requires q.elems != []
    ensures Purge(q).queue.elems != []
  {
  }

  lemma DropOldKept(q: Queue, target: int)
    requires Inv(q) && !AllOld(q.elems, target)
    ensures var t := DropOld(q, target); Kept(q, t.queue, t.dropped) && NewestKept(q, t.queue)
  {
    hide Inv, Content, TotalSize, Kept, NewestKept, DropOld, OldCount, AllOld;
    var k := OldCount(q.elems, target);
    DropOldExact(q, target);
    OldCountAll(q.elems, target);
    CutOut(q, 0, k, ElemTs(q.elems[k]));
    assert q.elems[..0] + q.elems[k..] == q.elems[k..] && q.elems[0..k] == q.elems[..k];
  }

  /** A time check that drops the group that is still waiting for pages. */
  predicate Strands(q: Queue, limits: Limits, time: int)
  {
    q.waiting && TimeCheckEmpties(q, limits, time)
  }

  lemma DropAllKept(q: Queue, target: int)
    requires Inv(q) && AllOld(q.elems, target) && !q.waiting
    ensures var t := DropOld(q, target); Kept(q, t.queue, t.dropped) && t.queue.elems == []
  {
    hide ElemsOk, DropOld, OldCount, AllOld, Content, TotalSize;
    DropOldExact(q, target);
    OldCountAll(q.elems, target);
    ContentNil();
    assert q.elems[..|q.elems|] == q.elems;
    NothingLeft(DropOld(q, target).queue);
  }

  lemma NothingLeft(q: Queue)
    requires q.elems == [] && !q.waiting && q.size == 0
    ensures Inv(q)
  {
  }

  lemma CheckTimeKept(q: Queue, limits: Limits, time: int)
    requires Inv(q) && !Strands(q, limits, time)
    ensures var t := CheckTime(q, limits, time);
            Kept(q, t.queue, t.dropped) && (!TimeCheckEmpties(q, limits, time) ==> NewestKept(q, t.queue))
  {
    hide Inv, Kept, NewestKept, DropOld, Purge, AllOld;
    KeptRefl(q);
    if limits.policy.PurgePolicy? {
      PurgeKept(q);
    } else if TimeCheckEmpties(q, limits, time) {
      DropAllKept(q, time - limits.maxDuration);
    } else if |q.elems| > 1 {
      DropOldKept(q, time - limits.maxDuration);
    }
  }

  /** The size check drops a non-empty proper prefix: never the newest element. */
  lemma {:induction false} DropBigExact(q: Queue, maxSize: int) returns (k: nat)
    requires |q.elems| >= 2
    ensures 1 <= k < |q.elems| && DropBig(q, maxSize) == Trimmed(WithoutFirst(q, k), q.elems[..k])
    ensures forall j :: 1 <= j < k ==> WithoutFirst(q, j).size > maxSize
    ensures k < |q.elems| - 1 ==> WithoutFirst(q, k).size <= maxSize
    decreases |q.elems|
  {
    hide WithoutFirst, Content, TotalSize, Remain;
    var rest := q.(elems := q.elems[1..], size := q.size - Remain(q.elems[0]));
    WithoutFirstStep(q, 0);
    WithoutNone(rest);
    assert q.elems[..1] == [q.elems[0]];
    if rest.size <= maxSize || |rest.elems| == 1 {
      k := 1;
    } else {
      var n := DropBigExact(rest, maxSize);
      k := n + 1;
      WithoutFirstStep(q, n);
      forall j | 1 <= j < k ensures WithoutFirst(q, j).size > maxSize {
        WithoutFirstStep(q, j - 1);
      }
    }
  }

  lemma CheckSizeKept(q: Queue, limits: Limits)
    requires Inv(q)
    ensures var t := CheckSize(q, limits); Kept(q, t.queue, t.dropped) && NewestKept(q, t.queue)
  {
    hide Inv, Content, TotalSize, Kept, NewestKept, DropBig, Purge;
    KeptRefl(q);
    if limits.policy.PurgePolicy? {
      PurgeKept(q);
    } else if |q.elems| > 2 {
      var k := DropBigExact(q, limits.maxSize);
      CutOut(q, 0, k, ElemTs(q.elems[k]));
      assert q.elems[..0] + q.elems[k..] == q.elems[k..] && q.elems[0..k] == q.elems[..k];
    }
  }

  /** The queue after the size check of send_message or set_options. */
  function AfterSizeCheck(q: Queue, limits: Limits): Queue
  {
    if q.size > limits.maxSize then CheckSize(q, limits).queue else q
  }

  /** The two checks drop the group that is still waiting for pages: _waiting_page_group then is not in the deque. */
  predicate Strays(q: Queue, limits: Limits, currentTime: int)
  {
    var a := AfterSizeCheck(q, limits);
    a.time < currentTime - limits.maxDuration && Strands(a, limits, currentTime)
  }

  lemma CheckQueueKept(q: Queue, limits: Limits, currentTime: int)
    requires Inv(q) && !Strays(q, limits, currentTime)
    ensures var t := CheckQueue(q, limits, currentTime);
            Kept(q, t.queue, t.dropped)
            && (!TimeCheckEmpties(AfterSizeCheck(q, limits), limits, currentTime) ==> NewestKept(q, t.queue))
  {
    hide Inv, Kept, CheckSize, CheckTime, TimeCheckEmpties, Strands;
    KeptRefl(q);
    CheckSizeKept(q, limits);
    var a := if q.size > limits.maxSize then CheckSize(q, limits) else Trimmed(q, []);
    KeptInv(q, a.queue, a.dropped);
    if a.queue.time < currentTime - limits.maxDuration {
      var b := CheckTime(a.queue, limits, currentTime);
      CheckTimeKept(a.queue, limits, currentTime);
      KeptTrans(q, a.queue, b.queue, a.dropped, b.dropped);
    }
  }

  /** Everything taken out. */
  lemma NothingKept(q: Queue, after: Queue)
    requires Inv(q) && !q.waiting && after.elems == [] && !after.waiting && after.size == 0
    ensures Kept(q, after, q.elems)
  {
    hide Shape, ElemsOk, TotalSize;
    NothingLeft(after);
    ContentNil();
  }

  /** The group alone in a queue. */
  function Alone(g: Group): Queue
  {
    Queue([Paged(g)], true, TotalSize(g.unsent), 0)
  }

  /** All elements but the waiting group taken out. */
  lemma AloneKept(q: Queue)
    requires Inv(q) && q.waiting
    ensures Shape(q)
    ensures Kept(q, Alone(WaitingGroup(q)), q.elems[..|q.elems| - 1])
  {
    hide ElemsOk, Counted, Content, TotalSize, Kept;
    var n, g := |q.elems| - 1, WaitingGroup(q);
    var r := Queue([Paged(g)], true, q.size - TotalSize(Content(q.elems[..n])), 0);
    CutOut(q, 0, n, 0);
    assert q.elems[..0] + q.elems[n..] == [q.elems[n]] && q.elems[0..n] == q.elems[..n];
    KeptInv(q, r, q.elems[..n]);
    CountedInv(r);
    SizeOfPair(Paged(g), Paged(g));
  }

  /** What the checks leave when they drop the waiting group: nothing, and what was waiting still is, outside. */
  lemma StrayKept(q: Queue, limits: Limits, currentTime: int)
    requires Inv(q) && Strays(q, limits, currentTime)
    ensures var t := CheckQueue(q, limits, currentTime);
            && t.queue.elems == [] && t.queue.waiting && Inv(t.queue.(waiting := false)) && !Inv(t.queue)
            && multiset(Content(q.elems)) == multiset(Content(t.dropped))
            && t.dropped != [] && t.dropped[|t.dropped| - 1].Paged?
            && Kept(q, Alone(t.dropped[|t.dropped| - 1].group), t.dropped[..|t.dropped| - 1])
  {
    hide Inv, Kept, CheckSize, AllOld, DropOld, Content, TotalSize, OldCount, WithoutFirst;
    KeptRefl(q);
    CheckSizeKept(q, limits);
    var a := if q.size > limits.maxSize then CheckSize(q, limits) else Trimmed(q, []);
    KeptInv(q, a.queue, a.dropped);
    var target, n := currentTime - limits.maxDuration, |a.queue.elems| - 1;
    DropOldExact(a.queue, target);
    OldCountAll(a.queue.elems, target);
    assert a.queue.elems[..n + 1] == a.queue.elems;
    ShapeInv(a.queue);
    AloneKept(a.queue);
    var b := CheckTime(a.queue, limits, currentTime);
    KeptTrans(q, a.queue, Alone(WaitingGroup(a.queue)), a.dropped, a.queue.elems[..n]);
    assert (a.dropped + b.dropped)[..|a.dropped| + n] == a.dropped + a.queue.elems[..n];
    AllDropped(q, a.queue, a.dropped, currentTime, target);
  }

  lemma AllDropped(q: Queue, a: Queue, dropped: seq<Elem>, currentTime: int, target: int)
    requires Kept(q, a, dropped) && AllOld(a.elems, target) && a.waiting
    ensures var r := DropOld(a, target).queue;
            r.elems == [] && r.waiting && Inv(r.(waiting := false)) && !Inv(r)
            && multiset(Content(q.elems)) == multiset(Content(dropped + a.elems))
  {
    hide DropOld, Content, TotalSize, OldCount, ElemsOk, Shape;
    DropOldExact(a, target);
    OldCountAll(a.elems, target);
    assert a.elems[..|a.elems|] == a.elems;
    ContentAppend(dropped, a.elems);
    ContentNil();
    var r := DropOld(a, target).queue;
    NothingLeft(r.(waiting := false));
    NotEmpty(r);
  }

  lemma NotEmpty(q: Queue)
    requires q.elems == [] && q.waiting
    ensures !Inv(q)
  {
  }

  /** The checks at the end of send_message and set_options keep the queue consistent exactly when they do not drop the group
      that is still waiting for pages. */
  lemma CheckQueueExact(q: Queue, limits: Limits, currentTime: int)
    requires Inv(q)
    ensures Inv(CheckQueue(q, limits, currentTime).queue) <==> !Strays(q, limits, currentTime)
    ensures var t := CheckQueue(q, limits, currentTime).queue;
            t.waiting && t.elems == [] <==> Strays(q, limits, currentTime)
  {
    hide Inv, Strays, CheckQueue, Kept;
    var t := CheckQueue(q, limits, currentTime);
    if Strays(q, limits, currentTime) {
      StrayKept(q, limits, currentTime);
    } else {
      CheckQueueKept(q, limits, currentTime);
      KeptInv(q, t.queue, t.dropped);
      if t.queue.elems == [] && t.queue.waiting {
        NotEmpty(t.queue);
      }
    }
  }

  // ---------------------------------------------------------------- arrival

  /** What the network side guarantees of an arriving message: pages linked behind a first page continue it. */
  ghost predicate Arrival(m: Msg, linked: seq<Msg>)
  {
    (m.pageId < 0 ==> Continues(m, linked)) && (m.pageId >= 0 ==> linked == [])
  }

  /** An operation that lets `arrived` in and `dropped` out. */
  ghost predicate Exchanged(before: Queue, after: Queue, arrived: seq<Msg>, dropped: seq<Elem>)
  {
    && Inv(after)
    && Subseq(Content(after.elems), Content(before.elems) + arrived)
    && multiset(Content(before.elems)) + multiset(arrived) == multiset(Content(after.elems)) + multiset(Content(dropped))
  }

  lemma SplitLast(q: Queue)
    requires q.elems != []
    ensures var n := |q.elems|;
            q.elems == q.elems[..n - 1] + [q.elems[n - 1]]
            && Content(q.elems) == Content(q.elems[..n - 1]) + Unsent(q.elems[n - 1])
            && TotalSize(Content(q.elems)) == TotalSize(Content(q.elems[..n - 1])) + Remain(q.elems[n - 1])
  {
    var n := |q.elems|;
    assert q.elems == q.elems[..n - 1] + [q.elems[n - 1]];
    ContentSnoc(q.elems[..n - 1], q.elems[n - 1]);
    TotalSizeAppend(Content(q.elems[..n - 1]), Unsent(q.elems[n - 1]));
  }

  lemma AddOk(g: Group, m: Msg)
    requires GroupOk(g) && !IsReady(g) && CanAdd(g, m)
    ensures GroupOk(Add(g, m)) && TotalSize(Add(g, m).unsent) == TotalSize(g.unsent) + m.size
    ensures Untouched(Paged(g)) <==> Untouched(Paged(Add(g, m)))
  {
    TotalSizeAppend(g.unsent, [m]);
    TotalSizeOne(m);
  }

  lemma ExtendInv(q: Queue, m: Msg)
    requires Inv(q) && q.waiting && CanAdd(WaitingGroup(q), m)
    ensures Inv(Extend(q, m)) && Content(Extend(q, m).elems) == Content(q.elems) + [m]
    ensures |Extend(q, m).elems| == |q.elems| && (|q.elems| >= 2 ==> Extend(q, m).elems[0] == q.elems[0])
  {
    hide Content, TotalSize, GroupOk, Untouched, CanAdd;
    var n, r := |q.elems|, Extend(q, m);
    var g := WaitingGroup(q);
    assert IsLastWaiting(q, n - 1) && ElemOk(q.elems[n - 1]);
    AddOk(g, m);
    SplitLast(q);
    SplitLast(r);
    assert r.elems[..n - 1] == q.elems[..n - 1];
    assert Content(q.elems[..n - 1]) + (g.unsent + [m]) == (Content(q.elems[..n - 1]) + g.unsent) + [m];
    forall i | 0 <= i < |r.elems|
      ensures IsLastWaiting(r, i) <==> r.elems[i].Paged? && !IsReady(r.elems[i].group)
      ensures ElemOk(r.elems[i]) && (i >= 1 ==> Untouched(r.elems[i]))
    {
      if i < n - 1 {
        assert r.elems[i] == q.elems[i] && !IsLastWaiting(q, i);
      }
    }
  }

  lemma AbandonInv(q: Queue)
    requires Inv(q) && q.waiting
    ensures var r := Abandon(q);
            Inv(r) && !r.waiting && Content(q.elems) == Content(r.elems) + Unsent(q.elems[|q.elems| - 1])
            && r.elems == q.elems[..|q.elems| - 1]
  {
    var n, r := |q.elems|, Abandon(q);
    SplitLast(q);
    forall i | 0 <= i < |r.elems|
      ensures IsLastWaiting(r, i) <==> r.elems[i].Paged? && !IsReady(r.elems[i].group)
      ensures ElemOk(r.elems[i]) && (i >= 1 ==> Untouched(r.elems[i]))
    {
      assert r.elems[i] == q.elems[i] && !IsLastWaiting(q, i);
    }
  }

  lemma TotalSizeNil()
    ensures TotalSize([]) == 0
  {
  }

  lemma NewElem(m: Msg, linked: seq<Msg>, now: int)
    requires m.pageId <= 0 && Arrival(m, linked)
    ensures var e := if m.pageId < 0 then Paged(NewGroup(m, linked, now)) else Single(m);
            ElemOk(e) && Untouched(e) && Unsent(e) == if m.pageId < 0 then [m] + linked else [m]
  {
    if m.pageId < 0 {
      var g := NewGroup(m, linked, now);
      forall j | 0 <= j < |g.unsent| ensures IsPage(g, g.unsent[j], g.waitingPage - |g.unsent| + j) {
        assert j > 0 ==> g.unsent[j] == linked[j - 1];
      }
    }
  }

  lemma PushInv(q: Queue, m: Msg, linked: seq<Msg>, now: int)
    requires Inv(q) && !q.waiting && m.pageId <= 0 && Arrival(m, linked)
    ensures var r := Push(q, m, linked, now);
            Inv(r) && Content(r.elems) == Content(q.elems) + (if m.pageId < 0 then [m] + linked else [m])
            && Untouched(r.elems[|q.elems|]) && r.elems[..|q.elems|] == q.elems
  {
    hide Content, TotalSize, Arrival, GroupOk;
    var r := Push(q, m, linked, now);
    var e := r.elems[|q.elems|];
    NewElem(m, linked, now);
    ContentNil();
    TotalSizeNil();
    ContentSnoc(q.elems, e);
    TotalSizeAppend(Content(q.elems), Unsent(e));
    forall i | 0 <= i < |r.elems|
      ensures IsLastWaiting(r, i) <==> r.elems[i].Paged? && !IsReady(r.elems[i].group)
      ensures ElemOk(r.elems[i]) && (i >= 1 ==> Untouched(r.elems[i]))
    {
      if i < |q.elems| {
        assert r.elems[i] == q.elems[i] && !IsLastWaiting(q, i);
      }
    }
  }

  /** The queue a new element is pushed on, and what was abandoned for it. */
  function Base(q: Queue): Queue
    requires Shape(q)
  {
    if q.waiting then Abandon(q) else q
  }

  function Gone(q: Queue): seq<Elem>
    requires Shape(q)
  {
    if q.waiting then [q.elems[|q.elems| - 1]] else []
  }

  lemma BaseInv(q: Queue)
    requires Inv(q)
    ensures var b := Base(q);
            Inv(b) && !b.waiting && Subseq(Content(b.elems), Content(q.elems))
            && multiset(Content(q.elems)) == multiset(Content(b.elems)) + multiset(Content(Gone(q)))
            && b.elems == q.elems[..|q.elems| - |Gone(q)|]
  {
    hide Content, Subseq, Abandon, ElemsOk, Counted;
    var b := Base(q);
    ContentNil();
    SubseqRefl(Content(q.elems));
    if q.waiting {
      AbandonInv(q);
      var last := q.elems[|q.elems| - 1];
      SubseqWithout(Content(b.elems), Unsent(last), []);
      assert Content(b.elems) + [] == Content(b.elems);
      assert Content(b.elems) + Unsent(last) + [] == Content(q.elems);
      ContentSnoc([], last);
      assert [] + [last] == Gone(q) && [] + Unsent(last) == Unsent(last);
    } else {
      assert q.elems[..|q.elems|] == q.elems;
    }
  }

  lemma OfferInv(q: Queue, m: Msg, linked: seq<Msg>, now: int)
    requires Inv(q) && Arrival(m, linked)
    ensures var o := Offer(q, m, linked, now);
            Exchanged(q, o.queue, o.arrived, o.dropped)
            && (o.checks ==> o.queue.elems != [])
  {
    hide Inv, Content, Extend, Abandon, Push, Subseq, Arrival;
    ShapeInv(q);
    var o := Offer(q, m, linked, now);
    ContentNil();
    if q.waiting && CanAdd(WaitingGroup(q), m) {
      ExtendInv(q, m);
      SubseqRefl(Content(o.queue.elems));
    } else {
      BaseInv(q);
      var base := Base(q);
      SubseqRefl(o.arrived);
      SubseqConcat(Content(base.elems), Content(q.elems), o.arrived, o.arrived);
      if m.pageId <= 0 {
        PushInv(base, m, linked, now);
      } else {
        assert Content(base.elems) + [] == Content(base.elems);
      }
    }
  }

  lemma ShapeInv(q: Queue)
    requires Inv(q)
    ensures Shape(q)
  {
  }

  // ---------------------------------------------------------------- departure

  /** Taking the next message keeps the invariant and takes exactly the first message of the content. */
  lemma TakeInv(q: Queue)
    requires Inv(q) && HasNext(q)
    ensures var (r, m) := Take(q);
            Inv(r) && Content(q.elems) == [m] + Content(r.elems) && r.waiting == q.waiting
  {
    hide TotalSize, ElemOk, GroupOk;
    var (r, m) := Take(q);
    TakeContent(q);
    TotalSizeAppend([m], Content(r.elems));
    TotalSizeOne(m);
    match q.elems[0]
    case Single(_) => ShiftShape(q, r);
    case Paged(g) => TakePageShape(q);
  }

  lemma TakeContent(q: Queue)
    requires HasNext(q)
    ensures var (r, m) := Take(q); Content(q.elems) == [m] + Content(r.elems)
  {
  }

  lemma TakePageShape(q: Queue)
    requires Shape(q) && ElemsOk(q.elems) && HasNext(q) && q.elems[0].Paged?
    ensures var r := Take(q).0; Shape(r) && ElemsOk(r.elems)
  {
  }

  /** Dropping a first element that is not the waiting group. */
  lemma ShiftShape(q: Queue, r: Queue)
    requires Shape(q) && ElemsOk(q.elems) && q.elems != [] && r.elems == q.elems[1..] && r.waiting == q.waiting
    requires !(q.elems[0].Paged? && !IsReady(q.elems[0].group))
    ensures Shape(r) && ElemsOk(r.elems) && (r.elems != [] ==> Untouched(r.elems[0]))
  {
  }

  lemma PopFinished(q: Queue)
    requires Inv(q) && q.elems != [] && q.elems[0].Paged? && IsReady(q.elems[0].group) && q.elems[0].group.unsent == []
    ensures Kept(q, q.(elems := q.elems[1..]), [])
  {
    hide Subseq, Shape, ElemsOk, ElemOk, Content, TotalSize;
    var r := q.(elems := q.elems[1..]);
    FinishedFront(q);
    ShiftShape(q, r);
    SubseqRefl(Content(r.elems));
    ContentNil();
    assert q.elems == [] + [q.elems[0]] + r.elems && r.elems == [] + r.elems;
    SubseqWithout([], [q.elems[0]], r.elems);
  }

  /** A group that is completely sent holds nothing, and is not the one that waits. */
  lemma FinishedFront(q: Queue)
    requires Shape(q) && ElemsOk(q.elems)
    requires q.elems != [] && q.elems[0].Paged? && IsReady(q.elems[0].group) && q.elems[0].group.unsent == []
    ensures Content(q.elems) == Content(q.elems[1..]) && (q.waiting ==> |q.elems| > 1)
  {
    assert q.waiting ==> IsLastWaiting(q, |q.elems| - 1);
    assert [] + Content(q.elems[1..]) == Content(q.elems[1..]);
  }

  /** peek_next_message_size only drops elements, reports the size of the message that would be taken, and reports 0
      only if nothing can be taken. */
  lemma {:induction false} PeekKept(q: Queue, limits: Limits, time: int)
    requires Inv(q)
    ensures var r := Peek(q, limits, time);
            r.Ok? ==> Kept(q, r.value.queue, r.value.dropped)
                      && (r.value.size > 0 <==> HasNext(r.value.queue))
                      && (r.value.size > 0 ==> r.value.size == Unsent(r.value.queue.elems[0])[0].size)
    ensures Peek(q, limits, time).Err? ==> limits.policy.SubscribePolicy?
    decreases |q.elems|
  {
    hide Inv, Kept, NewestKept, CheckTime, TimeCheckEmpties;
    KeptRefl(q);
    if q.elems != [] {
      var t := if time - limits.maxDuration > q.time then CheckTime(q, limits, time) else Trimmed(q, []);
      CheckTimeShrinks(q, limits, time);
      TimeCheckEmptiesExact(q, limits, time);
      if t.queue.elems != [] {
        if time - limits.maxDuration > q.time {
          CheckTimeKept(q, limits, time);
        }
        KeptInv(q, t.queue, t.dropped);
        if t.queue.elems[0].Paged? && IsReady(t.queue.elems[0].group) && t.queue.elems[0].group.unsent == [] {
          var next := t.queue.(elems := t.queue.elems[1..]);
          PopFinished(t.queue);
          KeptInv(t.queue, next, []);
          PeekKept(next, limits, time);
          KeptTrans(q, t.queue, next, t.dropped, []);
          var r := Peek(next, limits, time);
          if r.Ok? {
            assert t.dropped + [] == t.dropped;
            KeptTrans(q, next, r.value.queue, t.dropped, r.value.dropped);
          }
        }
      }
    }
  }

  lemma {:induction false} PeekQuiet(q: Queue, limits: Limits, time: int)
    requires time - limits.maxDuration <= q.time
    ensures Peek(q, limits, time).Ok?
    decreases |q.elems|
  {
    if q.elems != [] {
      PeekQuiet(q.(elems := q.elems[1..]), limits, time);
    }
  }

  /** peek reads the front of an empty deque exactly when its time check runs, finds two elements or more, and finds
      all of them too old; that only happens to a subscription stream. */
  lemma PeekFailsExact(q: Queue, limits: Limits, time: int)
    requires Inv(q)
    ensures Peek(q, limits, time).Err? <==> time - limits.maxDuration > q.time && TimeCheckEmpties(q, limits, time)
  {
    hide Inv, AllOld, Content, TotalSize, OldCount, DropOld;
    PeekKept(q, limits, time);
    if time - limits.maxDuration <= q.time {
      PeekQuiet(q, limits, time);
    } else if q.elems != [] {
      TimeCheckEmptiesExact(q, limits, time);
      if limits.policy.SubscribePolicy? && |q.elems| > 1 && !TimeCheckEmpties(q, limits, time) {
        var t := CheckTime(q, limits, time).queue;
        DropOldFresh(q, time - limits.maxDuration);
        PeekQuiet(t.(elems := t.elems[1..]), limits, time);
      }
    }
  }

  lemma DropOldFresh(q: Queue, target: int)
    requires DropOld(q, target).queue.elems != []
    ensures DropOld(q, target).queue.time >= target
    decreases |q.elems|
  {
  }
}
