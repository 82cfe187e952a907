/** The elements of the queue as contiguous blocks of what was accepted, and what leaves the queue as prefixes of such
    blocks: the bookkeeping behind the history of a run. */
module QueueBlocks {
  import opened Bytes
  import opened Sequences
  import opened Pages
  import opened Queue
  import opened QueueProofs

  /** A group as far as it has been handed over: a message that is not paged, or the first pages of a group in order. */
  ghost predicate GroupPrefix(msgs: seq<Msg>)
  {
    && msgs != []
    && msgs[0].pageId <= 0
    && (msgs[0].pageId == 0 ==> |msgs| == 1)
    && (msgs[0].pageId < 0 ==> Continues(msgs[0], msgs[1..]))
  }

  /** `msgs` is what has been handed over of `g`. */
  predicate SentPart(msgs: seq<Msg>, g: Group)
  {
    msgs != [] && |msgs| == g.waitingPage - |g.unsent| && msgs[0].pageId == -g.totalPage
    && msgs[0].rid == g.rid && msgs[0].sequenceId == g.sequenceId
  }

  /** A partly sent group at the front is the last group handed over. */
  predicate FrontLink(elems: seq<Elem>, groups: seq<seq<Msg>>)
  {
    elems != [] && !Untouched(elems[0]) ==> groups != [] && SentPart(groups[|groups| - 1], elems[0].group)
  }

  /** Messages that join a list of groups: behind the last group if they continue it, else as a new one. */
  function Grow(groups: seq<seq<Msg>>, msgs: seq<Msg>): seq<seq<Msg>>
  {
    if msgs == [] then groups
    else if msgs[0].pageId <= 0 || groups == [] then groups + [msgs]
    else groups[..|groups| - 1] + [groups[|groups| - 1] + msgs]
  }

  /** A page for a waiting group of which pages were handed over already also belongs to the last home. */
  function GrowHome(q: Queue, homes: seq<seq<Msg>>, m: Msg): seq<seq<Msg>>
    requires Shape(q)
  {
    if q.waiting && CanAdd(WaitingGroup(q), m) && |q.elems| == 1 && !Untouched(q.elems[0]) then Grow(homes, [m]) else homes
  }

  /** What the elements of the queue hold of their blocks, without the rest of a group that is partly handed over. */
  function Parts(elems: seq<Elem>): seq<seq<Msg>>
  {
    if elems == [] then [] else [Unsent(elems[0])] + Parts(elems[1..])
  }

  function Rest(elems: seq<Elem>): seq<Elem>
  {
    if elems != [] && !Untouched(elems[0]) then elems[1..] else elems
  }

  /** The blocks that were handed over, wholly or in part, and those that still can be. */
  function Chosen(elems: seq<Elem>, homes: seq<seq<Msg>>): seq<seq<Msg>>
  {
    homes + Parts(Rest(elems))
  }

  /** The queue holds blocks in the order in which they were accepted, behind those that left; the rest of a partly
      handed-over group completes the last home; a waiting group is the last block. */
  ghost predicate QueuePlaced(q: Queue, groups: seq<seq<Msg>>, homes: seq<seq<Msg>>, blocks: seq<seq<Msg>>)
  {
    && Subseq(Chosen(q.elems, homes), blocks)
    && (q.elems != [] && !Untouched(q.elems[0]) ==>
          groups != [] && homes != [] && homes[|homes| - 1] == groups[|groups| - 1] + Unsent(q.elems[0]))
    && (q.waiting ==> Chosen(q.elems, homes) != [] && blocks != []
                      && Chosen(q.elems, homes)[|Chosen(q.elems, homes)| - 1] == blocks[|blocks| - 1])
  }

  /** Every group handed over is a prefix of its home. */
  ghost predicate Prefixes(groups: seq<seq<Msg>>, homes: seq<seq<Msg>>)
  {
    |homes| == |groups| && forall i :: 0 <= i < |groups| ==> groups[i] <= homes[i]
  }

  ghost predicate AreGroups(blocks: seq<seq<Msg>>)
  {
    forall i :: 0 <= i < |blocks| ==> GroupPrefix(blocks[i])
  }

  // ---------------------------------------------------------------- eviction

  lemma {:induction false} PartsAppend(a: seq<Elem>, b: seq<Elem>)
    ensures Parts(a + b) == Parts(a) + Parts(b)
  {
    if a == [] {
      assert a + b == b;
    } else {
      PartsAppend(a[1..], b);
      assert (a + b)[1..] == a[1..] + b;
    }
  }

  lemma {:induction false} PartsSubseq(a: seq<Elem>, b: seq<Elem>)
    requires Subseq(a, b)
    ensures Subseq(Parts(a), Parts(b))
    decreases |b|
  {
    hide Unsent;
    if a != [] {
      assert Parts(a)[1..] == Parts(a[1..]) && Parts(b)[1..] == Parts(b[1..]);
      if a[0] == b[0] && Subseq(a[1..], b[1..]) {
        PartsSubseq(a[1..], b[1..]);
      } else {
        PartsSubseq(a, b[1..]);
      }
    }
  }

  /** The last chosen block belongs to the last element, unless that one is a partly sent group alone in the queue. */
  lemma LastChosen(elems: seq<Elem>, homes: seq<seq<Msg>>)
    requires elems != []
    ensures Rest(elems) == [] <==> |elems| == 1 && !Untouched(elems[0])
    ensures Rest(elems) == [] ==> Chosen(elems, homes) == homes
    ensures Rest(elems) != [] ==>
              Chosen(elems, homes) == homes + Parts(Rest(elems)[..|Rest(elems)| - 1]) + [Unsent(elems[|elems| - 1])]
  {
    var rest := Rest(elems);
    if rest != [] {
      var n := |rest| - 1;
      assert rest == rest[..n] + [rest[n]] && rest[n] == elems[|elems| - 1];
      PartsAppend(rest[..n], [rest[n]]);
      assert Parts([rest[n]]) == [Unsent(rest[n])] + Parts([]);
    }
  }

  /** What is left after an eviction, of the elements of which nothing was sent. */
  lemma RestSubseq(before: Queue, after: Queue, dropped: seq<Elem>)
    requires Kept(before, after, dropped)
    ensures Subseq(Rest(after.elems), Rest(before.elems))
  {
    hide Shape, ElemOk, Counted, Content, Untouched, Subseq;
    var a, b := after.elems, before.elems;
    if a == [] {
      assert Subseq<Elem>([], Rest(b)) by { SubseqNil(Rest(b)); }
    } else if !Untouched(a[0]) {
      SubseqTail(a, b);
    } else if b != [] && !Untouched(b[0]) {
      assert forall i :: 0 <= i < |a| ==> Untouched(a[i]);
      SubseqSkip(a, b);
    }
  }

  lemma SubseqNil<T(!new)>(b: seq<T>)
    ensures Subseq([], b)
  {
  }

  lemma KeptPlaced(before: Queue, after: Queue, dropped: seq<Elem>, groups: seq<seq<Msg>>, homes: seq<seq<Msg>>, blocks: seq<seq<Msg>>)
    requires Inv(before) && Kept(before, after, dropped) && QueuePlaced(before, groups, homes, blocks)
    ensures QueuePlaced(after, groups, homes, blocks)
  {
    hide Inv, Content, Unsent, Untouched, Subseq, Parts, Rest;
    RestSubseq(before, after, dropped);
    PartsSubseq(Rest(after.elems), Rest(before.elems));
    SubseqRefl(homes);
    SubseqConcat(homes, homes, Parts(Rest(after.elems)), Parts(Rest(before.elems)));
    SubseqTrans(Chosen(after.elems, homes), Chosen(before.elems, homes), blocks);
    if before.waiting {
      WaitingNonEmpty(before);
      LastChosen(before.elems, homes);
      LastChosen(after.elems, homes);
      LastStays(before, after, dropped);
    }
  }

  lemma WaitingNonEmpty(q: Queue)
    requires Inv(q) && q.waiting
    ensures q.elems != []
  {
  }

  lemma LastStays(before: Queue, after: Queue, dropped: seq<Elem>)
    requires Inv(before) && Kept(before, after, dropped) && before.elems != [] && after.elems != []
    requires after.elems[|after.elems| - 1] == before.elems[|before.elems| - 1]
    ensures Rest(after.elems) == [] <==> Rest(before.elems) == []
  {
    hide Shape, ElemOk, Counted, Content, Untouched;
    SubseqLength(after.elems, before.elems);
  }

  // ---------------------------------------------------------------- arrival

  /** The block of the waiting group: what was accepted of it so far. */
  lemma WaitingBlock(q: Queue, groups: seq<seq<Msg>>, homes: seq<seq<Msg>>, blocks: seq<seq<Msg>>)
    requires Inv(q) && q.waiting && QueuePlaced(q, groups, homes, blocks) && AreGroups(blocks)
    requires FrontLink(q.elems, groups)
    ensures var g := WaitingGroup(q); var b := blocks[|blocks| - 1];
            |b| == g.waitingPage && b[0].rid == g.rid && b[0].sequenceId == g.sequenceId && b[0].pageId == -g.totalPage
            && 0 < g.waitingPage < g.totalPage && GroupPrefix(b)
    ensures Rest(q.elems) == [] ==> homes != [] && homes[|homes| - 1] == blocks[|blocks| - 1]
    ensures Rest(q.elems) != [] ==> blocks[|blocks| - 1] == Unsent(q.elems[|q.elems| - 1])
  {
    hide Content, TotalSize, Subseq, Chosen, GroupPrefix;
    var n, g := |q.elems|, WaitingGroup(q);
    assert IsLastWaiting(q, n - 1) && ElemOk(q.elems[n - 1]) && GroupPrefix(blocks[|blocks| - 1]);
    LastChosen(q.elems, homes);
    if Rest(q.elems) != [] {
      assert Untouched(q.elems[n - 1]);
      assert IsPage(g, g.unsent[0], 0);
    }
  }

  lemma BlockGrows(b: seq<Msg>, g: Group, m: Msg)
    requires GroupPrefix(b) && CanAdd(g, m) && 0 < g.waitingPage < g.totalPage
    requires |b| == g.waitingPage && b[0].rid == g.rid && b[0].sequenceId == g.sequenceId && b[0].pageId == -g.totalPage
    ensures GroupPrefix(b + [m]) && m.pageId > 0
  {
    assert (b + [m])[1..] == b[1..] + [m];
  }

  lemma GrowAreGroups(blocks: seq<seq<Msg>>, m: Msg)
    requires AreGroups(blocks) && blocks != [] && m.pageId > 0 && GroupPrefix(blocks[|blocks| - 1] + [m])
    ensures AreGroups(Grow(blocks, [m])) && Concat(Grow(blocks, [m])) == Concat(blocks) + [m]
  {
    hide GroupPrefix, Concat;
    GrowLast(blocks, m);
  }

  lemma GrowLast(groups: seq<seq<Msg>>, m: Msg)
    requires groups != []
    ensures Concat(groups[..|groups| - 1] + [groups[|groups| - 1] + [m]]) == Concat(groups) + [m]
  {
    GrowGroup(groups[..|groups| - 1], groups[|groups| - 1], m);
    assert groups == groups[..|groups| - 1] + [groups[|groups| - 1]];
  }

  lemma GrowGroup(front: seq<seq<Msg>>, last: seq<Msg>, m: Msg)
    ensures Concat(front + [last + [m]]) == Concat(front + [last]) + [m]
  {
    ConcatSnoc(front, last);
    ConcatSnoc(front, last + [m]);
    assert Concat(front) + (last + [m]) == (Concat(front) + last) + [m];
  }

  lemma ExtendPlaced(q: Queue, m: Msg, groups: seq<seq<Msg>>, homes: seq<seq<Msg>>, blocks: seq<seq<Msg>>)
    requires Inv(q) && q.waiting && CanAdd(WaitingGroup(q), m) && QueuePlaced(q, groups, homes, blocks)
    requires FrontLink(q.elems, groups) && AreGroups(blocks) && Prefixes(groups, homes)
    ensures var homes', blocks' := GrowHome(q, homes, m), Grow(blocks, [m]);
            QueuePlaced(Extend(q, m), groups, homes', blocks') && AreGroups(blocks') && Prefixes(groups, homes')
            && Concat(blocks') == Concat(blocks) + [m]
  {
    hide Inv, Content, Unsent, Untouched, Subseq, Parts, Rest, Chosen, GroupPrefix, FrontLink, CanAdd, Concat;
    ShapeInv(q);
    WaitingNonEmpty(q);
    WaitingBlock(q, groups, homes, blocks);
    var b := blocks[|blocks| - 1];
    BlockGrows(b, WaitingGroup(q), m);
    GrowAreGroups(blocks, m);
    var r := Extend(q, m);
    ExtendChosen(q, m, homes);
    var c := Chosen(q.elems, homes);
    assert c == c[..|c| - 1] + [b] && blocks == blocks[..|blocks| - 1] + [b];
    SubseqLast(c[..|c| - 1], blocks[..|blocks| - 1], b, b + [m]);
    ExtendFront(q, m, groups, homes);
  }

  /** The chosen blocks with the last one extended. */
  lemma ExtendChosen(q: Queue, m: Msg, homes: seq<seq<Msg>>)
    requires Inv(q) && q.waiting && CanAdd(WaitingGroup(q), m) && Chosen(q.elems, homes) != []
    ensures var c := Chosen(q.elems, homes);
            Chosen(Extend(q, m).elems, GrowHome(q, homes, m)) == c[..|c| - 1] + [c[|c| - 1] + [m]]
  {
    hide Inv, Parts, Rest, Unsent, Untouched, Extend, CanAdd;
    ShapeInv(q);
    var n, r, h := |q.elems|, Extend(q, m), GrowHome(q, homes, m);
    ExtendRest(q, m);
    LastChosen(q.elems, homes);
    LastChosen(r.elems, h);
    if Rest(q.elems) != [] {
      var x, y := Rest(q.elems), Rest(r.elems);
      assert y[..|y| - 1] == x[..|x| - 1];
    }
  }

  /** A page more in the waiting group, which is the last element. */
  lemma ExtendRest(q: Queue, m: Msg)
    requires Inv(q) && q.waiting && CanAdd(WaitingGroup(q), m)
    ensures m.pageId > 0 && q.elems != []
    ensures var n, r := |q.elems|, Extend(q, m);
            && |r.elems| == n && Unsent(r.elems[n - 1]) == Unsent(q.elems[n - 1]) + [m]
            && (Untouched(q.elems[0]) <==> Untouched(r.elems[0]))
            && |Rest(r.elems)| == |Rest(q.elems)| && (Rest(q.elems) != [] ==>
                 Rest(r.elems)[..|Rest(r.elems)| - 1] == Rest(q.elems)[..|Rest(q.elems)| - 1])
  {
    hide Content, TotalSize, GroupOk, Counted;
    var n, r := |q.elems|, Extend(q, m);
    assert IsLastWaiting(q, n - 1) && ElemOk(q.elems[n - 1]);
    GroupPages(WaitingGroup(q));
    assert n >= 2 ==> r.elems[0] == q.elems[0];
    var x, y := Rest(q.elems), Rest(r.elems);
    assert x != [] ==> y[..|y| - 1] == x[..|x| - 1];
  }

  lemma GroupPages(g: Group)
    requires GroupOk(g)
    ensures 1 <= g.waitingPage <= g.totalPage
  {
  }

  lemma ExtendFront(q: Queue, m: Msg, groups: seq<seq<Msg>>, homes: seq<seq<Msg>>)
    requires Inv(q) && q.waiting && CanAdd(WaitingGroup(q), m) && Prefixes(groups, homes)
    requires q.elems != [] && !Untouched(q.elems[0]) ==>
               groups != [] && homes != [] && homes[|homes| - 1] == groups[|groups| - 1] + Unsent(q.elems[0])
    ensures var r, h := Extend(q, m), GrowHome(q, homes, m);
            Prefixes(groups, h)
            && (r.elems != [] && !Untouched(r.elems[0]) ==>
                  groups != [] && h != [] && h[|h| - 1] == groups[|groups| - 1] + Unsent(r.elems[0]))
  {
    hide Content, TotalSize, GroupOk, Counted;
    var n, r, h := |q.elems|, Extend(q, m), GrowHome(q, homes, m);
    assert IsLastWaiting(q, n - 1) && ElemOk(q.elems[n - 1]);
    AddOk(WaitingGroup(q), m);
    GroupPages(WaitingGroup(q));
    if n == 1 && !Untouched(q.elems[0]) {
      assert Unsent(r.elems[0]) == Unsent(q.elems[0]) + [m];
      assert h[|h| - 1] == homes[|homes| - 1] + [m];
    }
  }

  /** The group that is abandoned for a new message. */
  lemma BasePlaced(q: Queue, groups: seq<seq<Msg>>, homes: seq<seq<Msg>>, blocks: seq<seq<Msg>>)
    requires Inv(q) && QueuePlaced(q, groups, homes, blocks)
    ensures QueuePlaced(Base(q), groups, homes, blocks)
  {
    hide Content, TotalSize, Subseq, Parts, ElemsOk, Counted;
    BaseInv(q);
    var b := Base(q);
    if q.waiting {
      LastChosen(q.elems, homes);
      if Rest(q.elems) != [] {
        var x := Rest(q.elems);
        assert Rest(b.elems) == x[..|x| - 1];
        SubseqWithout(Chosen(b.elems, homes), [Unsent(q.elems[|q.elems| - 1])], []);
        assert Chosen(b.elems, homes) + [] == Chosen(b.elems, homes);
        assert Chosen(b.elems, homes) + [Unsent(q.elems[|q.elems| - 1])] + [] == Chosen(q.elems, homes);
        SubseqTrans(Chosen(b.elems, homes), Chosen(q.elems, homes), blocks);
      } else {
        assert b.elems == [];
        assert Chosen([], homes) == homes by { assert Parts([]) == []; }
      }
    }
  }

  lemma PushPlaced(q: Queue, m: Msg, linked: seq<Msg>, now: int, groups: seq<seq<Msg>>, homes: seq<seq<Msg>>, blocks: seq<seq<Msg>>)
    requires Inv(q) && !q.waiting && m.pageId <= 0 && Arrival(m, linked) && QueuePlaced(q, groups, homes, blocks) && AreGroups(blocks)
    ensures var arrived := if m.pageId < 0 then [m] + linked else [m];
            QueuePlaced(Push(q, m, linked, now), groups, homes, Grow(blocks, arrived))
            && AreGroups(Grow(blocks, arrived)) && Concat(Grow(blocks, arrived)) == Concat(blocks) + arrived
  {
    hide Inv, Subseq, Arrival, Concat, GroupPrefix, Parts, Push, Rest, Untouched, Unsent;
    var arrived := if m.pageId < 0 then [m] + linked else [m];
    var r := Push(q, m, linked, now);
    PushInv(q, m, linked, now);
    NewBlock(m, linked);
    ConcatSnoc(blocks, arrived);
    assert Grow(blocks, arrived) == blocks + [arrived];
    PushRest(q, m, linked, now);
    var e := r.elems[|q.elems|];
    PartsAppend(Rest(q.elems), [e]);
    OnePart(e);
    assert Chosen(r.elems, homes) == Chosen(q.elems, homes) + [arrived];
    SubseqRefl([arrived]);
    SubseqConcat(Chosen(q.elems, homes), blocks, [arrived], [arrived]);
  }

  lemma PushRest(q: Queue, m: Msg, linked: seq<Msg>, now: int)
    requires !q.waiting && m.pageId <= 0
    ensures var r := Push(q, m, linked, now);
            && |r.elems| == |q.elems| + 1 && r.elems[..|q.elems|] == q.elems
            && var e := r.elems[|q.elems|];
               Untouched(e) && Rest(r.elems) == Rest(q.elems) + [e] && Unsent(e) == if m.pageId < 0 then [m] + linked else [m]
  {
  }

  lemma NewBlock(m: Msg, linked: seq<Msg>)
    requires m.pageId <= 0 && Arrival(m, linked)
    ensures GroupPrefix(if m.pageId < 0 then [m] + linked else [m])
  {
    assert ([m] + linked)[1..] == linked;
  }

  lemma OfferPlaced(q: Queue, m: Msg, linked: seq<Msg>, now: int, groups: seq<seq<Msg>>, homes: seq<seq<Msg>>, blocks: seq<seq<Msg>>)
    requires Inv(q) && Arrival(m, linked) && QueuePlaced(q, groups, homes, blocks)
    requires FrontLink(q.elems, groups) && AreGroups(blocks) && Prefixes(groups, homes)
    ensures Shape(q)
    ensures var o := Offer(q, m, linked, now); var homes', blocks' := GrowHome(q, homes, m), Grow(blocks, o.arrived);
            QueuePlaced(o.queue, groups, homes', blocks') && AreGroups(blocks') && Prefixes(groups, homes')
            && Concat(blocks') == Concat(blocks) + o.arrived
  {
    hide Inv, Content, Unsent, Untouched, Subseq, QueuePlaced, GroupPrefix, FrontLink, CanAdd, Extend, Abandon, Push, Arrival, AreGroups;
    ShapeInv(q);
    if q.waiting && CanAdd(WaitingGroup(q), m) {
      ExtendPlaced(q, m, groups, homes, blocks);
    } else {
      BaseInv(q);
      BasePlaced(q, groups, homes, blocks);
      if m.pageId <= 0 {
        PushPlaced(Base(q), m, linked, now, groups, homes, blocks);
      } else {
        assert Concat(blocks) + [] == Concat(blocks);
      }
    }
  }

  // ---------------------------------------------------------------- departure

  /** Handing over one message changes where its block is counted, not which blocks there are. */
  lemma TakePlaced(q: Queue, groups: seq<seq<Msg>>, homes: seq<seq<Msg>>, blocks: seq<seq<Msg>>)
    requires Inv(q) && HasNext(q) && QueuePlaced(q, groups, homes, blocks) && Prefixes(groups, homes) && FrontLink(q.elems, groups)
    ensures var (r, m) := Take(q); var e := q.elems[0];
            var groups', homes' := Grow(groups, [m]), if Untouched(e) then homes + [Unsent(e)] else homes;
            QueuePlaced(r, groups', homes', blocks) && Prefixes(groups', homes')
  {
    hide Inv, Take, QueuePlaced, Prefixes, FrontLink, Grow, Untouched;
    if Untouched(q.elems[0]) {
      TakeStart(q, groups, homes, blocks);
    } else {
      TakeLater(q, groups, homes, blocks);
    }
  }

  lemma TakeStart(q: Queue, groups: seq<seq<Msg>>, homes: seq<seq<Msg>>, blocks: seq<seq<Msg>>)
    requires Inv(q) && HasNext(q) && QueuePlaced(q, groups, homes, blocks) && Prefixes(groups, homes) && Untouched(q.elems[0])
    ensures var (r, m) := Take(q); var groups', homes' := Grow(groups, [m]), homes + [Unsent(q.elems[0])];
            QueuePlaced(r, groups', homes', blocks) && Prefixes(groups', homes')
  {
    hide Subseq, Parts, Inv, Unsent, Take, Untouched, Rest, ElemOk, HasNext;
    NextFront(q);
    var (r, m) := Take(q);
    var e, rest := q.elems[0], q.elems[1..];
    FrontOk(q);
    StartPage(e);
    TakenFront(q);
    assert q.elems == [e] + rest;
    OnePart(e);
    PartsAppend([e], rest);
    assert homes + ([Unsent(e)] + Parts(rest)) == (homes + [Unsent(e)]) + Parts(rest);
  }

  lemma FrontOk(q: Queue)
    requires Inv(q) && q.elems != []
    ensures ElemOk(q.elems[0]) && forall i :: 1 <= i < |q.elems| ==> Untouched(q.elems[i])
  {
  }

  /** What is left of the queue when the first message of an untouched front element is taken. */
  lemma TakenFront(q: Queue)
    requires HasNext(q) && (forall i :: 1 <= i < |q.elems| ==> Untouched(q.elems[i])) && Untouched(q.elems[0])
    ensures var (r, m) := Take(q); var e := q.elems[0];
            && Rest(r.elems) == q.elems[1..] && [m] <= Unsent(e) && m == Unsent(e)[0] && r.waiting == q.waiting
            && (r.elems != [] && !Untouched(r.elems[0]) ==> e.Paged? && Unsent(e) == [m] + Unsent(r.elems[0]))
            && Rest(q.elems) == q.elems
  {
  }

  lemma NextFront(q: Queue)
    requires HasNext(q)
    ensures q.elems != [] && Unsent(q.elems[0]) != []
  {
  }

  lemma OnePart(e: Elem)
    ensures Parts([e]) == [Unsent(e)]
  {
    assert Parts([e]) == [Unsent(e)] + Parts([]);
  }

  lemma TakeLater(q: Queue, groups: seq<seq<Msg>>, homes: seq<seq<Msg>>, blocks: seq<seq<Msg>>)
    requires Inv(q) && HasNext(q) && QueuePlaced(q, groups, homes, blocks) && Prefixes(groups, homes) && !Untouched(q.elems[0])
    ensures var (r, m) := Take(q); var groups' := Grow(groups, [m]);
            QueuePlaced(r, groups', homes, blocks) && Prefixes(groups', homes)
  {
    hide Take, Subseq, Parts, Inv, Unsent, Untouched, Rest;
    var (r, m) := Take(q);
    FrontOk(q);
    TakenLater(q);
    var g := groups[|groups| - 1];
    assert g + ([m] + Unsent(r.elems[0])) == (g + [m]) + Unsent(r.elems[0]);
  }

  /** What is left of the queue when a later page of the front group is taken. */
  lemma TakenLater(q: Queue)
    requires HasNext(q) && ElemOk(q.elems[0]) && !Untouched(q.elems[0])
    ensures var (r, m) := Take(q);
            && m.pageId > 0 && Rest(r.elems) == Rest(q.elems) && r.waiting == q.waiting
            && r.elems != [] && !Untouched(r.elems[0]) && Unsent(q.elems[0]) == [m] + Unsent(r.elems[0])
  {
    LaterPages(q.elems[0]);
    var (r, m) := Take(q);
    assert r.elems[1..] == q.elems[1..];
  }

  lemma StartPage(e: Elem)
    requires ElemOk(e) && Untouched(e) && Unsent(e) != []
    ensures Unsent(e)[0].pageId <= 0 && (e.Paged? ==> !Untouched(Paged(RemoveNext(e.group))))
  {
    if e.Paged? {
      assert IsPage(e.group, e.group.unsent[0], 0);
    }
  }

  lemma LaterPages(e: Elem)
    requires ElemOk(e) && !Untouched(e) && Unsent(e) != []
    ensures Unsent(e)[0].pageId > 0 && !Untouched(Paged(RemoveNext(e.group)))
  {
    assert IsPage(e.group, e.group.unsent[0], e.group.waitingPage - |e.group.unsent|);
  }
}
