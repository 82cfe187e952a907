/** End to end: values are cut into pages, queued, partly evicted, sent, merged and joined. */
module Pipeline {
  import opened Bytes
  import opened Sequences
  import opened Pages
  import opened Queue
  import opened QueueBlocks
  import opened QueueRun
  import opened Receiver

  /** On the wire every message of a stream carries the rid of the stream. */
  function Wire(msgs: seq<Msg>, rid: Int32): (w: seq<Msg>)
    ensures |w| == |msgs| && forall i :: 0 <= i < |w| ==> w[i] == msgs[i].(rid := rid)
  {
    if msgs == [] then [] else [msgs[0].(rid := rid)] + Wire(msgs[1..], rid)
  }

  function WireGroups(groups: seq<seq<Msg>>, rid: Int32): (w: seq<seq<Msg>>)
    ensures |w| == |groups| && forall i :: 0 <= i < |w| ==> w[i] == Wire(groups[i], rid)
  {
    if groups == [] then [] else [Wire(groups[0], rid)] + WireGroups(groups[1..], rid)
  }

  lemma {:induction false} WireConcat(groups: seq<seq<Msg>>, rid: Int32)
    ensures Concat(WireGroups(groups, rid)) == Wire(Concat(groups), rid)
  {
    if groups != [] {
      WireConcat(groups[1..], rid);
      WireAppend(groups[0], Concat(groups[1..]), rid);
      assert WireGroups(groups, rid)[1..] == WireGroups(groups[1..], rid);
    }
  }

  lemma WireAppend(a: seq<Msg>, b: seq<Msg>, rid: Int32)
    ensures Wire(a + b, rid) == Wire(a, rid) + Wire(b, rid)
  {
  }

  lemma WireGroup(g: seq<Msg>, rid: Int32)
    requires GroupPrefix(g)
    ensures GroupPrefix(Wire(g, rid)) && (CompleteGroup(Wire(g, rid)) <==> CompleteGroup(g))
    ensures Bodies(Wire(g, rid)) == Bodies(g)
  {
    WireBodies(g, rid);
    var w := Wire(g, rid);
    forall i | 0 <= i < |g| - 1
      ensures g[1..][i] == g[i + 1] && w[1..][i] == g[i + 1].(rid := rid)
    {
    }
  }

  lemma {:induction false} WireBodies(g: seq<Msg>, rid: Int32)
    ensures Bodies(Wire(g, rid)) == Bodies(g)
  {
    if g != [] {
      WireBodies(g[1..], rid);
    }
  }

  /** Group starts on one stream use a sequence id that no later message start uses. */
  predicate FreshStart(x: Msg, y: Msg)
  {
    x.pageId < 0 && y.pageId <= 0 ==> x.sequenceId != y.sequenceId
  }

  /** Neighbouring groups of a stream with fresh sequence ids are separated. */
  lemma {:induction false} StartsSeparated(groups: seq<seq<Msg>>)
    requires Pairwise(FreshStart, Concat(groups))
    requires forall i :: 0 <= i < |groups| ==> GroupPrefix(groups[i])
    ensures Separated(groups)
  {
    if |groups| >= 2 {
      var g, rest := groups[0], groups[1..];
      var all, tail := Concat(groups), Concat(rest);
      forall i, j | 0 <= i < j < |tail| ensures FreshStart(tail[i], tail[j]) {
        assert tail[i] == all[|g| + i] && tail[j] == all[|g| + j];
      }
      StartsSeparated(rest);
      forall i | 0 <= i < |groups| - 1 && groups[i] != [] && groups[i + 1] != [] && !CompleteGroup(groups[i])
        ensures groups[i][0].sequenceId != groups[i + 1][0].sequenceId
      {
        if i == 0 {
          assert all[0] == g[0] && all[|g|] == groups[1][0] && GroupPrefix(groups[1]);
          assert FreshStart(all[0], all[|g|]);
        } else {
          assert groups[i] == rest[i - 1] && groups[i + 1] == rest[i];
        }
      }
    }
  }

  /** What the receiver makes of a run's messages, for every run of a sending queue, whatever is evicted, abandoned or
      interleaved: the outcome group by group; exactly the groups that were handed over completely, each once and in
      order, if and only if none of them is disturbed by an abandoned one; and then exactly their values. */
  lemma EndToEnd(limits: Limits, events: seq<Event>, rid: Int32)
    requires Possible(Start(limits), events)
    ensures var r := Exec(Start(limits), events); var w := WireGroups(r.groups, rid); var out := Deliver(IDLE, Wire(r.sent, rid)).1;
            && out == Outcome(Clear, w) && (out == CompleteOnes(w) <==> Undisturbed(Clear, w))
            && (Undisturbed(Clear, w) ==> ValuesOf(out) == Values(r.groups))
  {
    hide Exec, Possible, Inv, Content, GroupPrefix, CompleteGroup, Deliver, Undisturbed, Outcome;
    RunHistory(limits, events);
    DeliverWire(Exec(Start(limits), events).groups, rid);
  }

  /** Fresh sequence ids on everything accepted are enough for that, over every run. */
  lemma FreshRunUndisturbed(limits: Limits, events: seq<Event>, rid: Int32)
    requires Possible(Start(limits), events) && Pairwise(FreshStart, Exec(Start(limits), events).accepted)
    ensures Undisturbed(Clear, WireGroups(Exec(Start(limits), events).groups, rid))
  {
    hide Exec, Possible, Inv, Content, GroupPrefix, CompleteGroup, Separated, Undisturbed;
    RunHistory(limits, events);
    var r := Exec(Start(limits), events);
    SubseqPrefix(r.sent, Content(r.state.queue.elems), r.accepted);
    SubseqPairwise(FreshStart, r.sent, r.accepted);
    StartsSeparated(r.groups);
    WireSeparated(r.groups, rid);
  }

  lemma WireAll(groups: seq<seq<Msg>>, rid: Int32)
    requires AreGroups(groups)
    ensures AreGroups(WireGroups(groups, rid)) && Alike(WireGroups(groups, rid), groups)
  {
    hide GroupPrefix, CompleteGroup, Bodies;
    var w := WireGroups(groups, rid);
    forall i | 0 <= i < |w|
      ensures GroupPrefix(w[i]) && (CompleteGroup(w[i]) <==> CompleteGroup(groups[i])) && Bodies(w[i]) == Bodies(groups[i])
    {
      WireGroup(groups[i], rid);
    }
  }

  lemma WireSeparated(groups: seq<seq<Msg>>, rid: Int32)
    requires AreGroups(groups) && Separated(groups)
    ensures Undisturbed(Clear, WireGroups(groups, rid))
  {
    hide GroupPrefix, CompleteGroup, Bodies, Undisturbed;
    WireAll(groups, rid);
    SeparatedUndisturbed(Clear, WireGroups(groups, rid));
  }

  lemma DeliverWire(groups: seq<seq<Msg>>, rid: Int32)
    requires AreGroups(groups)
    ensures var w := WireGroups(groups, rid); var out := Deliver(IDLE, Wire(Concat(groups), rid)).1;
            && out == Outcome(Clear, w) && (out == CompleteOnes(w) <==> Undisturbed(Clear, w))
            && Values(w) == Values(groups)
  {
    hide GroupPrefix, CompleteGroup, Deliver, Bodies, Outcome, Undisturbed;
    var w := WireGroups(groups, rid);
    WireAll(groups, rid);
    WireConcat(groups, rid);
    IdleHolds();
    ReceiveGroups(IDLE, Clear, w);
    OutcomeExact(Clear, w);
    SameValues(w, groups);
  }

  /** Group by group the same bodies, complete or not. */
  ghost predicate Alike(a: seq<seq<Msg>>, b: seq<seq<Msg>>)
  {
    |a| == |b| && forall i :: 0 <= i < |a| ==> (CompleteGroup(a[i]) <==> CompleteGroup(b[i])) && Bodies(a[i]) == Bodies(b[i])
  }

  lemma {:induction false} SameValues(a: seq<seq<Msg>>, b: seq<seq<Msg>>)
    requires Alike(a, b)
    ensures Values(a) == Values(b)
  {
    hide CompleteGroup, Bodies;
    if a != [] {
      assert Alike(a[1..], b[1..]) by {
        assert forall i :: 0 <= i < |a[1..]| ==> a[1..][i] == a[i + 1] && b[1..][i] == b[i + 1];
      }
      assert CompleteGroup(a[0]) <==> CompleteGroup(b[0]);
      SameValues(a[1..], b[1..]);
      ValuesStep(a);
      ValuesStep(b);
    }
  }

  lemma ValuesStep(groups: seq<seq<Msg>>)
    requires groups != []
    ensures Values(groups) == (if CompleteGroup(groups[0]) then [Concat(Bodies(groups[0]))] else []) + Values(groups[1..])
  {
    hide CompleteGroup, Bodies;
    var rest := CompleteOnes(groups[1..]);
    if CompleteGroup(groups[0]) {
      assert ([groups[0]] + rest)[1..] == rest;
    } else {
      assert [] + rest == rest;
    }
  }

  // ---------------------------------------------------------------- back to the original values

  /** The messages of one value, for a list of values: each is what set_value made of it. */
  ghost predicate MadeFrom(groups: seq<seq<Msg>>, values: seq<Bytes>)
  {
    && |groups| == |values|
    && forall i :: 0 <= i < |groups| ==> CompleteGroup(groups[i]) && Concat(Bodies(groups[i])) == values[i]
  }

  lemma {:induction false} MadeFromValues(groups: seq<seq<Msg>>, values: seq<Bytes>)
    requires MadeFrom(groups, values)
    ensures ValuesOf(groups) == values
  {
    hide CompleteGroup, Bodies;
    if groups != [] {
      MadeFromValues(groups[1..], values[1..]);
    }
  }

  lemma {:induction false} SubseqValues(c: seq<seq<Msg>>, all: seq<seq<Msg>>)
    requires Subseq(c, all)
    ensures Subseq(ValuesOf(c), ValuesOf(all))
    decreases |all|
  {
    hide Bodies;
    if c != [] {
      assert ValuesOf(c)[1..] == ValuesOf(c[1..]) && ValuesOf(all)[1..] == ValuesOf(all[1..]);
      if c[0] == all[0] && Subseq(c[1..], all[1..]) {
        SubseqValues(c[1..], all[1..]);
      } else {
        SubseqValues(c, all[1..]);
      }
    }
  }

  lemma CompleteTwice(groups: seq<seq<Msg>>)
    ensures Values(CompleteOnes(groups)) == Values(groups)
  {
    NothingLeftOut(CompleteOnes(groups));
  }

  lemma SubseqStep<T(!new)>(c: seq<T>, all: seq<T>)
    requires Subseq(c, all)
    ensures c != [] ==> all != [] && ((c[0] == all[0] && Subseq(c[1..], all[1..])) || Subseq(c, all[1..]))
  {
  }

  lemma NoValues()
    ensures Values([]) == [] && forall v: seq<Bytes> :: Subseq([], v)
  {
  }

  lemma {:induction false} SubseqComplete(c: seq<seq<Msg>>, all: seq<seq<Msg>>)
    requires Subseq(c, all)
    ensures Subseq(Values(c), Values(all))
    decreases |all|
  {
    hide CompleteGroup, Bodies, Values, Subseq;
    SubseqStep(c, all);
    if c == [] {
      NoValues();
    } else {
      ValuesStep(all);
      ValuesStep(c);
      var x := if CompleteGroup(all[0]) then [Concat(Bodies(all[0]))] else [];
      if c[0] == all[0] && Subseq(c[1..], all[1..]) {
        SubseqComplete(c[1..], all[1..]);
        SubseqRefl(x);
        SubseqConcat(x, x, Values(c[1..]), Values(all[1..]));
      } else {
        SubseqComplete(c, all[1..]);
        SubseqWithout([], x, Values(all[1..]));
        assert [] + Values(all[1..]) == Values(all[1..]) && [] + x + Values(all[1..]) == x + Values(all[1..]);
        SubseqTrans(Values(c), Values(all[1..]), Values(all));
      }
    }
  }

  /** A complete group that was handed over is the whole of its home. */
  lemma WholeHome(g: seq<Msg>, home: seq<Msg>)
    requires g <= home && CompleteGroup(g) && GroupPrefix(home)
    ensures g == home
  {
    assert home == g + home[|g|..];
  }

  lemma {:induction false} CompleteFromHomes(groups: seq<seq<Msg>>, homes: seq<seq<Msg>>)
    requires Prefixes(groups, homes) && AreGroups(homes)
    ensures Subseq(CompleteOnes(groups), homes)
  {
    hide CompleteGroup, GroupPrefix;
    if groups != [] {
      assert forall i :: 0 <= i < |groups[1..]| ==> groups[1..][i] == groups[i + 1] && homes[1..][i] == homes[i + 1];
      CompleteFromHomes(groups[1..], homes[1..]);
      var rest := CompleteOnes(groups[1..]);
      if CompleteGroup(groups[0]) {
        WholeHome(groups[0], homes[0]);
        assert CompleteOnes(groups) == [groups[0]] + rest && ([groups[0]] + rest)[1..] == rest;
      } else {
        assert CompleteOnes(groups) == rest;
      }
    }
  }

  lemma SubseqGroups(some: seq<seq<Msg>>, all: seq<seq<Msg>>)
    requires Subseq(some, all) && AreGroups(all)
    ensures AreGroups(some)
  {
    hide GroupPrefix, Subseq;
    SubseqMembers(some, all);
    forall i | 0 <= i < |some| ensures GroupPrefix(some[i]) {
      assert some[i] in all;
    }
  }

  lemma CompletePrefixes(groups: seq<seq<Msg>>)
    requires forall i :: 0 <= i < |groups| ==> CompleteGroup(groups[i])
    ensures forall i :: 0 <= i < |groups| ==> GroupPrefix(groups[i])
  {
  }

  lemma {:induction false} UniqueGrouping(a: seq<seq<Msg>>, b: seq<seq<Msg>>)
    requires forall i :: 0 <= i < |a| ==> GroupPrefix(a[i])
    requires forall i :: 0 <= i < |b| ==> GroupPrefix(b[i])
    requires Concat(a) == Concat(b)
    ensures a == b
  {
    EmptyGrouping(a);
    EmptyGrouping(b);
    if a != [] {
      assert GroupPrefix(a[0]) && GroupPrefix(b[0]);
      assert a[0] == b[0] by {
        StartOfRest(a[1..]);
        StartOfRest(b[1..]);
        SameFirst(a[0], Concat(a[1..]), b[0], Concat(b[1..]));
      }
      assert Concat(a[1..]) == Concat(a)[|a[0]|..] == Concat(b[1..]);
      UniqueGrouping(a[1..], b[1..]);
      assert a == [a[0]] + a[1..] && b == [b[0]] + b[1..];
    }
  }

  lemma StartOfRest(groups: seq<seq<Msg>>)
    requires forall i :: 0 <= i < |groups| ==> GroupPrefix(groups[i])
    ensures Concat(groups) != [] ==> Concat(groups)[0].pageId <= 0
  {
  }

  lemma EmptyGrouping(groups: seq<seq<Msg>>)
    requires forall i :: 0 <= i < |groups| ==> GroupPrefix(groups[i])
    ensures groups == [] <==> Concat(groups) == []
  {
  }

  lemma LaterPage(g: seq<Msg>, k: nat)
    requires GroupPrefix(g) && 0 < k < |g|
    ensures g[k].pageId > 0
  {
  }

  lemma NotShorter(x: seq<Msg>, xs: seq<Msg>, y: seq<Msg>, ys: seq<Msg>)
    requires x != [] && GroupPrefix(y) && x + xs == y + ys && (xs != [] ==> xs[0].pageId <= 0)
    ensures |x| >= |y|
  {
    forall k | 0 < k < |y| ensures (y + ys)[k].pageId > 0 {
      LaterPage(y, k);
    }
    assert |x| < |x + xs| ==> (x + xs)[|x|] == xs[0];
  }

  lemma SameFirst(x: seq<Msg>, xs: seq<Msg>, y: seq<Msg>, ys: seq<Msg>)
    requires GroupPrefix(x) && GroupPrefix(y) && x + xs == y + ys
    requires (xs != [] ==> xs[0].pageId <= 0) && (ys != [] ==> ys[0].pageId <= 0)
    ensures x == y
  {
    NotShorter(x, xs, y, ys);
    NotShorter(y, ys, x, xs);
    assert x == (x + xs)[..|x|] && y == (y + ys)[..|y|];
  }

  /** Every value that comes out is one of the values that went in, whole, in order and at most once, over every run with
      such a wire: groups may be evicted after some of their pages were sent, and abandoned while they arrive. */
  lemma DeliveredInOrder(limits: Limits, events: seq<Event>, rid: Int32, all: seq<seq<Msg>>)
    requires Possible(Start(limits), events) && AreGroups(all)
    requires var r := Exec(Start(limits), events); r.accepted == Concat(all) && Undisturbed(Clear, WireGroups(r.groups, rid))
    ensures Subseq(ValuesOf(Deliver(IDLE, Wire(Exec(Start(limits), events).sent, rid)).1), Values(all))
  {
    hide Exec, Possible, GroupPrefix, CompleteGroup, Deliver, Undisturbed, Prefixes, Subseq, Bodies, Values, CompleteOnes;
    var r := Exec(Start(limits), events);
    EndToEnd(limits, events, rid);
    RunBlocks(limits, events);
    SameGroups(r.blocks, all);
    SubseqGroups(r.homes, r.blocks);
    CompleteFromHomes(r.groups, r.homes);
    SubseqTrans(CompleteOnes(r.groups), r.homes, r.blocks);
    SubseqComplete(CompleteOnes(r.groups), all);
    CompleteTwice(r.groups);
  }

  /** There is only one way to cut messages into groups. */
  lemma SameGroups(a: seq<seq<Msg>>, b: seq<seq<Msg>>)
    requires AreGroups(a) && AreGroups(b) && Concat(a) == Concat(b)
    ensures a == b
  {
    hide GroupPrefix, Concat;
    UniqueGrouping(a, b);
  }

  /** When nothing is evicted and the queue has drained, exactly the values that went in come out, whatever their sequence
      ids. */
  lemma PipelineIdentity(limits: Limits, events: seq<Event>, rid: Int32, all: seq<seq<Msg>>, values: seq<Bytes>)
    requires Possible(Start(limits), events) && MadeFrom(all, values)
    requires var r := Exec(Start(limits), events);
             r.accepted == Concat(all) && r.evicted == multiset{} && Content(r.state.queue.elems) == []
    ensures ValuesOf(Deliver(IDLE, Wire(Exec(Start(limits), events).sent, rid)).1) == values
  {
    hide Exec, Possible, Inv, CompleteGroup, GroupPrefix, Deliver, Bodies;
    var r := Exec(Start(limits), events);
    RunHistory(limits, events);
    RunComplete(limits, events);
    MadeValues(all, values);
    SameGroups(r.groups, all);
    AllSeparated(all);
    WireSeparated(all, rid);
    EndToEnd(limits, events, rid);
  }

  lemma AllSeparated(groups: seq<seq<Msg>>)
    requires AllComplete(groups)
    ensures Separated(groups)
  {
  }

  lemma {:induction false} NothingLeftOut(groups: seq<seq<Msg>>)
    requires AllComplete(groups)
    ensures CompleteOnes(groups) == groups
  {
    hide CompleteGroup;
    if groups != [] {
      NothingLeftOut(groups[1..]);
      assert groups == [groups[0]] + groups[1..];
    }
  }

  // ---------------------------------------------------------------- values sent with set_value

  /** What set_value makes of each value, with the sequence ids given and any headers and creation times. */
  function InvokeGroups(values: seq<Bytes>, ids: seq<Int32>, stamps: seq<nat -> Stamp>): (g: seq<seq<Msg>>)
    requires |values| == |ids| == |stamps|
    ensures |g| == |values| && forall i :: 0 <= i < |g| ==> g[i] == InvokePages(values[i], 0, ids[i], stamps[i])
  {
    if values == [] then []
    else [InvokePages(values[0], 0, ids[0], stamps[0])] + InvokeGroups(values[1..], ids[1..], stamps[1..])
  }

  predicate FreshIds(ids: seq<Int32>)
  {
    (forall i :: 0 <= i < |ids| ==> ids[i] != 0) && forall i, j :: 0 <= i < j < |ids| ==> ids[i] != ids[j]
  }

  /** A start message in the stream of these groups carries one of their ids, or 0 when it is not paged. */
  lemma {:induction false} InvokeStarts(values: seq<Bytes>, ids: seq<Int32>, stamps: seq<nat -> Stamp>, m: Msg)
    requires |values| == |ids| == |stamps| && m in Concat(InvokeGroups(values, ids, stamps)) && m.pageId <= 0
    ensures m.sequenceId == 0 || m.sequenceId in ids
  {
    var g := InvokePages(values[0], 0, ids[0], stamps[0]);
    assert InvokeGroups(values, ids, stamps)[1..] == InvokeGroups(values[1..], ids[1..], stamps[1..]);
    if m !in g {
      InvokeStarts(values[1..], ids[1..], stamps[1..], m);
    }
  }

  lemma {:induction false} InvokeStreamFresh(values: seq<Bytes>, ids: seq<Int32>, stamps: seq<nat -> Stamp>)
    requires |values| == |ids| == |stamps| && FreshIds(ids)
    ensures Pairwise(FreshStart, Concat(InvokeGroups(values, ids, stamps)))
  {
    if values != [] {
      var g, rest := InvokePages(values[0], 0, ids[0], stamps[0]), Concat(InvokeGroups(values[1..], ids[1..], stamps[1..]));
      var all := Concat(InvokeGroups(values, ids, stamps));
      assert InvokeGroups(values, ids, stamps)[1..] == InvokeGroups(values[1..], ids[1..], stamps[1..]);
      InvokePagesComplete(values[0], 0, ids[0], stamps[0]);
      InvokeStreamFresh(values[1..], ids[1..], stamps[1..]);
      forall i, j | 0 <= i < j < |all| ensures FreshStart(all[i], all[j]) {
        if i >= |g| {
          assert FreshStart(rest[i - |g|], rest[j - |g|]);
        } else if all[i].pageId < 0 && all[j].pageId <= 0 {
          InvokeFirst(g, i);
          if j < |g| {
            InvokeFirst(g, j);
          } else {
            assert all[j] in rest;
            InvokeStarts(values[1..], ids[1..], stamps[1..], all[j]);
          }
        }
      }
    }
  }

  lemma InvokeFirst(g: seq<Msg>, i: nat)
    requires CompleteGroup(g) && i < |g|
    ensures g[i].pageId <= 0 ==> i == 0
  {
  }

  /** Byte values sent with set_value come out unchanged, in order and at most once, over every run with fresh sequence ids
      and over every other run in which no group is disturbed by an abandoned one. */
  lemma SetValueInOrder(limits: Limits, events: seq<Event>, rid: Int32, values: seq<Bytes>, ids: seq<Int32>, stamps: seq<nat -> Stamp>)
    requires |values| == |ids| == |stamps| && Possible(Start(limits), events)
    requires Exec(Start(limits), events).accepted == Concat(InvokeGroups(values, ids, stamps))
    requires FreshIds(ids) || Undisturbed(Clear, WireGroups(Exec(Start(limits), events).groups, rid))
    ensures Subseq(ValuesOf(Deliver(IDLE, Wire(Exec(Start(limits), events).sent, rid)).1), values)
  {
    hide *;
    InvokeMade(values, ids, stamps);
    MadeValues(InvokeGroups(values, ids, stamps), values);
    if FreshIds(ids) {
      InvokeStreamFresh(values, ids, stamps);
      FreshRunUndisturbed(limits, events, rid);
    }
    DeliveredInOrder(limits, events, rid, InvokeGroups(values, ids, stamps));
  }

  /** The page pipeline is the identity: when nothing was evicted and the queue drained, exactly the values sent with
      set_value come out, whatever their sequence ids. */
  lemma SetValuePipeline(limits: Limits, events: seq<Event>, rid: Int32, values: seq<Bytes>, ids: seq<Int32>, stamps: seq<nat -> Stamp>)
    requires |values| == |ids| == |stamps| && Possible(Start(limits), events)
    requires var r := Exec(Start(limits), events);
             r.accepted == Concat(InvokeGroups(values, ids, stamps)) && r.evicted == multiset{} && Content(r.state.queue.elems) == []
    ensures ValuesOf(Deliver(IDLE, Wire(Exec(Start(limits), events).sent, rid)).1) == values
  {
    hide *;
    InvokeMade(values, ids, stamps);
    PipelineIdentity(limits, events, rid, InvokeGroups(values, ids, stamps), values);
  }

  lemma InvokeMade(values: seq<Bytes>, ids: seq<Int32>, stamps: seq<nat -> Stamp>)
    requires |values| == |ids| == |stamps|
    ensures MadeFrom(InvokeGroups(values, ids, stamps), values)
  {
    hide CompleteGroup, Bodies;
    var all := InvokeGroups(values, ids, stamps);
    forall i | 0 <= i < |all| ensures CompleteGroup(all[i]) && Concat(Bodies(all[i])) == values[i] {
      InvokePagesComplete(values[i], 0, ids[i], stamps[i]);
    }
  }

  lemma MadeValues(all: seq<seq<Msg>>, values: seq<Bytes>)
    requires MadeFrom(all, values)
    ensures AreGroups(all) && Values(all) == values
  {
    hide CompleteGroup, Bodies;
    CompletePrefixes(all);
    NothingLeftOut(all);
    MadeFromValues(all, values);
  }
}
