/** Putting page groups back together: IncomingPagesMerger and IncomingPageCache as a state machine on values.
    src/sdk/message/message_page_group.h and message_page_group.cc. */
module Receiver {
  import opened Bytes
  import opened Sequences
  import opened Pages
  import opened QueueBlocks
  import opened QueueRun

  datatype Merger = Merger(rid: Int32, sequenceId: Int32, totalPage: int, waitingPage: int)

  /** `pages` is the linked list that starts at _first. */
  datatype Cache = Cache(rid: Int32, sequenceId: Int32, lastPage: int, pages: seq<Msg>)

  /** `live`: the page the merger links the next one to is the last page of the cached list. */
  datatype Receiver = Receiver(merger: Option<Merger>, cache: Option<Cache>, live: bool)

  const IDLE: Receiver := Receiver(None, None, false)

  predicate Merges(g: Merger, m: Msg)
  {
    m.rid == g.rid && m.sequenceId == g.sequenceId && m.pageId == g.waitingPage
  }

  /** The static IncomingPagesMerger::check_merge. */
  function Merge(r: Receiver, m: Msg): Receiver
  {
    if m.pageId < 0 then r.(merger := Some(Merger(m.rid, m.sequenceId, -m.pageId, 1)), live := false)
    else if r.merger.None? then r
    else if !Merges(r.merger.value, m) then r.(merger := None, live := false)
    else
      var g := r.merger.value.(waitingPage := r.merger.value.waitingPage + 1);
      var linked := if r.live && r.cache.Some? then r.(cache := Some(r.cache.value.(pages := r.cache.value.pages + [m]))) else r;
      if g.waitingPage >= g.totalPage then linked.(merger := None, live := false) else linked.(merger := Some(g))
  }

  /** IncomingPageCache::get_first_page: the pages of the message it returns, if it returns one. */
  function FirstPage(r: Receiver, m: Msg): (Receiver, Option<seq<Msg>>)
  {
    if r.cache.Some? && r.cache.value.rid == m.rid && r.cache.value.sequenceId == m.sequenceId then
      if m.pageId >= r.cache.value.lastPage then (r.(cache := None, live := false), Some(r.cache.value.pages))
      else (r, None)
    else if m.pageId == 0 then (r.(cache := None, live := false), Some([m]))
    else if m.pageId < 0 then (r.(cache := Some(Cache(m.rid, m.sequenceId, -m.pageId - 1, [m])), live := true), None)
    else (r.(cache := None, live := false), None)
  }

  function Receive(r: Receiver, m: Msg): (Receiver, Option<seq<Msg>>)
  {
    FirstPage(Merge(r, m), m)
  }

  /** The page chains that come out, for a whole stream of messages. */
  function Deliver(r: Receiver, msgs: seq<Msg>): (Receiver, seq<seq<Msg>>)
    decreases |msgs|
  {
    if msgs == [] then (r, [])
    else
      var (next, out) := Receive(r, msgs[0]);
      var (last, rest) := Deliver(next, msgs[1..]);
      (last, Listed(out) + rest)
  }

  /** get_value of each of them. */
  function ValuesOf(groups: seq<seq<Msg>>): seq<Bytes>
  {
    if groups == [] then [] else [Concat(Bodies(groups[0]))] + ValuesOf(groups[1..])
  }

  /** The merger takes the next page of its own group and none else, and the cached chain grows by it only if it is that of the
      same group. A page of another group ends the merger. */
  lemma MergerTakes(r: Receiver, m: Msg)
    requires m.pageId >= 0 && r.merger.Some?
    ensures var g, next := r.merger.value, Merge(r, m); var own := m.rid == g.rid && m.sequenceId == g.sequenceId && m.pageId == g.waitingPage;
            && (next.merger.Some? <==> own && g.waitingPage + 1 < g.totalPage)
            && (next.merger.Some? ==> next.merger.value == g.(waitingPage := m.pageId + 1))
            && (if own && r.live && r.cache.Some? then next.cache == Some(r.cache.value.(pages := r.cache.value.pages + [m]))
                else next.cache == r.cache)
  {
  }

  /** A later page that does not belong to the cached group makes the receiver forget that group: no later page, of whatever
      group, releases anything after it. */
  lemma ForeignPage(r: Receiver, m: Msg, later: seq<Msg>)
    requires m.pageId > 0 && (forall n :: n in later ==> n.pageId > 0)
    requires r.cache.Some? ==> r.cache.value.rid != m.rid || r.cache.value.sequenceId != m.sequenceId
    ensures Deliver(r, [m] + later).1 == []
  {
    var next := Receive(r, m);
    NoCache(next.0, later);
    assert ([m] + later)[0] == m && ([m] + later)[1..] == later;
  }

  lemma {:induction false} NoCache(r: Receiver, later: seq<Msg>)
    requires r.cache.None? && forall n :: n in later ==> n.pageId > 0
    ensures Deliver(r, later).1 == [] && Deliver(r, later).0.cache.None?
    decreases |later|
  {
    if later != [] {
      assert later[0] in later;
      NoCache(Receive(r, later[0]).0, later[1..]);
    }
  }

  lemma {:induction false} DeliverAppend(r: Receiver, a: seq<Msg>, b: seq<Msg>)
    ensures var (mid, x) := Deliver(r, a);
            Deliver(r, a + b) == (Deliver(mid, b).0, x + Deliver(mid, b).1)
    decreases |a|
  {
    hide Receive;
    if a == [] {
      assert a + b == b && [] + Deliver(r, b).1 == Deliver(r, b).1;
    } else {
      var (next, out) := Receive(r, a[0]);
      DeliverAppend(next, a[1..], b);
      assert (a + b)[1..] == a[1..] + b;
      var (mid, x) := Deliver(next, a[1..]);
      assert Listed(out) + (x + Deliver(mid, b).1) == (Listed(out) + x) + Deliver(mid, b).1;
    }
  }

  lemma DeliverOne(r: Receiver, m: Msg)
    ensures Deliver(r, [m]) == (Receive(r, m).0, Listed(Receive(r, m).1))
  {
    hide Receive;
    assert [m][1..] == [] && Listed(Receive(r, m).1) + [] == Listed(Receive(r, m).1);
  }

  lemma DeliverSnoc(r: Receiver, a: seq<Msg>, m: Msg)
    ensures var (mid, x) := Deliver(r, a);
            Deliver(r, a + [m]) == (Receive(mid, m).0, x + Listed(Receive(mid, m).1))
  {
    DeliverAppend(r, a, [m]);
    DeliverOne(Deliver(r, a).0, m);
  }

  // ---------------------------------------------------------------- group by group

  /** A group of which the last page never came. */
  ghost predicate Abandoned(g: seq<Msg>)
  {
    GroupPrefix(g) && !CompleteGroup(g)
  }

  predicate SameId(g: seq<Msg>, h: seq<Msg>)
    requires g != [] && h != []
  {
    g[0].rid == h[0].rid && g[0].sequenceId == h[0].sequenceId
  }

  /** What the cache holds between two groups: nothing, or the pages of an abandoned one. */
  datatype Held = Clear | Stuck(pages: seq<Msg>)

  function CacheOf(g: seq<Msg>): Cache
    requires g != []
  {
    Cache(g[0].rid, g[0].sequenceId, -g[0].pageId - 1, g)
  }

  /** A group with the id of the stuck one contains a page that the cache takes for its last one. */
  predicate Reaches(g: seq<Msg>, h: seq<Msg>)
    requires g != [] && h != []
  {
    if h[0].pageId == 0 then g[0].pageId >= -1 else |h| >= 2 && |h| >= -g[0].pageId
  }

  /** The next group: what is held behind it, and what comes out. */
  ghost function Behind(b: Held, h: seq<Msg>): Held
    requires h != [] && (b.Stuck? ==> b.pages != [])
  {
    if b.Stuck? && SameId(b.pages, h) then (if Reaches(b.pages, h) then Clear else b)
    else if CompleteGroup(h) then Clear
    else Stuck(h)
  }

  ghost function ComesOut(b: Held, h: seq<Msg>): seq<seq<Msg>>
    requires h != [] && (b.Stuck? ==> b.pages != [])
  {
    if b.Stuck? && SameId(b.pages, h) then (if Reaches(b.pages, h) then [b.pages] else [])
    else if CompleteGroup(h) then [h]
    else []
  }

  ghost predicate Holds(r: Receiver, b: Held)
  {
    match b
    case Clear => r.cache == None && !r.live
    case Stuck(g) =>
      Abandoned(g) && r.cache == Some(CacheOf(g))
      && (r.live ==> r.merger == Some(Merger(g[0].rid, g[0].sequenceId, -g[0].pageId, |g|)))
  }

  /** The receiver after the first pages of a group that came in well. */
  function Pending(g: seq<Msg>): Receiver
    requires g != []
  {
    Receiver(Some(Merger(g[0].rid, g[0].sequenceId, -g[0].pageId, |g|)), Some(CacheOf(g)), true)
  }

  lemma FirstOfGroup(r: Receiver, b: Held, m: Msg)
    requires Holds(r, b) && m.pageId <= 0 && (b.Stuck? ==> !SameId(b.pages, [m]))
    ensures m.pageId == 0 ==> Receive(r, m).1 == Some([m]) && Holds(Receive(r, m).0, Clear)
    ensures m.pageId < 0 ==> Receive(r, m) == (Pending([m]), None)
  {
  }

  lemma NextOfGroup(g: seq<Msg>, m: Msg)
    requires GroupPrefix(g) && GroupPrefix(g + [m])
    ensures CompleteGroup(g + [m]) ==> Receive(Pending(g), m) == (IDLE, Some(g + [m]))
    ensures !CompleteGroup(g + [m]) ==> Receive(Pending(g), m) == (Pending(g + [m]), None)
  {
    assert (g + [m])[1..] == g[1..] + [m];
    assert (g + [m])[1..][|g| - 1] == m;
  }

  lemma PrefixOfGroup(g: seq<Msg>, n: nat)
    requires GroupPrefix(g) && 1 <= n <= |g|
    ensures GroupPrefix(g[..n]) && (n < |g| ==> !CompleteGroup(g[..n]) && g[0].pageId < 0)
    ensures n < |g| ==> g[n].pageId == n && g[n].rid == g[0].rid && g[n].sequenceId == g[0].sequenceId
  {
    if n < |g| {
      assert g[1..][n - 1] == g[n];
    }
  }

  /** A group that does not meet a stuck one with its id: complete, it comes out exactly once and whole, at its last page;
      started only, nothing comes out and it is stuck. */
  lemma {:induction false} ReceiveGroup(r: Receiver, b: Held, g: seq<Msg>)
    requires Holds(r, b) && GroupPrefix(g) && (b.Stuck? ==> !SameId(b.pages, g))
    ensures var (next, out) := Deliver(r, g);
            if CompleteGroup(g) then Holds(next, Clear) && out == [g] else next == Pending(g) && out == []
    decreases |g|
  {
    hide Receive, Holds;
    var n := |g| - 1;
    if n == 0 {
      assert g == [g[0]];
      FirstOfGroup(r, b, g[0]);
      DeliverOne(r, g[0]);
    } else {
      PrefixOfGroup(g, n);
      ReceiveGroup(r, b, g[..n]);
      assert g == g[..n] + [g[n]];
      NextOfGroup(g[..n], g[n]);
      DeliverSnoc(r, g[..n], g[n]);
      IdleHolds();
    }
  }

  lemma IdleHolds()
    ensures Holds(IDLE, Clear)
  {
  }

  /** The state while a group with the id of the stuck one comes in: its pages are not linked to the cached one. */
  ghost predicate Blocked(r: Receiver, g: seq<Msg>, reached: bool)
    requires g != []
  {
    !r.live && r.cache == if reached then None else Some(CacheOf(g))
  }

  lemma FirstOfBlocked(r: Receiver, g: seq<Msg>, m: Msg)
    requires Holds(r, Stuck(g)) && m.pageId <= 0 && SameId(g, [m])
    ensures var (next, out) := Receive(r, m);
            Blocked(next, g, Reaches(g, [m])) && out == if Reaches(g, [m]) then Some(g) else None
  {
  }

  lemma NextOfBlocked(r: Receiver, g: seq<Msg>, m: Msg, reached: bool)
    requires g != [] && Blocked(r, g, reached) && m.pageId > 0 && SameId(g, [m])
    ensures var (next, out) := Receive(r, m); var now := m.pageId >= -g[0].pageId - 1;
            Blocked(next, g, reached || now) && out == if !reached && now then Some(g) else None
  {
  }

  /** A group with the id of the stuck one is lost: nothing comes out before a page numbered like the last page of the
      stuck group, and at that page the stuck group comes out, truncated. */
  lemma {:induction false} ReceiveBlocked(r: Receiver, g: seq<Msg>, h: seq<Msg>)
    requires Holds(r, Stuck(g)) && GroupPrefix(h) && SameId(g, h)
    ensures var (next, out) := Deliver(r, h);
            Blocked(next, g, Reaches(g, h)) && out == if Reaches(g, h) then [g] else []
    decreases |h|
  {
    hide Receive, Blocked;
    var n := |h| - 1;
    if n == 0 {
      assert h == [h[0]];
      FirstOfBlocked(r, g, h[0]);
      DeliverOne(r, h[0]);
    } else {
      PrefixOfGroup(h, n);
      ReceiveBlocked(r, g, h[..n]);
      assert h == h[..n] + [h[n]];
      DeliverSnoc(r, h[..n], h[n]);
      NextOfBlocked(Deliver(r, h[..n]).0, g, h[n], Reaches(g, h[..n]));
    }
  }

  lemma ReceiveNext(r: Receiver, b: Held, h: seq<Msg>)
    requires Holds(r, b) && GroupPrefix(h)
    ensures b.Stuck? ==> b.pages != []
    ensures var (next, out) := Deliver(r, h); Holds(next, Behind(b, h)) && out == ComesOut(b, h)
  {
    hide Deliver;
    if b.Stuck? && SameId(b.pages, h) {
      ReceiveBlocked(r, b.pages, h);
    } else {
      ReceiveGroup(r, b, h);
    }
  }

  // ---------------------------------------------------------------- a stream of groups

  ghost function Outcome(b: Held, groups: seq<seq<Msg>>): seq<seq<Msg>>
    requires b.Stuck? ==> b.pages != []
    decreases |groups|
  {
    if groups == [] then []
    else if groups[0] == [] then Outcome(b, groups[1..])
    else ComesOut(b, groups[0]) + Outcome(Behind(b, groups[0]), groups[1..])
  }

  /** What comes out of any stream of whole and started groups, with whatever sequence ids. */
  lemma {:induction false} ReceiveGroups(r: Receiver, b: Held, groups: seq<seq<Msg>>)
    requires Holds(r, b) && AreGroups(groups)
    ensures b.Stuck? ==> b.pages != []
    ensures Deliver(r, Concat(groups)).1 == Outcome(b, groups)
    decreases |groups|
  {
    hide GroupPrefix, CompleteGroup, Deliver, Behind, ComesOut;
    StuckNonEmpty(r, b);
    if groups == [] {
      DeliverNone(r);
    } else {
      var h, rest := groups[0], groups[1..];
      assert AreGroups(rest) by {
        assert forall i :: 0 <= i < |rest| ==> rest[i] == groups[i + 1];
      }
      GroupNonEmpty(h);
      ReceiveNext(r, b, h);
      DeliverAppend(r, h, Concat(rest));
      ReceiveGroups(Deliver(r, h).0, Behind(b, h), rest);
    }
  }

  lemma StuckNonEmpty(r: Receiver, b: Held)
    requires Holds(r, b)
    ensures b.Stuck? ==> b.pages != []
  {
  }

  lemma DeliverNone(r: Receiver)
    ensures Deliver(r, []) == (r, [])
  {
  }

  lemma GroupNonEmpty(g: seq<Msg>)
    requires GroupPrefix(g)
    ensures g != []
  {
  }

  ghost function CompleteOnes(groups: seq<seq<Msg>>): (complete: seq<seq<Msg>>)
    ensures AllComplete(complete)
  {
    if groups == [] then []
    else (if CompleteGroup(groups[0]) then [groups[0]] else []) + CompleteOnes(groups[1..])
  }

  /** The values of the groups that are complete. */
  ghost function Values(groups: seq<seq<Msg>>): seq<Bytes>
  {
    ValuesOf(CompleteOnes(groups))
  }

  /** No group meets a stuck one with its id that it, or the stuck one, comes to harm by. */
  ghost predicate Undisturbed(b: Held, groups: seq<seq<Msg>>)
    requires b.Stuck? ==> b.pages != []
    decreases |groups|
  {
    groups == []
    || (if groups[0] == [] then Undisturbed(b, groups[1..])
        else !(b.Stuck? && SameId(b.pages, groups[0]) && (CompleteGroup(groups[0]) || Reaches(b.pages, groups[0])))
             && Undisturbed(Behind(b, groups[0]), groups[1..]))
  }

  /** Exactly the complete groups come out, each once and in order, if and only if the stream is undisturbed. */
  lemma {:induction false} OutcomeExact(b: Held, groups: seq<seq<Msg>>)
    requires AreGroups(groups) && (b.Stuck? ==> Abandoned(b.pages))
    ensures Outcome(b, groups) == CompleteOnes(groups) <==> Undisturbed(b, groups)
    ensures AllComplete(Outcome(b, groups)) ==> |Outcome(b, groups)| <= |CompleteOnes(groups)|
    decreases |groups|
  {
    hide GroupPrefix, CompleteGroup;
    if groups != [] {
      var h, rest := groups[0], groups[1..];
      assert AreGroups(rest) by {
        assert forall i :: 0 <= i < |rest| ==> rest[i] == groups[i + 1];
      }
      GroupNonEmpty(h);
      assert GroupPrefix(h);
      BehindAbandoned(b, h);
      OutcomeExact(Behind(b, h), rest);
      OutcomeStep(b, h, Outcome(Behind(b, h), rest), CompleteOnes(rest));
    }
  }

  lemma BehindAbandoned(b: Held, h: seq<Msg>)
    requires GroupPrefix(h) && (b.Stuck? ==> Abandoned(b.pages))
    ensures h != [] && (b.Stuck? ==> b.pages != [])
    ensures var c := Behind(b, h); c.Stuck? ==> Abandoned(c.pages) && c.pages != []
  {
  }

  ghost predicate AllComplete(groups: seq<seq<Msg>>)
  {
    forall g :: g in groups ==> CompleteGroup(g)
  }

  lemma OutcomeStep(b: Held, h: seq<Msg>, out: seq<seq<Msg>>, complete: seq<seq<Msg>>)
    requires h != [] && (b.Stuck? ==> Abandoned(b.pages) && b.pages != []) && AllComplete(complete)
    requires AllComplete(out) ==> |out| <= |complete|
    ensures var now := if CompleteGroup(h) then [h] else []; var all := ComesOut(b, h) + out;
            && (all == now + complete
                <==> !(b.Stuck? && SameId(b.pages, h) && (CompleteGroup(h) || Reaches(b.pages, h))) && out == complete)
            && (AllComplete(all) ==> |all| <= |now + complete|)
  {
    hide CompleteGroup, GroupPrefix, SameId, Reaches;
    var now := if CompleteGroup(h) then [h] else [];
    var some := ComesOut(b, h);
    var all := some + out;
    assert [] + out == out && [] + complete == complete;
    assert forall g :: g in out ==> g in all;
    if |some| == 1 && |now| == 1 {
      assert all[0] == some[0] && (now + complete)[0] == now[0] && all[1..] == out && (now + complete)[1..] == complete;
    } else if |some| == 1 && complete != [] {
      assert all[0] == some[0] && complete[0] in complete && some[0] in all;
    } else if |now| == 1 && out != [] {
      assert out[0] in out;
    }
    if |some| == 1 {
      assert some[0] in all;
    }
  }

  /** No abandoned group is directly followed by one with its sequence id. */
  ghost predicate Separated(groups: seq<seq<Msg>>)
  {
    forall i :: 0 <= i < |groups| - 1 && groups[i] != [] && groups[i + 1] != [] && !CompleteGroup(groups[i]) ==>
      groups[i][0].sequenceId != groups[i + 1][0].sequenceId
  }

  lemma {:induction false} SeparatedUndisturbed(b: Held, groups: seq<seq<Msg>>)
    requires AreGroups(groups) && Separated(groups) && (b.Stuck? ==> Abandoned(b.pages) && b.pages != [])
    requires b.Stuck? && groups != [] && groups[0] != [] ==> !SameId(b.pages, groups[0])
    ensures Undisturbed(b, groups)
    decreases |groups|
  {
    hide GroupPrefix, CompleteGroup;
    if groups != [] {
      var h, rest := groups[0], groups[1..];
      assert forall i :: 0 <= i < |rest| ==> rest[i] == groups[i + 1];
      GroupNonEmpty(h);
      BehindAbandoned(b, h);
      if rest != [] {
        GroupNonEmpty(rest[0]);
      }
      SeparatedUndisturbed(Behind(b, h), rest);
    }
  }

  // ---------------------------------------------------------------- an abandoned group and the next one

  /** An abandoned group followed by one with its id: nothing comes out before a page numbered like the last page of the
      abandoned group or higher, and with that page the abandoned group does, truncated. */
  lemma SameIdLost(g: seq<Msg>, h: seq<Msg>, n: nat)
    requires Abandoned(g) && GroupPrefix(h) && g[0].rid == h[0].rid && g[0].sequenceId == h[0].sequenceId && n <= |h|
    ensures Deliver(IDLE, g + h[..n]).1 == if exists i :: 0 <= i < n && h[i].pageId >= -g[0].pageId - 1 then [g] else []
  {
    hide Deliver;
    IdleHolds();
    ReceiveNext(IDLE, Clear, g);
    DeliverAppend(IDLE, g, h[..n]);
    if n == 0 {
      DeliverNone(Deliver(IDLE, g).0);
    } else {
      PrefixOfGroup(h, n);
      ReceiveNext(Deliver(IDLE, g).0, Stuck(g), h[..n]);
      ReachesExact(g, h[..n]);
      assert forall i :: 0 <= i < n ==> h[..n][i] == h[i];
    }
  }

  lemma ReachesExact(g: seq<Msg>, h: seq<Msg>)
    requires Abandoned(g) && GroupPrefix(h)
    ensures Reaches(g, h) <==> exists i :: 0 <= i < |h| && h[i].pageId >= -g[0].pageId - 1
  {
    var last := |h| - 1;
    assert last > 0 ==> h[last] == h[1..][last - 1];
    forall i | 0 < i < |h| ensures h[i].pageId == i && h[0].pageId < 0 {
      assert h[i] == h[1..][i - 1];
    }
  }

  /** A complete group behind an abandoned one on the same rid comes out, and whole, if and only if its sequence id is
      another one. */
  lemma AbandonedThenComplete(g: seq<Msg>, h: seq<Msg>)
    requires Abandoned(g) && CompleteGroup(h) && g[0].rid == h[0].rid
    ensures var out := Deliver(IDLE, g + h).1;
            (out == [h] <==> g[0].sequenceId != h[0].sequenceId) && (h in out <==> g[0].sequenceId != h[0].sequenceId)
  {
    hide Deliver;
    IdleHolds();
    ReceiveNext(IDLE, Clear, g);
    DeliverAppend(IDLE, g, h);
    ReceiveNext(Deliver(IDLE, g).0, Stuck(g), h);
    assert Deliver(IDLE, g + h).1 == ComesOut(Stuck(g), h);
    assert g != h;
  }

  /** A single message with the id of an abandoned group is lost, and the receiver is as stuck as before. */
  lemma SingleLost(g: seq<Msg>, m: Msg)
    requires Abandoned(g) && g[0].pageId < -1 && m.pageId == 0 && SameId(g, [m])
    ensures Deliver(IDLE, g + [m]).1 == [] && Holds(Deliver(IDLE, g + [m]).0, Stuck(g))
  {
    hide Deliver, Holds;
    IdleHolds();
    ReceiveNext(IDLE, Clear, g);
    DeliverAppend(IDLE, g, [m]);
    ReceiveNext(Deliver(IDLE, g).0, Stuck(g), [m]);
  }
}
