/** The requester's end of a list, and the agreement of both ends over whole runs.
    src/sdk/dslink/list_merger.cc, src/sdk/stream/responder/outgoing_list_stream.cc. */
module ListSync {
  import opened Bytes
  import opened ListBody
  import opened ListStream

  type KeyMap = map<Bytes, Bytes>

  /** What a list response does to the map of the client: a refresh clears it first, a blank value removes its key. */
  function Applied(before: KeyMap, refreshed: bool, changes: KeyMap): KeyMap
  {
    var base := if refreshed then map[] else before;
    map k | k in base.Keys + changes.Keys && (k in changes ==> changes[k] != []) :: if k in changes then changes[k] else base[k]
  }

  /** Two responses one after the other act like one with the changes of both, if the second does not refresh. */
  lemma AppliedTwice(m: KeyMap, refreshed: bool, a: KeyMap, b: KeyMap)
    ensures Applied(Applied(m, refreshed, a), false, b) == Applied(m, refreshed, a + b)
  {
  }

  lemma AppliedNone(m: KeyMap)
    ensures Applied(m, false, map[]) == m
  {
  }

  /** One more change. */
  lemma AppliedMore(m: KeyMap, changes: KeyMap, key: Bytes, value: Bytes)
    ensures Applied(m, false, changes[key := value])
            == if value == [] then Applied(m, false, changes) - {key} else Applied(m, false, changes)[key := value]
  {
  }

  lemma ToMapSnoc(entries: seq<Entry>, i: nat)
    requires i < |entries|
    ensures ToMap(entries[..i + 1]) == ToMap(entries[..i])[entries[i].key := entries[i].value]
  {
    var e := entries[i];
    assert entries[..i + 1] == entries[..i] + [e];
    ToMapAppend(entries[..i], [e]);
    assert ToMap([e]) == map[e.key := e.value] + ToMap([]) == map[e.key := e.value];
  }

  lemma EmptyMap(entries: seq<Entry>)
    ensures ToMap(entries[..0]) == map[]
  {
  }

  /** No key comes twice. */
  predicate Distinct(keys: seq<Bytes>)
  {
    forall i, j :: 0 <= i < j < |keys| ==> keys[i] != keys[j]
  }

  class ListMerger {
    var entries: KeyMap
    /** Changed keys that the listeners have not been told of. */
    var changes: seq<Bytes>
    var lastStatus: Byte
    var lastPubPath: Bytes
    /** The keys received, and whether a refresh was, since the listeners were last called. */
    ghost var unseen: set<Bytes>
    ghost var refreshUnseen: bool

    ghost predicate Valid()
      reads this
    {
      && (forall k :: k in changes ==> k in unseen)
      && (!refreshUnseen ==> forall k :: k in unseen ==> k in changes)
      && Distinct(changes)
    }

    constructor ()
      ensures Valid() && entries == map[] && changes == [] && lastStatus == STATUS_INITIALIZING && unseen == {} && !refreshUnseen
    {
      entries, changes, lastStatus, lastPubPath, unseen, refreshUnseen := map[], [], STATUS_INITIALIZING, [], {}, false;
    }

    /** new_list_response. `received` is the map of the message in the iteration order of its hash table. While the status
        is INITIALIZING the listeners are not called; otherwise they are called with the changed keys, an empty list standing
        for everything. That tells them all they have not seen, except when a refresh that they were not called for is
        followed by a response with changes: then they are told of the later changes only. */
    method NewListResponse(refreshed: bool, status: Byte, pubPath: Bytes, received: seq<Entry>) returns (called: bool, notify: seq<Bytes>)
      requires Valid()
      modifies this
      ensures Valid()
      ensures entries == Applied(old(entries), refreshed, ToMap(received))
      ensures lastStatus == status && lastPubPath == pubPath && called == (status != STATUS_INITIALIZING)
      ensures var u, r := old(unseen) + ToMap(received).Keys, old(refreshUnseen) || refreshed;
              if called then unseen == {} && !refreshUnseen && changes == [] else unseen == u && refreshUnseen == r
      ensures called ==>
                (Covers(notify, old(unseen) + ToMap(received).Keys, old(refreshUnseen) || refreshed)
                 <==> refreshed || !old(refreshUnseen) || (received == [] && old(changes) == []))
      ensures forall k :: k in (if called then notify else changes) <==> !refreshed && (k in old(changes) || k in ToMap(received))
      ensures Distinct(notify) && (!refreshed ==> old(changes) <= if called then notify else changes)
    {
      lastStatus, lastPubPath := status, pubPath;
      if refreshed {
        entries, changes := map[], [];
      }
      ghost var known := changes;
      TakeIn(refreshed, received);
      unseen, refreshUnseen := unseen + ToMap(received).Keys, refreshUnseen || refreshed;
      called := lastStatus != STATUS_INITIALIZING;
      notify := changes;
      if called {
        changes, unseen, refreshUnseen := [], {}, false;
      }
    }

    /** The loop of new_list_response. */
    method TakeIn(refreshed: bool, received: seq<Entry>)
      requires (refreshed ==> changes == []) && Distinct(changes)
      modifies `entries, `changes
      ensures entries == Applied(old(entries), false, ToMap(received))
      ensures forall k :: k in changes <==> k in old(changes) || (!refreshed && k in ToMap(received))
      ensures changes == [] <==> old(changes) == [] && (refreshed || received == [])
      ensures Distinct(changes) && old(changes) <= changes
    {
      hide Applied, ToMap;
      var i := 0;
      AppliedNone(entries);
      EmptyMap(received);
      while i < |received|
        invariant 0 <= i <= |received|
        invariant entries == Applied(old(entries), false, ToMap(received[..i]))
        invariant forall k :: k in changes <==> k in old(changes) || (!refreshed && k in ToMap(received[..i]))
        invariant changes == [] <==> old(changes) == [] && (refreshed || i == 0)
        invariant Distinct(changes) && old(changes) <= changes
      {
        var e := received[i];
        ToMapSnoc(received, i);
        AppliedMore(old(entries), ToMap(received[..i]), e.key, e.value);
        if e.value == [] {
          entries := entries - {e.key};
        } else {
          entries := entries[e.key := e.value];
        }
        if !refreshed && e.key !in changes {
          changes := changes + [e.key];
        }
        i := i + 1;
      }
      assert received[..i] == received;
    }
  }

  /** The listeners are told of all they have not seen. */
  ghost predicate Covers(notify: seq<Bytes>, unseen: set<Bytes>, refreshUnseen: bool)
  {
    notify == [] || (!refreshUnseen && forall k :: k in unseen ==> k in notify)
  }

  // ---------------------------------------------------------------- both ends over whole runs

  /** `source` is the list as the responder has reported it to its stream; `pending` is what the stream still has to send,
      `inFlight` what it sent, oldest first, `client` the map of the requester. */
  datatype Sync = Sync(source: KeyMap, pending: Pending, inFlight: seq<Packet>, client: KeyMap)

  /** Reconnect: the connection is lost, the responder answers the repeated request with a new stream and reports anew. */
  datatype Event =
    | Change(key: Bytes, value: Bytes, order: seq<Bytes>)
    | Refresh
    | Send(n: nat)
    | Deliver
    | Reconnect

  const START: Sync := Sync(map[], Pending([], true), [], map[])

  /** What get_map of the parsed message holds. */
  function Changes(p: Packet): KeyMap
  {
    match ParseMap(p.body)
    case Ok(m) => m
    case Err(_) => map[]
  }

  predicate Storable(e: Entry) { e.key != [] && Fits(e) }

  ghost predicate Enabled(s: Sync, ev: Event)
  {
    match ev
    case Change(key, value, order) =>
      Storable(Entry(key, value)) && IsOrder(order, ToMap(s.pending.entries).Keys + {key})
    case Refresh => true
    case Send(n) => n <= |s.pending.entries|
    case Deliver => s.inFlight != []
    case Reconnect => true
  }

  function Step(s: Sync, ev: Event): Sync
    requires Enabled(s, ev)
  {
    match ev
    case Change(key, value, order) =>
      var changed := InOrder(ToMap(s.pending.entries)[key := value], order);
      s.(source := if value == [] then s.source - {key} else s.source[key := value], pending := Pending(changed, s.pending.refreshed))
    case Refresh => s.(source := map[], pending := Pending([], true))
    case Send(n) =>
      var (packet, rest) := Sent(s.pending, n);
      s.(inFlight := s.inFlight + [packet], pending := rest)
    case Deliver => s.(client := Applied(s.client, s.inFlight[0].refreshed, Changes(s.inFlight[0])), inFlight := s.inFlight[1..])
    case Reconnect => s.(source := map[], pending := Pending([], true), inFlight := [])
  }

  /** The client's map once everything in flight has arrived. */
  function Arrived(client: KeyMap, inFlight: seq<Packet>): KeyMap
    decreases |inFlight|
  {
    if inFlight == [] then client else Arrived(Applied(client, inFlight[0].refreshed, Changes(inFlight[0])), inFlight[1..])
  }

  /** The client's map once everything in flight and everything pending has arrived. */
  function Overlaid(s: Sync): KeyMap
  {
    Applied(Arrived(s.client, s.inFlight), s.pending.refreshed, ToMap(s.pending.entries))
  }

  ghost predicate Coherent(s: Sync)
  {
    && Overlaid(s) == s.source
    && DistinctKeys(s.pending.entries) && (forall e :: e in s.pending.entries ==> Storable(e))
  }

  lemma {:induction false} ArrivedSnoc(client: KeyMap, inFlight: seq<Packet>, p: Packet)
    ensures Arrived(client, inFlight + [p]) == Applied(Arrived(client, inFlight), p.refreshed, Changes(p))
    decreases |inFlight|
  {
    if inFlight == [] {
      assert [] + [p] == [p] && [p][1..] == [];
    } else {
      ArrivedSnoc(Applied(client, inFlight[0].refreshed, Changes(inFlight[0])), inFlight[1..], p);
      assert (inFlight + [p])[1..] == inFlight[1..] + [p];
    }
  }

  /** In a list of distinct keys every entry is the one its key leads to. */
  lemma {:induction false} DistinctLookup(entries: seq<Entry>, e: Entry)
    requires DistinctKeys(entries) && e in entries
    ensures e.key in ToMap(entries) && ToMap(entries)[e.key] == e.value
  {
    var i :| 0 <= i < |entries| && entries[i] == e;
    if i == 0 {
      ToMapKeys(entries[1..], e.key);
    } else {
      assert entries[1..][i - 1] == e;
      DistinctLookup(entries[1..], e);
    }
  }

  lemma {:induction false} MapEntry(entries: seq<Entry>, key: Bytes)
    requires key in ToMap(entries)
    ensures Entry(key, ToMap(entries)[key]) in entries
  {
    if key in ToMap(entries[1..]) {
      MapEntry(entries[1..], key);
    }
  }

  lemma ChangeKeeps(s: Sync, key: Bytes, value: Bytes, order: seq<Bytes>)
    requires Coherent(s) && Enabled(s, Change(key, value, order))
    ensures Coherent(Step(s, Change(key, value, order)))
  {
    hide Applied, Arrived, ToMap, InOrder, Storable, DistinctKeys;
    var table := ToMap(s.pending.entries)[key := value];
    AppliedTwice(Arrived(s.client, s.inFlight), s.pending.refreshed, ToMap(s.pending.entries), map[key := value]);
    AppliedNone(s.source);
    AppliedMore(s.source, map[], key, value);
    assert map[][key := value] == map[key := value];
    assert table.Keys == ToMap(s.pending.entries).Keys + {key};
    InOrderIsTable(table, order);
    assert ToMap(s.pending.entries) + map[key := value] == table;
    ChangeStorable(s.pending.entries, key, value, InOrder(table, order));
  }

  lemma ChangeStorable(before: seq<Entry>, key: Bytes, value: Bytes, after: seq<Entry>)
    requires Storable(Entry(key, value)) && (forall e :: e in before ==> Storable(e))
    requires DistinctKeys(after) && ToMap(after) == ToMap(before)[key := value]
    ensures forall e :: e in after ==> Storable(e)
  {
    hide ToMap, Storable;
    forall e | e in after ensures Storable(e) {
      DistinctLookup(after, e);
      if e.key != key {
        MapEntry(before, e.key);
        assert Entry(e.key, e.value) == e;
      }
    }
  }

  lemma SendKeeps(s: Sync, n: nat)
    requires Coherent(s) && Enabled(s, Send(n))
    ensures Coherent(Step(s, Send(n)))
  {
    hide Applied, Arrived, ToMap, BodyBytes, ParseMap;
    var sent, rest := s.pending.entries[..n], s.pending.entries[n..];
    assert s.pending.entries == sent + rest;
    ToMapAppend(sent, rest);
    forall e | e in sent ensures Storable(e) {
      assert e in s.pending.entries;
    }
    BodyRoundTrip(sent);
    var p := Packet(s.pending.refreshed, BodyBytes(sent));
    assert sent != [] ==> Storable(sent[|sent| - 1]);
    assert Changes(p) == ToMap(sent);
    ArrivedSnoc(s.client, s.inFlight, p);
    AppliedTwice(Arrived(s.client, s.inFlight), s.pending.refreshed, ToMap(sent), ToMap(rest));
  }

  lemma StepKeeps(s: Sync, ev: Event)
    requires Coherent(s) && Enabled(s, ev)
    ensures Coherent(Step(s, ev))
  {
    match ev
    case Change(key, value, order) => ChangeKeeps(s, key, value, order);
    case Send(n) => SendKeeps(s, n);
    case Deliver =>
    case Refresh =>
    case Reconnect =>
  }

  ghost predicate Possible(s: Sync, events: seq<Event>)
    decreases |events|
  {
    events == [] || (Enabled(s, events[0]) && Possible(Step(s, events[0]), events[1..]))
  }

  function Exec(s: Sync, events: seq<Event>): Sync
    requires Possible(s, events)
    decreases |events|
  {
    if events == [] then s else Exec(Step(s, events[0]), events[1..])
  }

  lemma {:induction false} ExecKeeps(s: Sync, events: seq<Event>)
    requires Coherent(s) && Possible(s, events)
    ensures Coherent(Exec(s, events))
    decreases |events|
  {
    if events != [] {
      StepKeeps(s, events[0]);
      ExecKeeps(Step(s, events[0]), events[1..]);
    }
  }

  /** List coherence over every run: overlay the client's map with what is in flight and then with what is pending, and you
      have the source. So a client with nothing under way agrees with the source, also after reconnecting with stale keys. */
  lemma ListCoherence(events: seq<Event>)
    requires Possible(START, events)
    ensures var s := Exec(START, events);
            Overlaid(s) == s.source
            && (s.inFlight == [] && s.pending == Pending([], false) ==> s.client == s.source)
  {
    ExecKeeps(START, events);
    var s := Exec(START, events);
    AppliedNone(s.client);
  }

  /** The refresh of a new stream is what removes stale keys: had the stream started without it, a key of the old list would
      stay for good. */
  lemma StaleKeyWithoutRefresh(key: Bytes, value: Bytes)
    requires key != [] && value != []
    ensures Overlaid(Sync(map[], Pending([], false), [], map[key := value])) != map[]
    ensures Overlaid(Sync(map[], Pending([], true), [], map[key := value])) == map[]
  {
    assert key in Overlaid(Sync(map[], Pending([], false), [], map[key := value]));
  }
}
