/** One request for all subscriptions of a path on the requester's side. src/sdk/dslink/subscribe_merger.cc. */
module SubscribeMergers {
  import opened Bytes
  import opened Options

  class SubscribeCache {
    const options: SubscribeOptions
    var destroyed: bool
    var received: seq<Bytes>

    constructor (options: SubscribeOptions)
      ensures this.options == options && !destroyed && received == []
    {
      this.options, destroyed, received := options, false, [];
    }
  }

  ghost function OptionsOf(caches: set<SubscribeCache>): set<SubscribeOptions>
  {
    set c | c in caches :: c.options
  }

  lemma OptionsOfMore(caches: set<SubscribeCache>, c: SubscribeCache)
    ensures OptionsOf(caches + {c}) == OptionsOf(caches) + {c.options}
  {
  }

  lemma OneOption(c: SubscribeCache)
    requires c.options.queueSize >= 0 && c.options.queueDuration >= 0
    ensures IsJoin(c.options, OptionsOf({c}))
  {
  }

  /** Every subscriber was last sent this value. */
  ghost predicate AllSent(caches: set<SubscribeCache>, value: Bytes)
    reads caches`received
  {
    forall c :: c in caches ==> c.received != [] && c.received[|c.received| - 1] == value
  }

  class SubscribeMerger {
    var caches: set<SubscribeCache>
    var destroyed: bool
    /** _stream is set. */
    var subscribed: bool
    var cachedValue: Option<Bytes>
    var merged: SubscribeOptions
    /** What the stream was last asked for. */
    var requested: SubscribeOptions

    /** No negative queue size or duration was ever asked for. */
    ghost var sane: bool

    /** While there are subscribers there is a stream, all of them were last sent the cached value, and without negative
        options the merged ones are their component-wise maximum. */
    ghost predicate Valid()
      reads this, caches`received
    {
      Agrees() && (cachedValue.Some? ==> AllSent(caches, cachedValue.value))
    }

    ghost predicate Agrees()
      reads this
    {
      && (subscribed <==> caches != {}) && (subscribed ==> !destroyed)
      && (sane ==> AllSane() && (caches != {} ==> IsJoin(merged, OptionsOf(caches))))
    }

    ghost predicate AllSane()
      reads this
    {
      SizesOk(OptionsOf(caches)) && forall c :: c in caches ==> c.options.queueDuration >= 0
    }

    constructor ()
      ensures Valid() && caches == {} && !subscribed && !destroyed && cachedValue == None && sane
    {
      caches, destroyed, subscribed, cachedValue, merged, requested, sane := {}, false, false, None, NONE, NONE, true;
    }

    /** subscribe. The merged options are right afterwards; but a request that changes them asks the stream for the options
        of the new subscriber instead of the merged ones, which is the same exactly when it exceeds all the others. The new
        subscriber gets the cached value at once. */
    method Subscribe(c: SubscribeCache)
      requires Valid() && !destroyed && c !in caches
      modifies `caches, `subscribed, `merged, `requested, `sane, c`received
      ensures c.received == old(c.received) + if cachedValue.Some? then [cachedValue.value] else []
      ensures Valid() && caches == old(caches) + {c} && sane == (old(sane) && c.options.queueSize >= 0 && c.options.queueDuration >= 0)
      ensures merged == if old(subscribed) then Merge(old(merged), c.options) else c.options
      ensures !old(subscribed) ==> requested == merged
      ensures old(subscribed) && !Below(c.options, old(merged)) ==> (requested == merged <==> Below(old(merged), c.options))
      ensures old(subscribed) && Below(c.options, old(merged)) ==> requested == old(requested) && merged == old(merged)
    {
      hide Agrees, Merge, Below;
      Join(c);
      if cachedValue.Some? {
        c.received := c.received + [cachedValue.value];
      }
    }

    /** The new subscriber joins, and its options are asked for. */
    method Join(c: SubscribeCache)
      requires Agrees() && !destroyed && c !in caches
      modifies `caches, `subscribed, `merged, `requested, `sane
      ensures Agrees() && caches == old(caches) + {c} && sane == (old(sane) && c.options.queueSize >= 0 && c.options.queueDuration >= 0)
      ensures merged == if old(subscribed) then Merge(old(merged), c.options) else c.options
      ensures !old(subscribed) ==> requested == merged
      ensures old(subscribed) && !Below(c.options, old(merged)) ==> (requested == merged <==> Below(old(merged), c.options))
      ensures old(subscribed) && Below(c.options, old(merged)) ==> requested == old(requested) && merged == old(merged)
    {
      hide IsJoin;
      OptionsOfMore(caches, c);
      caches, sane := caches + {c}, sane && c.options.queueSize >= 0 && c.options.queueDuration >= 0;
      if !subscribed {
        merged := c.options;
        requested := merged;
        subscribed := true;
        assert caches == {c};
        if sane {
          OneOption(c);
        }
      } else {
        MergeChanges(merged, c.options);
        if sane {
          JoinMore(merged, OptionsOf(old(caches)), c.options);
        }
        var options := Merge(merged, c.options);
        if options != merged {
          merged := options;
          requested := c.options;
        }
      }
    }

    /** The loop of check_subscribe_options. */
    method JoinAll() returns (options: SubscribeOptions)
      ensures IsJoin(options, OptionsOf(caches))
    {
      hide IsJoin, Merge;
      options := NONE;
      JoinNone();
      var todo := caches;
      assert caches - todo == {} && OptionsOf({}) == {};
      while todo != {}
        invariant todo <= caches && IsJoin(options, OptionsOf(caches - todo))
        decreases todo
      {
        var c :| c in todo;
        OptionsOfMore(caches - todo, c);
        JoinMore(options, OptionsOf(caches - todo), c.options);
        options := Merge(options, c.options);
        assert caches - (todo - {c}) == caches - todo + {c};
        todo := todo - {c};
      }
      assert caches - todo == caches;
    }

    method CheckSubscribeOptions()
      requires caches != {} && subscribed && !destroyed && (sane ==> AllSane())
      requires cachedValue.Some? ==> AllSent(caches, cachedValue.value)
      modifies `merged, `requested
      ensures Valid() && IsJoin(merged, OptionsOf(caches))
      ensures if merged != old(merged) then requested == merged else requested == old(requested)
    {
      hide IsJoin;
      var options := JoinAll();
      if options != merged {
        merged := options;
        requested := merged;
      }
    }

    /** remove, outside an iteration. Skipping the recomputation is sound. */
    method Remove(c: SubscribeCache)
      requires Valid() && c in caches
      modifies `caches, `merged, `requested, `subscribed, `destroyed, `cachedValue
      ensures Valid() && caches == old(caches) - {c} && (caches == {} ==> destroyed && !subscribed && cachedValue == None)
      ensures caches != {} ==> cachedValue == old(cachedValue)
      ensures caches != {} ==> if HoldsTheTop(old(merged), c.options) then IsJoin(merged, OptionsOf(caches)) else merged == old(merged)
      ensures requested == if merged == old(merged) then old(requested) else merged
      ensures old(requested) == old(merged) && caches != {} ==> requested == merged
    {
      hide IsJoin, NeedUpdateOnRemoval, HoldsTheTop, SizesOk;
      RemovalNoticed(merged, c.options);
      Without(caches, c);
      caches := caches - {c};
      if caches == {} {
        destroyed, subscribed, cachedValue := true, false, None;
      } else if NeedUpdateOnRemoval(merged, c.options) {
        CheckSubscribeOptions();
      } else if sane {
        var d :| d in caches;
        assert d.options in OptionsOf(caches);
        RemovalShortcut(merged, OptionsOf(caches), c.options);
      }
    }

    lemma Without(all: set<SubscribeCache>, c: SubscribeCache)
      requires c in all
      ensures OptionsOf(all) == OptionsOf(all - {c}) + {c.options}
      ensures SizesOk(OptionsOf(all)) ==> SizesOk(OptionsOf(all - {c})) && SizesOk(OptionsOf(all - {c}) + {c.options})
    {
    }

    /** new_subscribe_response: the value is cached and goes to every subscriber. `closing` are the subscribers that their own
        callback destroys; removing them waits for the end of the iteration. */
    method NewSubscribeResponse(value: Bytes, closing: set<SubscribeCache>)
      requires Valid() && closing <= caches
      modifies `caches, `merged, `requested, `subscribed, `destroyed, `cachedValue, caches`received, caches`destroyed
      ensures Valid() && caches == old(caches) - closing
      ensures cachedValue == if old(caches) != {} && caches == {} then None else Some(value)
      ensures forall c :: c in old(caches) ==> c.received == old(c.received) + [value]
      ensures destroyed == (old(destroyed) || (old(caches) != {} && caches == {}))
      ensures forall c :: c in old(caches) ==> c.destroyed == (old(c.destroyed) || c in closing)
      ensures closing == {} ==> merged == old(merged)
      ensures closing != {} && caches != {} ==> IsJoin(merged, OptionsOf(caches))
      ensures requested == if merged == old(merged) then old(requested) else merged
      ensures old(requested) == old(merged) && caches != {} ==> requested == merged
    {
      hide IsJoin;
      cachedValue := Some(value);
      var removedSome := Deliver(value, closing);
      if removedSome {
        if caches == {} {
          destroyed, subscribed, cachedValue := true, false, None;
        } else {
          Remaining(old(caches), caches);
          CheckSubscribeOptions();
        }
      } else {
        assert caches == old(caches);
      }
    }

    lemma Remaining(all: set<SubscribeCache>, some: set<SubscribeCache>)
      requires some <= all
      ensures SizesOk(OptionsOf(all)) ==> SizesOk(OptionsOf(some))
    {
    }

    /** The loop over the subscribers. */
    method Deliver(value: Bytes, closing: set<SubscribeCache>) returns (removedSome: bool)
      requires closing <= caches
      modifies `caches, caches`received, caches`destroyed
      ensures caches == old(caches) - closing && (removedSome <==> closing != {})
      ensures forall c :: c in old(caches) ==> c.received == old(c.received) + [value]
      ensures forall c :: c in old(caches) ==> c.destroyed == (old(c.destroyed) || c in closing)
    {
      removedSome := false;
      var todo := caches;
      while todo != {}
        invariant todo <= old(caches) && caches == old(caches) - (closing - todo)
        invariant removedSome <==> closing - todo != {}
        invariant forall c :: c in old(caches) ==> c.received == if c in todo then old(c.received) else old(c.received) + [value]
        invariant forall c :: c in old(caches) ==> c.destroyed == (old(c.destroyed) || c in closing - todo)
        decreases todo
      {
        var c :| c in todo;
        todo := todo - {c};
        c.received := c.received + [value];
        if c in closing {
          c.destroyed := true;
          caches := caches - {c};
          removedSome := true;
          assert c in closing - todo;
        } else {
          assert closing - todo == closing - (todo + {c});
        }
      }
      assert closing - todo == closing;
    }
  }
}
