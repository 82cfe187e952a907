/** The subscribers of one node, the merged options, and the model behind it.
    src/sdk/responder/node_state.cc and src/sdk/responder/model_base.cc. */
module NodeStates {
  import opened Bytes
  import opened Options

  /** An OutgoingSubscribeStream as the node sees it; `received` are the responses it was sent. */
  class SubscribeStream {
    var options: SubscribeOptions
    var destroyed: bool
    var received: seq<Bytes>

    constructor (options: SubscribeOptions)
      ensures this.options == options && !destroyed && received == []
    {
      this.options, destroyed, received := options, false, [];
    }

    method SendSubscribeResponse(value: Bytes)
      modifies `received
      ensures received == old(received) + [value]
    {
      received := received + [value];
    }
  }

  ghost function OptionsOf(streams: set<SubscribeStream>): set<SubscribeOptions>
    reads streams
  {
    set s | s in streams :: s.options
  }

  lemma OptionsOfMore(streams: set<SubscribeStream>, s: SubscribeStream)
    ensures OptionsOf(streams + {s}) == OptionsOf(streams) + {s.options}
  {
  }

  lemma OneOption(s: SubscribeStream)
    ensures OptionsOf({s}) == {s.options}
  {
  }

  lemma SomeOptions(streams: set<SubscribeStream>)
    ensures (exists o :: o in OptionsOf(streams) && o.queueSize == 0) <==> exists s :: s in streams && s.options.queueSize == 0
  {
    if s :| s in streams && s.options.queueSize == 0 {
      assert s.options in OptionsOf(streams);
    }
  }

  lemma NoOptions(streams: set<SubscribeStream>)
    ensures OptionsOf(streams) == {} <==> streams == {}
  {
    if streams != {} {
      var s :| s in streams;
      assert s.options in OptionsOf(streams);
    }
  }

  /** Every subscriber was last sent this value. */
  ghost predicate AllSent(streams: set<SubscribeStream>, value: Bytes)
    reads streams
  {
    forall s :: s in streams ==> s.received != [] && s.received[|s.received| - 1] == value
  }

  lemma NobodySent(value: Bytes)
    ensures AllSent({}, value)
  {
  }

  class Model {
    /** The node state that owns the model. */
    var state: NodeState?
    var needSubscribe: bool
    var cachedValue: Option<Bytes>
    /** The options last given to on_subscribe. */
    ghost var given: SubscribeOptions

    constructor ()
      ensures state == null && !needSubscribe && cachedValue == None
    {
      state, needSubscribe, cachedValue, given := null, false, None, NONE;
    }

    method Subscribe(options: SubscribeOptions) returns (firstRequest: bool)
      modifies `needSubscribe, `given
      ensures needSubscribe && given == options && firstRequest == !old(needSubscribe)
    {
      firstRequest := !needSubscribe;
      needSubscribe := true;
      given := options;
    }

    method Unsubscribe()
      modifies `needSubscribe
      ensures !needSubscribe
    {
      if needSubscribe {
        needSubscribe := false;
      }
    }

    /** set_value and set_subscribe_response. */
    method SetValue(value: Bytes)
      requires state != null && state.model == this && state.Valid()
      modifies `cachedValue, state.streams`received
      ensures state.Valid() && cachedValue == Some(value)
      ensures forall s :: s in state.streams ==> s.received == old(s.received) + if needSubscribe then [value] else []
      ensures old(state.MergedExact()) ==> state.MergedExact()
    {
      cachedValue := Some(value);
      if needSubscribe {
        state.NewSubscribeResponse(value);
      }
    }
  }

  datatype ModelStatus = Unknown | Connected | Waiting | Unavailable | Invalid

  /** What set_model can be given: null, one of the three markers, or a model. */
  datatype ModelArg = NoModel | WaitingModel | UnavailableModel | InvalidModel | RealModel(model: Model)

  class NodeState {
    var streams: set<SubscribeStream>
    var model: Model?
    var modelStatus: ModelStatus
    var merged: SubscribeOptions
    /** No negative queue size was ever asked for. */
    ghost var sane: bool

    ghost function Models(): set<Model>
      reads this
    {
      if model == null then {} else {model}
    }

    /** The model is subscribed when the merged options are valid, and was last given those. */
    ghost predicate Linked()
      reads this, model
    {
      && (model != null <==> modelStatus == Connected)
      && (model != null ==>
            model.state == this && (!IsInvalid(merged) ==> model.needSubscribe) && (model.needSubscribe ==> model.given == merged))
    }

    /** Without negative sizes: the model is subscribed only then, and the merged options are valid exactly when there are
        subscribers. */
    ghost predicate Exclusive()
      reads this, model, streams
    {
      && SizesOk(OptionsOf(streams)) && (streams == {} <==> IsInvalid(merged))
      && (model != null && model.needSubscribe ==> !IsInvalid(merged))
    }

    ghost predicate Valid()
      reads this, model, streams
    {
      && Linked() && (sane ==> Exclusive())
      && (forall s :: s in streams ==> !s.destroyed)
      && (sane && model != null && model.cachedValue.Some? ==> AllSent(streams, model.cachedValue.value))
    }

    /** The merged options are the component-wise maximum over the subscribers. */
    ghost predicate MergedExact()
      reads this, streams
    {
      IsJoin(merged, OptionsOf(streams))
    }

    constructor ()
      ensures Valid() && MergedExact() && streams == {} && model == null && sane
    {
      streams, model, modelStatus, merged, sane := {}, null, Unknown, NONE, true;
    }

    /** new_subscribe_response. */
    method NewSubscribeResponse(value: Bytes)
      modifies streams`received
      ensures AllSent(streams, value) && OptionsOf(streams) == old(OptionsOf(streams))
      ensures forall s :: s in streams ==> s.received == old(s.received) + [value]
    {
      var todo := streams;
      while todo != {}
        invariant todo <= streams
        invariant forall s :: s in streams ==> s.received == if s in todo then old(s.received) else old(s.received) + [value]
        decreases todo
      {
        var s :| s in todo;
        s.SendSubscribeResponse(value);
        todo := todo - {s};
      }
    }

    /** The loop of check_subscribe_options. */
    method JoinAll() returns (options: SubscribeOptions)
      ensures IsJoin(options, OptionsOf(streams))
    {
      hide IsJoin, Merge;
      options := NONE;
      JoinNone();
      var todo := streams;
      assert streams - todo == {} && OptionsOf({}) == {};
      while todo != {}
        invariant todo <= streams && IsJoin(options, OptionsOf(streams - todo))
        decreases todo
      {
        var s :| s in todo;
        OptionsOfMore(streams - todo, s);
        JoinMore(options, OptionsOf(streams - todo), s.options);
        options := Merge(options, s.options);
        assert streams - (todo - {s}) == streams - todo + {s};
        todo := todo - {s};
      }
      assert streams - todo == streams;
    }

    /** check_subscribe_options: recomputes the join, and tells the model if it differs. */
    method CheckSubscribeOptions()
      requires Linked() && (sane ==> SizesOk(OptionsOf(streams)) && (model != null && model.needSubscribe ==> !IsInvalid(merged)))
      modifies `merged, Models()`needSubscribe, Models()`given
      ensures Linked() && MergedExact() && (sane ==> Exclusive())
    {
      hide IsJoin;
      var options := JoinAll();
      JoinInvalid(options, OptionsOf(streams));
      NoOptions(streams);
      assert sane && streams != {} ==> exists o :: o in OptionsOf(streams) && o.queueSize >= 0;
      if options != merged {
        merged := options;
        if model != null {
          if IsInvalid(options) {
            model.Unsubscribe();
          } else {
            var first := model.Subscribe(options);
          }
        }
      }
    }

    /** subscribe. */
    method Subscribe(p: SubscribeStream)
      requires Valid() && p !in streams && !p.destroyed
      modifies `streams, `merged, `sane, Models()`needSubscribe, Models()`given, p`received
      ensures Valid() && streams == old(streams) + {p} && sane == (old(sane) && p.options.queueSize >= 0)
      ensures merged == Merge(old(merged), p.options)
      ensures p.received == old(p.received) + if model != null && model.cachedValue.Some? then [model.cachedValue.value] else []
      ensures old(MergedExact()) ==> MergedExact()
    {
      hide IsJoin, Merge, AllSent;
      if MergedExact() {
        JoinMore(merged, OptionsOf(streams), p.options);
      }
      AddStream(p);
      MergeFrom(p.options);
    }

    /** The new subscriber joins and gets the value there is. */
    method AddStream(p: SubscribeStream)
      requires Valid() && p !in streams && !p.destroyed
      modifies `streams, `sane, p`received
      ensures Linked() && OptionsOf(streams) == old(OptionsOf(streams)) + {p.options}
      ensures sane == (old(sane) && p.options.queueSize >= 0)
      ensures sane ==> SizesOk(OptionsOf(streams)) && (model != null && model.needSubscribe ==> !IsInvalid(merged))
      ensures streams == old(streams) + {p} && forall s :: s in streams ==> !s.destroyed
      ensures p.received == old(p.received) + if model != null && model.cachedValue.Some? then [model.cachedValue.value] else []
      ensures sane && model != null && model.cachedValue.Some? ==> AllSent(streams, model.cachedValue.value)
    {
      OptionsOfMore(streams, p);
      streams, sane := streams + {p}, sane && p.options.queueSize >= 0;
      if model != null && model.cachedValue.Some? {
        p.SendSubscribeResponse(model.cachedValue.value);
      }
    }

    method MergeFrom(o: SubscribeOptions)
      requires Linked()
      modifies `merged, Models()`needSubscribe, Models()`given
      ensures Linked() && merged == Merge(old(merged), o) && (o.queueSize >= 0 ==> !IsInvalid(merged))
    {
      var options := Merge(merged, o);
      if options != merged {
        merged := options;
        if modelStatus == Connected {
          var first := model.Subscribe(merged);
        }
      }
    }

    /** The option callback after a subscriber's receive_message took new options. The shortcut keeps the merged options
        right exactly when the join was recomputed or the new options do not exceed it. */
    method OptionsChanged(p: SubscribeStream, options: SubscribeOptions)
      requires Valid() && p in streams
      modifies `merged, `sane, Models()`needSubscribe, Models()`given, p`options
      ensures Valid() && streams == old(streams) && p.options == options && sane == (old(sane) && options.queueSize >= 0)
      ensures old(MergedExact()) ==>
                (MergedExact() <==> Below(options, old(merged)) || MovesTheTop(old(merged), old(p.options), options))
      ensures old(MergedExact() && streams == {p} && Sane(p.options)) && Sane(options) ==> MergedExact() && merged == options
      ensures if MovesTheTop(old(merged), old(p.options), options) then MergedExact() else merged == old(merged)
    {
      hide IsJoin, NeedUpdateOnChange, MovesTheTop, AllSent, Below, SizesOk;
      ghost var exact := MergedExact();
      ghost var lone := exact && streams == {p} && Sane(p.options) && Sane(options);
      ChangeNoticed(merged, p.options, options);
      if lone {
        OneOption(p);
        LoneChange(merged, p.options, options);
      }
      var before := p.options;
      ghost var rest := TakeOptions(p, options);
      if NeedUpdateOnChange(merged, before, options) {
        CheckSubscribeOptions();
      } else if exact {
        ChangeShortcut(merged, rest, before, options);
      }
      if lone {
        OneOption(p);
        LoneJoin(merged, options);
      }
    }

    /** set_options on the subscriber. */
    method TakeOptions(p: SubscribeStream, options: SubscribeOptions) returns (ghost rest: set<SubscribeOptions>)
      requires Valid() && p in streams
      modifies p`options, `sane
      ensures Valid() && p.options == options && sane == (old(sane) && options.queueSize >= 0)
      ensures old(OptionsOf(streams)) == rest + {old(p.options)} && OptionsOf(streams) == rest + {options}
    {
      rest := OptionsOf(streams - {p});
      assert streams == streams - {p} + {p};
      OptionsOfMore(streams - {p}, p);
      p.options, sane := options, sane && options.queueSize >= 0;
      assert OptionsOf(streams - {p}) == rest;
      OptionsOfMore(streams - {p}, p);
    }

    /** The option callback of a subscriber that is destroyed. Skipping the recomputation is sound, exactly except when only
        the removed one had the queue size 0 and the others have negative ones. */
    method StreamDestroyed(p: SubscribeStream)
      requires Valid() && p in streams
      modifies `streams, `merged, Models()`needSubscribe, Models()`given, p`destroyed
      ensures Valid() && streams == old(streams) - {p} && p.destroyed
      ensures if streams == {} || HoldsTheTop(old(merged), p.options) then MergedExact() else merged == old(merged)
      ensures old(MergedExact()) && sane ==> MergedExact()
      ensures old(MergedExact()) ==>
                (MergedExact() <==> streams == {} || HoldsTheTop(old(merged), p.options)
                                    || (old(merged).queueSize == 0 && p.options.queueSize == 0 ==>
                                          exists s :: s in streams && s.options.queueSize == 0))
    {
      hide IsJoin, NeedUpdateOnRemoval, HoldsTheTop, AllSent;
      RemovalNoticed(merged, p.options);
      ghost var exact := MergedExact();
      Leave(p);
      if streams == {} || NeedUpdateOnRemoval(merged, p.options) {
        CheckSubscribeOptions();
      } else if exact {
        RemovalExact(merged, OptionsOf(streams), p.options);
        SomeOptions(streams);
        NoOptions(streams);
        if sane {
          RemovalShortcut(merged, OptionsOf(streams), p.options);
        }
      }
    }

    method Leave(p: SubscribeStream)
      requires Valid() && p in streams
      modifies `streams, p`destroyed
      ensures streams == old(streams) - {p} && old(OptionsOf(streams)) == OptionsOf(streams) + {p.options} && p.destroyed
      ensures Linked() && forall s :: s in streams ==> !s.destroyed
      ensures sane ==> SizesOk(OptionsOf(streams) + {p.options}) && SizesOk(OptionsOf(streams)) && !IsInvalid(merged)
      ensures sane && model != null && model.cachedValue.Some? ==> AllSent(streams, model.cachedValue.value)
    {
      assert streams == streams - {p} + {p};
      OptionsOfMore(streams - {p}, p);
      p.destroyed := true;
      streams := streams - {p};
    }

    /** The subscription part of set_model. A model comes unowned and unsubscribed, perhaps with a value. */
    method SetModel(arg: ModelArg)
      requires Valid()
      requires arg.RealModel? ==> arg.model.state == null && !arg.model.needSubscribe
      modifies `model, `modelStatus, if arg.RealModel? then {arg.model} else {}, streams`received
      ensures Valid() && merged == old(merged) && (arg.RealModel? <==> modelStatus == Connected)
      ensures old(MergedExact()) ==> MergedExact()
      ensures arg.RealModel? ==> model == arg.model && model.cachedValue == old(arg.model.cachedValue)
      ensures arg.RealModel? ==> model.needSubscribe == !IsInvalid(merged)
      ensures !arg.RealModel? ==>
                model == null && modelStatus == if arg.WaitingModel? then Waiting else if arg.UnavailableModel? then Unavailable else Invalid
      ensures forall s :: s in streams ==>
                s.received == old(s.received)
                            + if arg.RealModel? && !IsInvalid(merged) then Listed(old(arg.model.cachedValue)) else []
    {
      hide IsJoin, AllSent;
      match arg {
        case NoModel => WithoutModel(Invalid);
        case WaitingModel => WithoutModel(Waiting);
        case UnavailableModel => WithoutModel(Unavailable);
        case InvalidModel => WithoutModel(Invalid);
        case RealModel(m) => ConnectModel(m);
      }
    }

    method WithoutModel(status: ModelStatus)
      requires Valid() && status != Connected
      modifies `model, `modelStatus
      ensures Valid() && modelStatus == status && model == null
    {
      model, modelStatus := null, status;
    }

    method ConnectModel(m: Model)
      requires Valid() && m.state == null && !m.needSubscribe
      modifies `model, `modelStatus, m, streams`received
      ensures Valid() && modelStatus == Connected && model == m && m.cachedValue == old(m.cachedValue)
      ensures OptionsOf(streams) == old(OptionsOf(streams)) && merged == old(merged) && m.needSubscribe == !IsInvalid(merged)
      ensures forall s :: s in streams ==> s.received == old(s.received) + if IsInvalid(merged) then [] else Listed(old(m.cachedValue))
    {
      hide SizesOk, AllSent, OptionsOf;
      AttachModel(m);
      if m.cachedValue.Some? {
        NobodySent(m.cachedValue.value);
      }
      if !IsInvalid(merged) {
        var first := m.Subscribe(merged);
        if m.cachedValue.Some? {
          NewSubscribeResponse(m.cachedValue.value);
        }
      }
    }

    method AttachModel(m: Model)
      requires Valid() && m.state == null && !m.needSubscribe
      modifies `model, `modelStatus, m`state
      ensures model == m && m.state == this && modelStatus == Connected
      ensures sane ==> SizesOk(OptionsOf(streams)) && (streams == {} <==> IsInvalid(merged))
      ensures forall s :: s in streams ==> !s.destroyed
    {
      model := m;
      m.state := this;
      modelStatus := Connected;
    }

    /** The subscription state machine without negative sizes: there are subscribers exactly when a connected model is asked
        to subscribe, exactly when the merged options are valid; the model was last given those, which are the component-wise
        maximum over the subscribers unless a raise went unnoticed; and what it last said is what every subscriber last got. */
    lemma InStep()
      requires Valid() && sane && model != null
      ensures model.needSubscribe <==> streams != {}
      ensures model.needSubscribe <==> !IsInvalid(merged)
      ensures model.needSubscribe ==> model.given == merged && (MergedExact() ==> IsJoin(model.given, OptionsOf(streams)))
      ensures model.cachedValue.Some? ==> AllSent(streams, model.cachedValue.value)
    {
    }
  }

  /** A raise that is not noticed: one subscriber, who asks for more. */
  lemma RaiseUnnoticed()
    ensures var low, high := SubscribeOptions(false, 1, 0, 0), SubscribeOptions(false, 2, 0, 0);
            var other := SubscribeOptions(false, 0, 0, 0);
            !NeedUpdateOnChange(low, other, high) && IsJoin(low, {low, other}) && !IsJoin(low, {low, high})
  {
  }
}
