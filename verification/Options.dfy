/** Subscription options and their join. src/sdk/message/message_options.cc. */
module Options {
  import opened Bytes

  datatype SubscribeOptions = SubscribeOptions(priority: bool, qos: nat, queueSize: Int32, queueDuration: Int32)

  /** SubscribeOptions(QosLevel::_0, -1): no subscription at all. */
  const NONE: SubscribeOptions := SubscribeOptions(false, 0, -1, 0)

  predicate IsInvalid(o: SubscribeOptions) { o.queueSize == -1 }

  /** mergeFrom: the merged options; it reports a change exactly when they differ. */
  function Merge(a: SubscribeOptions, b: SubscribeOptions): SubscribeOptions
  {
    SubscribeOptions(a.priority || b.priority,
                     if b.qos > a.qos then b.qos else a.qos,
                     if b.queueSize > a.queueSize then b.queueSize else a.queueSize,
                     if b.queueDuration > a.queueDuration then b.queueDuration else a.queueDuration)
  }

  predicate NeedUpdateOnRemoval(merged: SubscribeOptions, removed: SubscribeOptions)
  {
    || (removed.priority && merged.priority)
    || (removed.qos == merged.qos && merged.qos != 0)
    || (removed.queueSize == merged.queueSize && merged.queueSize != 0)
    || (removed.queueDuration == merged.queueDuration && merged.queueDuration != 0)
  }

  predicate NeedUpdateOnChange(merged: SubscribeOptions, before: SubscribeOptions, after: SubscribeOptions)
  {
    || (before.priority == merged.priority && after.priority != merged.priority)
    || (before.qos == merged.qos && after.qos != merged.qos)
    || (before.queueSize == merged.queueSize && after.queueSize != merged.queueSize)
    || (before.queueDuration == merged.queueDuration && after.queueDuration != merged.queueDuration)
  }

  /** In every component at most. */
  predicate Below(a: SubscribeOptions, b: SubscribeOptions)
  {
    (a.priority ==> b.priority) && a.qos <= b.qos && a.queueSize <= b.queueSize && a.queueDuration <= b.queueDuration
  }

  /** `j` is the component-wise maximum of `all` and NONE. */
  ghost predicate IsJoin(j: SubscribeOptions, all: set<SubscribeOptions>)
  {
    && Below(NONE, j) && (forall o :: o in all ==> Below(o, j))
    && (j.priority ==> exists o :: o in all && o.priority)
    && (j.qos != 0 ==> exists o :: o in all && o.qos == j.qos)
    && (j.queueSize != -1 ==> exists o :: o in all && o.queueSize == j.queueSize)
    && (j.queueDuration != 0 ==> exists o :: o in all && o.queueDuration == j.queueDuration)
  }

  lemma JoinUnique(i: SubscribeOptions, j: SubscribeOptions, all: set<SubscribeOptions>)
    requires IsJoin(i, all) && IsJoin(j, all)
    ensures i == j
  {
  }

  lemma JoinNone()
    ensures IsJoin(NONE, {})
  {
  }

  lemma JoinMore(j: SubscribeOptions, all: set<SubscribeOptions>, o: SubscribeOptions)
    requires IsJoin(j, all)
    ensures IsJoin(Merge(j, o), all + {o})
  {
  }

  /** Merging reports a change exactly when the new options are not below the merged ones. */
  lemma MergeChanges(a: SubscribeOptions, b: SubscribeOptions)
    ensures Merge(a, b) != a <==> !Below(b, a)
    ensures Below(a, Merge(a, b)) && Below(b, Merge(a, b))
  {
  }

  /** No negative size and no negative duration. */
  predicate Sane(o: SubscribeOptions) { o.queueSize >= 0 && o.queueDuration >= 0 }

  /** No queue size is negative. */
  predicate SizesOk(all: set<SubscribeOptions>)
  {
    forall o :: o in all ==> o.queueSize >= 0
  }

  /** Removal without recomputation: the merged options are the join of what is left exactly when it is not the case that the
      removed options alone had the queue size 0 that is the largest. */
  lemma RemovalExact(j: SubscribeOptions, rest: set<SubscribeOptions>, removed: SubscribeOptions)
    requires IsJoin(j, rest + {removed}) && !NeedUpdateOnRemoval(j, removed)
    ensures IsJoin(j, rest) <==> (j.queueSize == 0 && removed.queueSize == 0 ==> exists o :: o in rest && o.queueSize == 0)
  {
  }

  /** Which cannot be when no size is negative and something is left. */
  lemma RemovalShortcut(j: SubscribeOptions, rest: set<SubscribeOptions>, removed: SubscribeOptions)
    requires IsJoin(j, rest + {removed}) && SizesOk(rest + {removed})
    requires rest != {} && !NeedUpdateOnRemoval(j, removed)
    ensures IsJoin(j, rest)
  {
  }

  /** In some component `before` is as large as anyone's and `after` is not what it was. */
  predicate MovesTheTop(merged: SubscribeOptions, before: SubscribeOptions, after: SubscribeOptions)
  {
    || (after.priority != before.priority && before.priority == merged.priority)
    || (after.qos != before.qos && before.qos == merged.qos)
    || (after.queueSize != before.queueSize && before.queueSize == merged.queueSize)
    || (after.queueDuration != before.queueDuration && before.queueDuration == merged.queueDuration)
  }

  /** Only a subscriber that holds a largest component is looked at, and then every change of that component is noticed. */
  lemma ChangeNoticed(merged: SubscribeOptions, before: SubscribeOptions, after: SubscribeOptions)
    ensures NeedUpdateOnChange(merged, before, after) <==> MovesTheTop(merged, before, after)
  {
  }

  /** The options of a lone subscriber are the merged ones, so no change of them is missed. */
  lemma LoneChange(merged: SubscribeOptions, before: SubscribeOptions, after: SubscribeOptions)
    requires IsJoin(merged, {before}) && Sane(before)
    ensures merged == before && Below(before, merged) && (after != before ==> MovesTheTop(merged, before, after))
  {
    LoneJoin(merged, before);
  }

  lemma LoneJoin(merged: SubscribeOptions, only: SubscribeOptions)
    requires IsJoin(merged, {only}) && Sane(only)
    ensures merged == only
  {
    assert only in {only};
  }

  /** In some component `removed` is the largest there is, and that is not the value of no subscription. */
  predicate HoldsTheTop(merged: SubscribeOptions, removed: SubscribeOptions)
  {
    || (merged.priority && removed.priority)
    || (merged.qos != 0 && merged.qos == removed.qos)
    || (merged.queueSize != 0 && merged.queueSize == removed.queueSize)
    || (merged.queueDuration != 0 && merged.queueDuration == removed.queueDuration)
  }

  lemma RemovalNoticed(merged: SubscribeOptions, removed: SubscribeOptions)
    ensures NeedUpdateOnRemoval(merged, removed) <==> HoldsTheTop(merged, removed)
  {
  }

  /** Change of one subscriber's options without recomputation: the merged options stay right exactly when the new options
      do not exceed them. A raise above them goes unnoticed. */
  lemma ChangeShortcut(j: SubscribeOptions, rest: set<SubscribeOptions>, before: SubscribeOptions, after: SubscribeOptions)
    requires IsJoin(j, rest + {before}) && !NeedUpdateOnChange(j, before, after)
    ensures IsJoin(j, rest + {after}) <==> Below(after, j)
  {
  }

  /** The marker for "no subscription" is also what negative sizes merge to. */
  lemma JoinInvalid(j: SubscribeOptions, all: set<SubscribeOptions>)
    requires IsJoin(j, all)
    ensures IsInvalid(j) <==> forall o :: o in all ==> o.queueSize < 0
  {
  }
}
