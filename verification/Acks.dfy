/** The window of messages that wait for an acknowledgement: _waiting_ack, _pending_acks and check_pending_acks.
    src/sdk/core/session.cc. */
module Acks {
  import opened Bytes
  import Codec

  const ACK_WINDOW: nat := 0x1000_0000
  const COUNTER_RANGE: nat := 0x1_0000_0000

  /** `callback` stands for the stored AckCallback. */
  datatype AckHolder = AckHolder(ack: Int32, callback: nat)

  /** The unsigned 32-bit difference check_pending_acks looks at. */
  function Distance(ack: Int32, first: Int32): nat
  {
    (ack as int - first as int) % COUNTER_RANGE
  }

  /** How many holders at the front an acknowledgement releases. */
  function Released(pending: seq<AckHolder>, ack: Int32): (n: nat)
    ensures n <= |pending|
    ensures forall i :: 0 <= i < n ==> Distance(ack, pending[i].ack) < ACK_WINDOW
    ensures n < |pending| ==> Distance(ack, pending[n].ack) >= ACK_WINDOW
  {
    if pending == [] || Distance(ack, pending[0].ack) >= ACK_WINDOW then 0 else 1 + Released(pending[1..], ack)
  }

  function Callbacks(pending: seq<AckHolder>): (ids: seq<nat>)
    ensures |ids| == |pending| && forall i :: 0 <= i < |ids| ==> ids[i] == pending[i].callback
  {
    if pending == [] then [] else [pending[0].callback] + Callbacks(pending[1..])
  }

  /** When exactly an acknowledgement of message number `a` releases the holder of message number `n`: the holder is not
      newer and less than 2^28 messages older, or `a` is so stale that the counter has all but come round again. */
  lemma ReleaseExact(a: nat, n: nat)
    requires n < a + 0x1_0000_0000 && a < n + 0x1_0000_0000
    ensures Distance(ToInt32(a), ToInt32(n)) < ACK_WINDOW
            <==> n <= a < n + 0x1000_0000 || n > a + 0xF000_0000
  {
  }

  /** Message numbers of the holders: sent in this order, not after message number `count`. */
  ghost predicate Numbered(pending: seq<AckHolder>, numbers: seq<nat>, count: nat)
  {
    && |pending| == |numbers|
    && (forall i :: 0 <= i < |numbers| ==> pending[i].ack == ToInt32(numbers[i]) && numbers[i] <= count)
    && (forall i, j :: 0 <= i < j < |numbers| ==> numbers[i] < numbers[j])
  }

  /** While fewer than 2^28 messages were sent since the oldest one waiting, an acknowledgement of message `a` releases
      exactly the holders sent no later than `a`; one older than everything that waits releases none. */
  lemma WindowExact(pending: seq<AckHolder>, numbers: seq<nat>, count: nat, a: nat)
    requires Numbered(pending, numbers, count) && a <= count
    requires pending != [] ==> count - numbers[0] < ACK_WINDOW && numbers[0] <= a + (COUNTER_RANGE - 2 * ACK_WINDOW)
    ensures var k := Released(pending, ToInt32(a));
            (forall i :: 0 <= i < k ==> numbers[i] <= a) && (forall i :: k <= i < |pending| ==> numbers[i] > a)
    ensures pending != [] && a < numbers[0] ==> Released(pending, ToInt32(a)) == 0
  {
    hide ToInt32, Distance, Released;
    var k := Released(pending, ToInt32(a));
    forall i | 0 <= i < |pending|
      ensures Distance(ToInt32(a), pending[i].ack) < ACK_WINDOW <==> numbers[i] <= a
    {
      assert numbers[0] <= numbers[i];
      ReleaseExact(a, numbers[i]);
    }
  }

  /** Without that limit the property fails: once 2^28 messages have been sent after the oldest holder, the
      acknowledgement of the newest one releases nothing at all. */
  lemma WindowOverrun(pending: seq<AckHolder>, numbers: seq<nat>, count: nat)
    requires Numbered(pending, numbers, count) && pending != [] && count - numbers[0] < COUNTER_RANGE
    ensures Released(pending, ToInt32(count)) == 0 <==> count - numbers[0] >= ACK_WINDOW
  {
    hide ToInt32, Distance;
    ReleaseExact(count, numbers[0]);
  }

  /** What receive_message makes of that: it passes on the ack id of the ACK message, which is always 0. That releases the
      holder of message number `n` exactly when the counter is within 2^28 messages of coming round, whatever was
      acknowledged. */
  lemma ZeroReleasesExact(n: nat)
    ensures Distance(0, ToInt32(n)) < ACK_WINDOW <==> n % COUNTER_RANGE == 0 || n % COUNTER_RANGE > COUNTER_RANGE - ACK_WINDOW
  {
    var k := n % COUNTER_RANGE;
    assert ToInt32(n) == ToInt32(k);
    assert Distance(0, ToInt32(k)) == if k == 0 then 0 else COUNTER_RANGE - k;
  }

  /** No callback is called for any ACK before message number 2^32 - 2^28 is the oldest one waiting. */
  lemma ZeroReleasesNone(pending: seq<AckHolder>, numbers: seq<nat>, count: nat)
    requires Numbered(pending, numbers, count) && pending != [] && 0 < numbers[0] < COUNTER_RANGE
    ensures Released(pending, 0) == 0 <==> numbers[0] <= COUNTER_RANGE - ACK_WINDOW
  {
    hide ToInt32, Distance;
    ZeroReleasesExact(numbers[0]);
  }

  class AckWindow {
    var waitingAck: Int32
    var pendingAcks: seq<AckHolder>
    /** Number of messages sent, the numbers of the waiting ones, and the callbacks registered and run so far. */
    ghost var count: nat
    ghost var numbers: seq<nat>
    ghost var registered: seq<nat>
    ghost var fired: seq<nat>

    ghost predicate Valid()
      reads this
    {
      && waitingAck == ToInt32(count)
      && Numbered(pendingAcks, numbers, count)
      && fired + Callbacks(pendingAcks) == registered
    }

    constructor ()
      ensures Valid() && count == 0 && pendingAcks == [] && fired == []
    {
      waitingAck, pendingAcks, count, numbers, registered, fired := 0, [], 0, [], [], [];
    }

    /** The part of write_loop that numbers a message. */
    method Sent(callback: Option<nat>) returns (ack: Int32)
      requires Valid()
      modifies this
      ensures Valid() && count == old(count) + 1 && ack == ToInt32(count) && fired == old(fired)
      ensures callback == None ==> numbers == old(numbers) && registered == old(registered)
      ensures callback.Some? ==> numbers == old(numbers) + [count] && registered == old(registered) + [callback.value]
    {
      NextInt32(count);
      waitingAck := if waitingAck == 0x7fff_ffff then -0x8000_0000 else waitingAck + 1;
      count := count + 1;
      ack := waitingAck;
      if callback.Some? {
        pendingAcks := pendingAcks + [AckHolder(waitingAck, callback.value)];
        numbers := numbers + [count];
        registered := registered + [callback.value];
        assert Callbacks(pendingAcks) == old(Callbacks(pendingAcks)) + [callback.value];
      }
    }

    /** receive_message for a frame that holds an ACK, whatever it acknowledges. */
    method ReceiveAck(frame: Bytes)
      requires Valid() && Codec.Parse(frame).Ok? && Codec.Parse(frame).value.what.Ack?
      modifies this
      ensures Valid() && count == old(count) && registered == old(registered)
      ensures var k := Released(old(pendingAcks), 0);
              pendingAcks == old(pendingAcks)[k..] && fired == old(fired) + Callbacks(old(pendingAcks)[..k])
      ensures old(numbers) != [] && 0 < old(numbers[0]) <= COUNTER_RANGE - ACK_WINDOW ==>
                pendingAcks == old(pendingAcks) && fired == old(fired)
      ensures old(numbers) != [] && COUNTER_RANGE - ACK_WINDOW < old(numbers[0]) < COUNTER_RANGE ==> |fired| > |old(fired)|
    {
      hide Released, ToInt32, Distance, Codec.Decode, Get32;
      if pendingAcks != [] && 0 < numbers[0] < COUNTER_RANGE {
        ZeroReleasesNone(pendingAcks, numbers, count);
      }
      CheckPendingAcks(Codec.Parse(frame).value.ackId);
    }

    method CheckPendingAcks(ack: Int32)
      requires Valid()
      modifies this
      ensures Valid() && count == old(count) && waitingAck == old(waitingAck) && registered == old(registered)
      ensures var k := Released(old(pendingAcks), ack);
              pendingAcks == old(pendingAcks)[k..] && numbers == old(numbers)[k..]
              && fired == old(fired) + Callbacks(old(pendingAcks)[..k])
    {
      hide Valid, Distance, Callbacks, Released, Numbered;
      ghost var before, k := pendingAcks, 0;
      ReleasedStep(pendingAcks, ack);
      assert Callbacks([]) == [];
      while pendingAcks != []
        invariant 0 <= k <= |before| && |numbers| + k == |old(numbers)|
        invariant pendingAcks == before[k..] && numbers == old(numbers)[k..]
        invariant Valid() && fired == old(fired) + Callbacks(before[..k])
        invariant k + Released(pendingAcks, ack) == Released(before, ack)
        invariant waitingAck == old(waitingAck) && count == old(count) && registered == old(registered)
        decreases |pendingAcks|
      {
        ReleasedStep(pendingAcks, ack);
        var d := Distance(ack, pendingAcks[0].ack);
        if d >= ACK_WINDOW {
          break;
        }
        CallbacksSnoc(before, k);
        Fire();
        k := k + 1;
      }
      ReleasedStep(pendingAcks, ack);
    }

    /** Runs the first callback and forgets its holder. */
    method Fire()
      requires Valid() && pendingAcks != []
      modifies `pendingAcks, `numbers, `fired
      ensures Valid() && |numbers| == |pendingAcks|
      ensures pendingAcks == old(pendingAcks)[1..] && |old(numbers)| > 0 && numbers == old(numbers)[1..]
      ensures fired == old(fired) + [old(pendingAcks)[0].callback]
    {
      hide ToInt32, Numbered, Callbacks;
      FirstReleased(pendingAcks, numbers, count, fired);
      fired := fired + [pendingAcks[0].callback];
      pendingAcks, numbers := pendingAcks[1..], numbers[1..];
    }
  }

  /** The first holder moves from the waiting callbacks to the fired ones. */
  lemma FirstReleased(pending: seq<AckHolder>, numbers: seq<nat>, count: nat, fired: seq<nat>)
    requires Numbered(pending, numbers, count) && pending != []
    ensures |numbers| == |pending| && Numbered(pending[1..], numbers[1..], count)
    ensures fired + [pending[0].callback] + Callbacks(pending[1..]) == fired + Callbacks(pending)
  {
    hide ToInt32;
  }

  lemma ReleasedStep(pending: seq<AckHolder>, ack: Int32)
    ensures pending == [] ==> Released(pending, ack) == 0
    ensures pending != [] && Distance(ack, pending[0].ack) >= ACK_WINDOW ==> Released(pending, ack) == 0
    ensures pending != [] && Distance(ack, pending[0].ack) < ACK_WINDOW ==>
              Released(pending, ack) == 1 + Released(pending[1..], ack)
  {
  }

  lemma CallbacksSnoc(pending: seq<AckHolder>, k: nat)
    requires k < |pending|
    ensures Callbacks(pending[..k + 1]) == Callbacks(pending[..k]) + [pending[k].callback]
  {
  }

  lemma NextInt32(n: nat)
    ensures ToInt32(n + 1) as int == if ToInt32(n) == 0x7fff_ffff then -0x8000_0000 else ToInt32(n) as int + 1
  {
  }
}
