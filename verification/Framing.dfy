/** Cutting a byte stream into frames and packing frames into a write buffer.
    src/sdk/network/base_socket_connection.cc and src/sdk/network/tcp/tcp_connection.cc. */
module Framing {
  import opened Bytes
  import opened Sequences

  const DEFAULT_BUFFER_SIZE: nat := 8196
  const MAX_BUFFER_SIZE: nat := 8196 * 15

  /** Open: waiting for more bytes. Closed: the connection destroyed itself on a bad frame.
      Spinning: a frame of size 0 was met; the source loops on it without ever advancing. */
  datatype Outcome = Open | Closed | Spinning

  datatype Cut = Cut(frames: seq<Bytes>, rest: Bytes, outcome: Outcome)

  /** Message::parse_message accepts a frame. Below 7 bytes it returns a null message instead of parsing. */
  predicate Accepted(accepts: Bytes -> bool, frame: Bytes)
  {
    |frame| < 7 || accepts(frame)
  }

  /** The reference: parse a whole byte string at once. `frames` are the byte ranges handed to
      on_read_message, `rest` is the incomplete frame at the end. */
  function CutAll(data: Bytes, accepts: Bytes -> bool): (c: Cut)
    ensures c.outcome.Open? ==> Partial(c.rest)
    decreases |data|
  {
    if |data| < 4 then Cut([], data, Open)
    else
      var n := Get32(data);
      if n < 0 || n > MAX_MESSAGE_SIZE then Cut([], [], Closed)
      else if n > |data| then Cut([], data, Open)
      else if !Accepted(accepts, data[..n]) then Cut([], [], Closed)
      else if n == 0 then Cut([], [], Spinning)
      else
        var c := CutAll(data[n..], accepts);
        Cut([data[..n]] + c.frames, c.rest, c.outcome)
  }

  /** A frame that has started and not ended. */
  predicate Partial(data: Bytes)
  {
    |data| < 4 || |data| < Get32(data) <= MAX_MESSAGE_SIZE
  }

  predicate WellFormed(accepts: Bytes -> bool, frame: Bytes)
  {
    7 <= |frame| <= MAX_MESSAGE_SIZE && Get32(frame) == |frame| && accepts(frame)
  }

  // ---------------------------------------------------------------- the reference parser

  lemma Get32Prefix(a: Bytes, b: Bytes)
    requires |a| >= 4
    ensures Get32(a + b) == Get32(a)
  {
  }

  /** One frame at the front. */
  lemma CutStep(data: Bytes, accepts: Bytes -> bool, n: nat)
    requires 4 <= |data| && Get32(data) == n && 0 < n <= |data| && n <= MAX_MESSAGE_SIZE
    requires Accepted(accepts, data[..n])
    ensures var c := CutAll(data[n..], accepts);
            CutAll(data, accepts) == Cut([data[..n]] + c.frames, c.rest, c.outcome)
  {
  }

  /** The ways a parse can stop at the front of `data`. */
  lemma CutStops(data: Bytes, accepts: Bytes -> bool)
    ensures |data| < 4 ==> CutAll(data, accepts) == Cut([], data, Open)
    ensures |data| >= 4 && |data| < Get32(data) <= MAX_MESSAGE_SIZE ==> CutAll(data, accepts) == Cut([], data, Open)
    ensures |data| >= 4 && !(0 <= Get32(data) <= MAX_MESSAGE_SIZE) ==> CutAll(data, accepts) == Cut([], [], Closed)
    ensures |data| >= 4 && 0 <= Get32(data) <= MAX_MESSAGE_SIZE && Get32(data) <= |data| && !Accepted(accepts, data[..Get32(data)])
            ==> CutAll(data, accepts) == Cut([], [], Closed)
    ensures |data| >= 4 && Get32(data) == 0 && Accepted(accepts, data[..0]) ==> CutAll(data, accepts) == Cut([], [], Spinning)
  {
  }

  /** Chunking independence: parsing a + b at once is parsing a, then parsing what a left over followed by b.
      A closed or spinning reader ignores everything after. */
  lemma {:induction false} CutConcat(a: Bytes, b: Bytes, accepts: Bytes -> bool)
    ensures var c := CutAll(a, accepts);
            CutAll(a + b, accepts) ==
            if c.outcome.Open? then
              var d := CutAll(c.rest + b, accepts);
              Cut(c.frames + d.frames, d.rest, d.outcome)
            else c
    decreases |a|
  {
    hide Get32;
    if |a| >= 4 {
      Get32Prefix(a, b);
      var n := Get32(a);
      if 0 <= n <= |a| && n <= MAX_MESSAGE_SIZE {
        assert (a + b)[..n] == a[..n];
        if n > 0 && Accepted(accepts, a[..n]) {
          assert (a + b)[n..] == a[n..] + b;
          CutStep(a + b, accepts, n);
          CutConcat(a[n..], b, accepts);
        }
      }
    }
  }

  /** Why a parse stops in front of `data`. */
  predicate StopsAs(outcome: Outcome, data: Bytes, accepts: Bytes -> bool)
  {
    match outcome
    case Open => Partial(data)
    case Spinning => |data| >= 4 && Get32(data) == 0
    case Closed =>
      |data| >= 4 && (!(0 <= Get32(data) <= 65472) || (7 <= Get32(data) <= |data| && !accepts(data[..Get32(data)])))
  }

  /** No frame can be taken off the front of `data`. */
  predicate Stopped(data: Bytes, accepts: Bytes -> bool)
  {
    |data| < 4 || !(0 < Get32(data) <= |data|) || Get32(data) > MAX_MESSAGE_SIZE || !Accepted(accepts, data[..Get32(data)])
  }

  lemma CutStopped(data: Bytes, accepts: Bytes -> bool)
    requires Stopped(data, accepts)
    ensures var c := CutAll(data, accepts);
            c.frames == [] && StopsAs(c.outcome, data, accepts) && (c.outcome.Open? ==> c.rest == data)
  {
  }

  lemma AcceptedFrame(frame: Bytes, accepts: Bytes -> bool)
    requires Accepted(accepts, frame)
    ensures |frame| >= 7 ==> accepts(frame)
  {
  }

  /** What a reader has done with any input whatever: the delivered frames follow each other, in order and without gaps from
      the first byte on, and the outcome tells what stands right behind them: an incomplete frame (which is retained),
      a frame that closes the connection, or a zero size field, on which the source never advances. */
  lemma {:induction false} CutCharacterised(data: Bytes, accepts: Bytes -> bool)
    ensures var c := CutAll(data, accepts); var used := |Concat(c.frames)|;
            used <= |data| && data[..used] == Concat(c.frames)
            && StopsAs(c.outcome, data[used..], accepts)
            && (c.outcome.Open? ==> c.rest == data[used..])
            && (forall f :: f in c.frames ==> 0 < |f| <= 65472 && (|f| >= 7 ==> accepts(f)) && (|f| >= 4 ==> Get32(f) == |f|))
    decreases |data|
  {
    hide Get32, CutAll, Accepted, Partial, StopsAs, Concat;
    assert data[0..] == data && data[..0] == [];
    if Stopped(data, accepts) {
      CutStopped(data, accepts);
      ConcatParts<Byte>([]);
    } else {
      var n := Get32(data);
      var c := CutAll(data[n..], accepts);
      CutStep(data, accepts, n);
      CutCharacterised(data[n..], accepts);
      var frame, used := data[..n], |Concat(c.frames)|;
      assert ([frame] + c.frames)[1..] == c.frames;
      ConcatParts([frame] + c.frames);
      AcceptedFrame(frame, accepts);
      assert data[n..][..used] == data[n..n + used] && data[n..][used..] == data[n + used..];
      assert data[..n + used] == frame + data[n..n + used];
      if n >= 4 {
        assert data == frame + data[n..];
        Get32Prefix(frame, data[n..]);
      }
    }
  }

  lemma CutConserves(data: Bytes, accepts: Bytes -> bool)
    ensures var c := CutAll(data, accepts); c.outcome.Open? ==> Concat(c.frames) + c.rest == data
  {
  }

  /** A concatenation of well-formed frames is cut back into exactly those frames. */
  lemma {:induction false} CutConcatenation(frames: seq<Bytes>, accepts: Bytes -> bool)
    requires forall f :: f in frames ==> WellFormed(accepts, f)
    ensures CutAll(Concat(frames), accepts) == Cut(frames, [], Open)
  {
    hide Get32;
    if frames != [] {
      var f, tail := frames[0], Concat(frames[1..]);
      assert WellFormed(accepts, f);
      Get32Prefix(f, tail);
      assert (f + tail)[..|f|] == f && (f + tail)[|f|..] == tail;
      CutStep(f + tail, accepts, |f|);
      CutConcatenation(frames[1..], accepts);
      assert [f] + frames[1..] == frames;
    }
  }

  /** At every moment of a well-formed stream the reader has delivered exactly the frames complete so far,
      and it retains a proper prefix of the next one. */
  lemma CutPrefix(frames: seq<Bytes>, seen: Bytes, unseen: Bytes, accepts: Bytes -> bool)
    requires forall f :: f in frames ==> WellFormed(accepts, f)
    requires seen + unseen == Concat(frames)
    ensures var c := CutAll(seen, accepts);
            c.outcome.Open? && c.frames <= frames && Concat(c.frames) + c.rest == seen
            && (c.frames == frames ==> c.rest == [])
            && (c.frames < frames ==> c.rest < frames[|c.frames|])
  {
    hide Get32, CutAll, Partial, WellFormed;
    var c := CutAll(seen, accepts);
    CutConcatenation(frames, accepts);
    CutConcat(seen, unseen, accepts);
    CutConserves(seen, accepts);
    var k := |c.frames|;
    assert Concat(c.frames) + (c.rest + unseen) == seen + unseen;
    ConcatSplit(frames, k, c.frames, c.rest + unseen);
    if k < |frames| {
      RestIsProper(frames[k], Concat(frames[k + 1..]), c.rest, unseen, accepts);
      assert frames[k..][1..] == frames[k + 1..];
    }
  }

  lemma ConcatSplit(frames: seq<Bytes>, k: nat, done: seq<Bytes>, left: Bytes)
    requires k <= |frames| && done == frames[..k] && Concat(done) + left == Concat(frames)
    ensures left == Concat(frames[k..])
  {
    ConcatAppend(done, frames[k..]);
    assert frames == done + frames[k..];
    assert left == (Concat(done) + left)[|Concat(done)|..];
    assert Concat(frames[k..]) == (Concat(done) + Concat(frames[k..]))[|Concat(done)|..];
  }

  lemma RestIsProper(frame: Bytes, tail: Bytes, rest: Bytes, unseen: Bytes, accepts: Bytes -> bool)
    requires WellFormed(accepts, frame) && Partial(rest)
    requires rest + unseen == frame + tail
    ensures rest < frame
  {
    hide Get32;
    if |rest| >= 4 {
      Get32Prefix(rest, unseen);
      Get32Prefix(frame, tail);
    }
    assert |rest| < |frame|;
    assert rest == (rest + unseen)[..|rest|] == (frame + tail)[..|rest|] == frame[..|rest|];
  }

  /** One socket read, on the reference state. */
  function Feed(c: Cut, chunk: Bytes, accepts: Bytes -> bool): Cut
  {
    if c.outcome.Open? then
      var d := CutAll(c.rest + chunk, accepts);
      Cut(c.frames + d.frames, d.rest, d.outcome)
    else c
  }

  function FeedAll(c: Cut, chunks: seq<Bytes>, accepts: Bytes -> bool): Cut
    decreases |chunks|
  {
    if chunks == [] then c else FeedAll(Feed(c, chunks[0], accepts), chunks[1..], accepts)
  }

  /** Reading any byte stream in any chunks delivers what parsing the whole stream at once delivers,
      including the frame on which the connection closes or hangs. */
  lemma ChunkingIndependence(chunks: seq<Bytes>, accepts: Bytes -> bool)
    ensures FeedAll(Cut([], [], Open), chunks, accepts) == CutAll(Concat(chunks), accepts)
  {
    FeedFrom([], chunks, accepts);
    assert [] + Concat(chunks) == Concat(chunks);
  }

  lemma {:induction false} FeedFrom(seen: Bytes, chunks: seq<Bytes>, accepts: Bytes -> bool)
    ensures FeedAll(CutAll(seen, accepts), chunks, accepts) == CutAll(seen + Concat(chunks), accepts)
    decreases |chunks|
  {
    hide Get32, CutAll;
    if chunks == [] {
      assert seen + [] == seen;
    } else {
      CutConcat(seen, chunks[0], accepts);
      FeedFrom(seen + chunks[0], chunks[1..], accepts);
      assert seen + (chunks[0] + Concat(chunks[1..])) == (seen + chunks[0]) + Concat(chunks[1..]);
    }
  }

  // ---------------------------------------------------------------- the reader

  /** The buffer sizes start_read can produce: 8196 times 1, 4 or 16. */
  predicate BufferSize(n: nat) { n == 8196 || n == 32784 || n == 131136 }

  class FrameReader {
    var readBuffer: array<Byte>
    var readCurrent: nat
    var readNext: nat
    /** What on_read_message was called with, in order. */
    var delivered: seq<Bytes>
    var outcome: Outcome
    const accepts: Bytes -> bool
    /** Every byte the socket has produced since the connection opened. */
    ghost var received: Bytes

    /** Between two reads: the state is the reference parser's result on everything received so far. */
    ghost predicate Valid()
      reads this, readBuffer
    {
      && BufferSize(readBuffer.Length)
      && readCurrent <= readNext <= readBuffer.Length
      && delivered == CutAll(received, accepts).frames
      && outcome == CutAll(received, accepts).outcome
      && (outcome.Open? ==> readBuffer[readCurrent..readNext] == CutAll(received, accepts).rest)
    }

    constructor (accepts: Bytes -> bool)
      ensures Valid() && fresh(readBuffer) && received == [] && delivered == [] && outcome == Open && this.accepts == accepts
    {
      this.accepts := accepts;
      readBuffer := new Byte[DEFAULT_BUFFER_SIZE](_ => 0);
      readCurrent, readNext, delivered, outcome, received := 0, 0, [], Open, [];
    }

    /** start_read up to the asynchronous read: the partial frame moves to the front of the buffer, the
        buffer grows when it is more than half used, and there is room for at least one more byte. */
    method StartRead() returns (partialSize: nat)
      requires Valid() && outcome.Open?
      modifies `readBuffer, readBuffer
      ensures readBuffer == old(readBuffer) || fresh(readBuffer)
      ensures BufferSize(readBuffer.Length)
      ensures readBuffer.Length == old(readBuffer.Length) * if old(readNext * 2 > readBuffer.Length && readBuffer.Length <= 32784) then 4 else 1
      ensures partialSize < readBuffer.Length
      ensures readBuffer[..partialSize] == CutAll(received, accepts).rest
    {
      hide Get32, CutAll;
      partialSize := readNext - readCurrent;
      ghost var rest := readBuffer[readCurrent..readNext];
      assert Partial(rest);
      if readCurrent > 0 {
        MoveToFront(readBuffer, readCurrent, partialSize);
      }
      assert readBuffer[..partialSize] == rest;
      if readNext * 2 > readBuffer.Length && readBuffer.Length < MAX_BUFFER_SIZE {
        var bigger := Resized(readBuffer, readBuffer.Length * 4);
        assert bigger[..partialSize] == readBuffer[..partialSize];
        readBuffer := bigger;
      }
    }

    /** read_loop_ after `transferred` more bytes arrived behind the `fromPrev` retained ones. */
    method ReadLoop(fromPrev: nat, transferred: nat)
      requires fromPrev + transferred <= readBuffer.Length && BufferSize(readBuffer.Length) && outcome.Open?
      modifies `readCurrent, `readNext, `delivered, `outcome
      ensures var c := CutAll(readBuffer[..fromPrev + transferred], accepts);
              delivered == old(delivered) + c.frames && outcome == c.outcome
              && readCurrent <= readNext <= readBuffer.Length
              && (c.outcome.Open? ==> readBuffer[readCurrent..readNext] == c.rest)
    {
      hide Get32, CutAll, Accepted;
      var total, cur := fromPrev + transferred, 0;
      ghost var data := readBuffer[..total];
      ghost var frames: seq<Bytes> := [];
      readCurrent, readNext := 0, 0;
      while cur < total
        invariant 0 <= cur <= total && outcome.Open? && readCurrent == readNext == 0
        invariant delivered == old(delivered) + frames
        invariant var c := CutAll(data[cur..], accepts);
                  CutAll(data, accepts) == Cut(frames + c.frames, c.rest, c.outcome)
      {
        var pending := readBuffer[cur..total];
        assert pending == data[cur..];
        CutStops(pending, accepts);
        if total - cur < 4 {
          readCurrent, readNext := cur, total;
          return;
        }
        var messageSize := Get32(pending);
        // the comparison is made in size_t, so a negative size counts as too large
        if messageSize < 0 || messageSize > MAX_MESSAGE_SIZE {
          outcome := Closed;
          return;
        }
        if messageSize > total - cur {
          readCurrent, readNext := cur, total;
          return;
        }
        var frame := pending[..messageSize];
        if !Accepted(accepts, frame) {
          outcome := Closed;
          return;
        }
        if messageSize == 0 {
          outcome := Spinning;
          return;
        }
        CutStep(pending, accepts, messageSize);
        assert data[cur..][messageSize..] == data[cur + messageSize..];
        ghost var c := CutAll(data[cur + messageSize..], accepts);
        assert frames + ([frame] + c.frames) == (frames + [frame]) + c.frames;
        delivered := delivered + [frame];
        frames := frames + [frame];
        cur := cur + messageSize;
      }
      assert data[cur..] == [];
      CutStops([], accepts);
    }

    /** One read of the socket: any non-empty chunk that fits the free part of the buffer. Valid() says that the
        frames delivered over the whole run are those of the one-shot parser, however the bytes were chunked. */
    method OnRead(chunk: Bytes) returns (room: nat)
      requires Valid() && outcome.Open? && chunk != []
      modifies this, readBuffer
      ensures Valid() && (readBuffer == old(readBuffer) || fresh(readBuffer))
      ensures room > 0
      ensures received == old(received) + chunk[..if |chunk| <= room then |chunk| else room]
      ensures old(delivered) <= delivered
    {
      hide Get32, CutAll;
      var partialSize := StartRead();
      room := readBuffer.Length - partialSize;
      var part := chunk[..if |chunk| <= room then |chunk| else room];
      ghost var rest := readBuffer[..partialSize];
      Store(readBuffer, partialSize, part);
      assert readBuffer[..partialSize + |part|] == rest + part;
      ReadLoop(partialSize, |part|);
      CutConcat(received, part, accepts);
      received := received + part;
    }
  }

  /** The overlapping std::copy of start_read. */
  method MoveToFront(buf: array<Byte>, from: nat, n: nat)
    requires from + n <= buf.Length
    modifies buf
    ensures buf[..n] == old(buf[from..from + n])
  {
    var i := 0;
    while i < n
      invariant 0 <= i <= n
      invariant forall j :: 0 <= j < i ==> buf[j] == old(buf[from + j])
      invariant forall j :: i <= j < buf.Length ==> buf[j] == old(buf[j])
    {
      buf[i] := buf[from + i];
      i := i + 1;
    }
  }

  /** std::vector::resize to a larger size. */
  method Resized(buf: array<Byte>, n: nat) returns (bigger: array<Byte>)
    requires buf.Length <= n
    ensures fresh(bigger) && bigger.Length == n && bigger[..buf.Length] == buf[..]
  {
    bigger := new Byte[n](_ => 0);
    var i := 0;
    while i < buf.Length
      invariant 0 <= i <= buf.Length && bigger[..i] == buf[..i]
    {
      bigger[i] := buf[i];
      i := i + 1;
    }
  }

  // ---------------------------------------------------------------- the writer

  class WriteBuffer {
    var buffer: array<Byte>
    var size: nat

    ghost predicate Valid()
      reads this, buffer
    {
      BufferSize(buffer.Length) && size <= buffer.Length && size <= MAX_BUFFER_SIZE
    }

    /** The bytes waiting to be written. */
    ghost function Contents(): Bytes
      reads this, buffer
      requires Valid()
    {
      buffer[..size]
    }

    constructor (connectionBuffer: array<Byte>)
      requires BufferSize(connectionBuffer.Length)
      ensures Valid() && buffer == connectionBuffer && Contents() == []
    {
      buffer, size := connectionBuffer, 0;
    }

    function MaxNextSize(): nat
      reads this
      requires size <= MAX_BUFFER_SIZE
    {
      MAX_BUFFER_SIZE - size
    }

    /** WriteBuffer::add of a serialised message. The guard against exceeding MAX_BUFFER_SIZE is the precondition,
        which write_loop establishes; growing by factors of 4 ends within the three buffer sizes. */
    method Add(frame: Bytes)
      requires Valid() && |frame| <= MaxNextSize()
      modifies this, buffer
      ensures Valid() && (buffer == old(buffer) || fresh(buffer))
      ensures Contents() == old(Contents()) + frame
      ensures buffer != old(buffer) ==> buffer.Length / 4 < old(size) + |frame|
    {
      var totalSize := size + |frame|;
      while totalSize > buffer.Length
        invariant Valid() && (buffer == old(buffer) || fresh(buffer))
        invariant Contents() == old(Contents()) && size == old(size)
        invariant buffer != old(buffer) ==> buffer.Length / 4 < totalSize
        decreases MAX_BUFFER_SIZE - buffer.Length
      {
        var bigger := Resized(buffer, buffer.Length * 4);
        assert bigger[..size] == bigger[..buffer.Length][..size] == buffer[..size];
        buffer := bigger;
      }
      Store(buffer, size, frame);
      size := totalSize;
    }
  }
}
