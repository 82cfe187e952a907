/** From message to message across a connection: encoding, batching, arbitrary chunking, cutting, decoding. */
module Transport {
  import opened Bytes
  import opened Sequences
  import opened Pages
  import Codec
  import Framing
  import Sessions

  /** A message with the rid and the acknowledgement id that Message::write is given. */
  datatype Outgoing = Outgoing(what: Codec.AnyMessage, rid: Int32, ackId: Int32)

  ghost predicate Readable(a: Codec.AnyMessage)
  {
    Codec.Parsable(a) && (a.Full? ==> Codec.AllWellTyped(a.message.headers))
  }

  /** Within the size limit, and without the two headers that the parser does not know. */
  ghost predicate Sendable(o: Outgoing)
  {
    Codec.Size(o.what) <= MAX_MESSAGE_SIZE && Readable(o.what)
  }

  /** The frame of a message; a message above the size limit has none. */
  function Encoded(o: Outgoing): Bytes
  {
    if Codec.Size(o.what) <= MAX_MESSAGE_SIZE then Codec.Write(o.what, o.rid, o.ackId) else []
  }

  function EncodedAll(os: seq<Outgoing>): (f: seq<Bytes>)
    ensures |f| == |os| && forall i :: 0 <= i < |f| ==> f[i] == Encoded(os[i])
  {
    if os == [] then [] else [Encoded(os[0])] + EncodedAll(os[1..])
  }

  /** The parse step that may refuse a frame. */
  predicate Parses(frame: Bytes) { Codec.Parse(frame).Ok? }

  /** What arrived, decoded. */
  function DecodedAll(frames: seq<Bytes>): (d: seq<Result<Codec.Received>>)
    ensures |d| == |frames| && forall i :: 0 <= i < |d| ==> d[i] == Codec.Parse(frames[i])
  {
    if frames == [] then [] else [Codec.Parse(frames[0])] + DecodedAll(frames[1..])
  }

  function Intended(os: seq<Outgoing>): (d: seq<Result<Codec.Received>>)
    ensures |d| == |os|
    ensures forall i :: 0 <= i < |d| ==> d[i] == Ok(Codec.Arrival(os[i].what, os[i].rid, os[i].ackId))
  {
    if os == [] then [] else [Ok(Codec.Arrival(os[0].what, os[0].rid, os[0].ackId))] + Intended(os[1..])
  }

  lemma SendableFrame(o: Outgoing)
    requires Sendable(o)
    ensures Framing.WellFormed(Parses, Encoded(o))
    ensures Codec.Parse(Encoded(o)) == Ok(Codec.Arrival(o.what, o.rid, o.ackId))
  {
    hide Codec.Write, Codec.Parse, Codec.Size, Codec.Arrival, Codec.Parsable, Codec.AllWellTyped, Get32;
    Codec.WrittenFrame(o.what, o.rid, o.ackId);
    Codec.WrittenReads(o.what, o.rid, o.ackId);
  }

  /** Write, then read: whatever the chunks in which the socket hands over the bytes, the reader delivers one frame per
      message, and they decode to the messages that were written, in order, with their rids and acknowledgement ids. */
  lemma WriteThenRead(os: seq<Outgoing>, chunks: seq<Bytes>)
    requires forall o :: o in os ==> Sendable(o)
    requires Concat(chunks) == Concat(EncodedAll(os))
    ensures var c := Framing.FeedAll(Framing.Cut([], [], Framing.Open), chunks, Parses);
            c.outcome == Framing.Open && c.rest == [] && DecodedAll(c.frames) == Intended(os)
  {
    hide Encoded, Sendable, Parses, Framing.WellFormed, Codec.Parse, Codec.Arrival;
    forall i | 0 <= i < |os|
      ensures Framing.WellFormed(Parses, Encoded(os[i]))
      ensures Codec.Parse(Encoded(os[i])) == Ok(Codec.Arrival(os[i].what, os[i].rid, os[i].ackId))
    {
      SendableFrame(os[i]);
    }
    forall f | f in EncodedAll(os) ensures Framing.WellFormed(Parses, f) {
      var i :| 0 <= i < |os| && EncodedAll(os)[i] == f;
    }
    Framing.ChunkingIndependence(chunks, Parses);
    Framing.CutConcatenation(EncodedAll(os), Parses);
  }

  /** The encoder a session gets from the codec; `message` is the message that each entry of a stream stands for. */
  function Encoder(message: Msg -> Codec.AnyMessage): (Msg, Int32, Int32) -> Bytes
  {
    (m, rid, ackId) => Encoded(Outgoing(message(m), rid, ackId))
  }

  /** The codec meets what a session needs of a message exactly when the size that is accounted for it is the size that is
      predicted for it, within the limit. */
  lemma EncoderWritable(message: Msg -> Codec.AnyMessage, m: Msg)
    ensures Sessions.Writable(Encoder(message), m) <==> Codec.Size(message(m)) == m.size <= MAX_MESSAGE_SIZE
  {
    hide Codec.Write, Codec.Size;
    var a := message(m);
    if Codec.Size(a) <= MAX_MESSAGE_SIZE {
      forall rid, ackId ensures |Encoder(message)(m, rid, ackId)| == Codec.Size(a) {
        Codec.WrittenFrame(a, rid, ackId);
      }
      assert |Encoder(message)(m, 0, 0)| == Codec.Size(a);
    } else {
      assert |Encoder(message)(m, 0, 0)| == 0;
    }
  }

  function AsOutgoing(message: Msg -> Codec.AnyMessage, sent: seq<Sessions.Sent>): (os: seq<Outgoing>)
    ensures |os| == |sent| && forall i :: 0 <= i < |os| ==> os[i] == Outgoing(message(sent[i].msg), sent[i].rid, sent[i].ack)
  {
    if sent == [] then []
    else [Outgoing(message(sent[0].msg), sent[0].rid, sent[0].ack)] + AsOutgoing(message, sent[1..])
  }

  /** What a session wrote to its connection arrives as what it sent, unless writes overlapped: of every message the parser
      knows the headers of. */
  lemma SessionWireReads(session: Sessions.Session, message: Msg -> Codec.AnyMessage, chunks: seq<Bytes>)
    requires session.Valid() && !session.overlapped && session.encode == Encoder(message)
    requires forall x :: x in session.sent ==> Readable(message(x.msg))
    requires Concat(chunks) == session.wire
    ensures var c := Framing.FeedAll(Framing.Cut([], [], Framing.Open), chunks, Parses);
            c.outcome == Framing.Open && c.rest == [] && DecodedAll(c.frames) == Intended(AsOutgoing(message, session.sent))
  {
    hide Codec.Write, Codec.Size, Readable, Sessions.Writable, Codec.Arrival, Framing.FeedAll, Encoded;
    var os := AsOutgoing(message, session.sent);
    forall i | 0 <= i < |os| ensures Sendable(os[i]) {
      assert session.sent[i] in session.sent;
      EncoderWritable(message, session.sent[i].msg);
    }
    assert EncodedAll(os) == Sessions.Frames(session.encode, session.sent);
    WriteThenRead(os, chunks);
  }

  // ---------------------------------------------------------------- invoke requests

  /** The page headers that set_value gives a page; a value of 0 is not stored. */
  function PageHeaders(m: Msg): map<Byte, Codec.Header>
  {
    (if m.sequenceId == 0 then map[] else map[Codec.SEQUENCE_ID := Codec.IntHeader(m.sequenceId)])
    + if m.pageId == 0 || !(-0x8000_0000 <= m.pageId < 0x8000_0000) then map[] else map[Codec.PAGE_ID := Codec.IntHeader(m.pageId)]
  }

  /** An INVOKE request that carries a page and nothing else. */
  function InvokeMessage(m: Msg): Codec.AnyMessage
  {
    Codec.Full(Codec.Message(Codec.InvokeRequest, PageHeaders(m), m.body))
  }

  /** Every such message can be read, and written if it is accounted for with its true size. */
  lemma InvokeReadable(m: Msg)
    ensures Readable(InvokeMessage(m))
    ensures Sessions.Writable(Encoder(InvokeMessage), m) <==> Codec.Size(InvokeMessage(m)) == m.size <= MAX_MESSAGE_SIZE
  {
    hide Sessions.Writable, Codec.Size;
    EncoderWritable(InvokeMessage, m);
  }

  /** A session that has sent this message, to which SessionWireReads applies. */
  method SendInvoke(m: Msg) returns (session: Sessions.Session)
    requires Codec.Size(InvokeMessage(m)) == m.size <= MAX_MESSAGE_SIZE
    ensures fresh(session) && session.Valid() && !session.overlapped && session.encode == Encoder(InvokeMessage) && session.sent != []
    ensures forall x :: x in session.sent ==> x.msg == m && Readable(InvokeMessage(x.msg))
  {
    hide Readable, Sessions.Writable, Sessions.Session.Valid, Sessions.Session.SomethingPending, Sessions.NumberedFrom, Codec.Size,
         Encoder, InvokeMessage;
    InvokeReadable(m);
    session := new Sessions.Session(Encoder(InvokeMessage));
    var s := Sessions.SendOne(session, m);
    session.Connected(0);
    session.SentWasGiven();
    forall x | x in session.sent ensures Readable(InvokeMessage(x.msg)) {
      InvokeReadable(x.msg);
    }
  }
}
