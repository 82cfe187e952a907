# Verified model of the DSA v2 SDK message transport

This project models how the SDK moves messages: values are cut into pages, queued, evicted, batched into frames, cut out of
a byte stream again, merged and delivered; lists and subscriptions are kept in step between both ends; and two resolvers that
sit on top, node paths and broker permissions. Encoded values (msgpack) are byte strings throughout, and sockets are replaced
by "some non-empty chunk of bytes arrives" and "a write completes".

`dafny verify dfyconfig.toml` checks everything.

## How the files fit together

- `Bytes`, `Sequences`: little-endian fields, 32-bit wraparound, subsequences.
- `Codec`, `Messages`: the wire format on values, and message objects with a cached size that write and parse buffers. `WireFormat`: the same
  format as a table of fields and bytes that is written down apart from the encoder and the parser, and that both are proved to follow.
- `Framing`: the frame cutter and the write buffer, on arrays, against a one-shot reference parser.
- `Pages`, `PageObjects`: paging on values; messages linked into chains, `OutgoingPages`, merger and first-page cache as objects.
- `Queue`, `QueueProofs`, `QueueBlocks`, `QueueRun`: the outgoing queue as a state machine on values, what every operation keeps,
  and what holds over whole runs. `QueueTimes`: which moment an element and the queue are dated to, told by what a time check would evict.
  `QueueStream` is the class that updates its deque in place and is proved to do what `Queue` says.
- `Receiver`, `Pipeline`: the receiving end, and the end-to-end results from `set_value` to `get_value`. `GentleRuns`: the same for runs on
  which no partly sent group is evicted, a condition on the queue before each event. `Witnesses`: concrete runs on which a promise fails.
- `Streams`, `Histories`, `Session`, `Acks`: the write scheduler over queue, cache and fixed streams, what each of them was given and handed
  over since it was made, and the acknowledgement window.
- `Transport`: encoding, batching, chunking, cutting and decoding put together. `Delivery`: the same with the paging pipeline around it.
  `OneValue`: a session that sends one value over one connection, run to its end.
- `ListBody`, `ListStream`, `ListSync`: list responses, the responder's conflating stream, the requester's map, and their coherence.
- `Options`, `NodeState`, `SubscribeMerger`: the join of subscription options with its shortcuts, and the two classes that maintain it.
- `Permission`, `UrlEncoding`, `Paths`: longest-prefix rules with bounded fallback, percent-encoding, node paths.

Classes stand for the source's classes and update their fields; each method is tied by its contract to a function of the old
state, and the properties are proved about those functions and kept as invariants. `Subseq(a, b)` means that `a` is `b` with
some elements left out.

## Main results

- Paging and queueing: over every run of sends, page arrivals, peeks, evictions, option changes and dequeues, the bytes accounted
  for are the bytes unsent, messages leave in order, each accepted message is sent, queued or evicted exactly once
  (`QueueRun.RunHistory`), and what leaves are prefixes of the groups that were accepted (`RunBlocks`). What the receiver makes of that
  is known for every run and all sequence ids: exactly the values of the groups sent whole come out, in order, if and only if no group
  meets an abandoned one with its id (`Pipeline.EndToEnd`, `DeliveredInOrder`); without eviction every value comes out
  (`PipelineIdentity`, `SetValuePipeline`). When no check evicts a partly sent group, which can be told from the queue before each event
  (`GentleRuns.ChecksSpareExact`), exactly the values of the groups sent whole come out, in order and with any sequence ids, whatever else is
  evicted (`GentleDelivery`, `GentleValues`), and once nothing is left only evicted values are missing (`GentleIdentity`). Over every run, a
  group of which some pages left is as old as the page that goes out next (`QueueTimes.NextPageDated`), so no peek cuts it in half while
  that page is inside the window (`HalfSentPeek`).
- Messages: what a setter was given is what its getter reads, and the field is absent exactly for a blank value (`Messages.WriteThenRead`,
  `MessageObject.SetHeader`). Every field that a class can hold, and its body, reads back from the wire (`WireFormat.FieldsRoundTrip`), in any
  order and however often it comes (`AnyOrder`), and nothing else does (`DecodeSound`); `FrameBytes` gives every byte of a frame.
- Framing: every chunking of every byte string gives what one parse of the whole gives (`Framing.ChunkingIndependence`), and
  what a session writes is read back as what it sent (`Transport.WriteThenRead`, `SessionWireReads`). What it sent is what its streams
  handed over, in order, and what a queue stream handed over is what the run of its own events says (`Sessions.Session.HandedOver`, kept by every
  method). So values given to one stream of a session come out of `get_value` at the other end, among everything else the session writes
  (`Delivery.StreamToValues`, `ValueToValue`); `OneValue.SendValue` carries a value of any size all the way with no premise on the way.
- Scheduling: no wakeup is lost (`Sessions.Session.Valid`, kept by every method; `NoLostWakeup`), a write loop with anything to
  send always sends (`WriteLoop`), as much as fits the buffer, and it never touches a buffer that the socket is reading as long as the loops are in order
  (`Ordered`, kept by every method except `Connected`, which says exactly when it is not). A stream is registered with its session until its
  closing message was taken, it is destroyed, or a disconnection ends it (`GetNextMessage`, `WriteLoop`, `Disconnected`).
- Lists: both ends agree over every run, including reconnections (`ListSync.ListCoherence`).
- Subscriptions: the merged options are the component-wise maximum after every subscription and removal, and after a change of
  options exactly when the new options do not exceed them or the old ones attained one of them that the new ones do not; a lone subscriber
  always gets what it asks for (`NodeStates.NodeState.OptionsChanged`).
- Permissions: the backward search is longest-prefix match, and resolution ends on every graph of roles.

## Where the code falls short of what it promises

The model keeps all of this as it is; where a property fails, the condition under which it holds is proved.

- A frame with size 0 is never passed over: the reader spins (`Framing.CutCharacterised`, outcome `Spinning`).
- The time check of a subscription queue has no guard for its newest element and can empty the queue
  (`QueueProofs.TimeCheckEmptiesExact`); peek then reads the front of an empty deque (`PeekFailsExact`, reached by
  `Witnesses.EmptiedSubscription`).
- The same check at the end of `send_message` or `set_options` can drop the group that still waits for pages, exactly when
  `QueueProofs.CheckQueueExact` says so. The source goes on: pages that continue the group join an object that is in no deque, their bytes are
  counted, and the whole value vanishes (`Witnesses.VanishedValue`). The runs of `QueueRun` and the class in `QueueStream` go on like this. Only
  a message that does not continue the group leads to reading the back of an empty deque; that and the peek above are the steps on
  a live stream to which the source gives no meaning, and they are not enabled in `QueueRun`.
- The guard that should keep a partly sent group during the size check reads a link that is never set on a group, and purge has no
  such guard, so a partly sent group can be evicted. The receiver then holds its first pages, and whatever comes next with the same
  sequence id is lost: a complete group comes out if and only if its id differs (`Receiver.AbandonedThenComplete`), a single message is
  swallowed (`SingleLost`), and a later group releases the truncated one as if it were whole (`SameIdLost`). `set_value` gives all
  values the id 0 unless told otherwise; `Witnesses.TruncatedValue` is a run on which the receiver delivers a value that nobody sent.
- `MessageValue::write` does not give the first page the sequence id, so a value in a SUBSCRIBE response with another id than 0 cannot be
  merged (`Pages.ValuePagesComplete`). A SET request hides this, because it writes no sequence id at all (`SetPagesComplete`).
- Adding a byte header after the size was computed leaves the cached size short (`Messages.MessageObject.SetHeader`).
- `DynamicHeader::parse` does not know AUDIT_LOG and ERROR_DETAIL (`Codec.CodecRoundTrip`).
- `write_loop` offers later list messages the rest of the buffer, which may exceed the protocol's message limit
  (`ListStream.LimitExact`). A list stream is not listed again after a message, although entries are left over exactly when they did
  not all fit, and a first entry that does not fit goes out, or not, by a size remembered from an earlier message
  (`ListStream.OutgoingListStream.Drain`, `GetNextMessage`).
- A list response whose last entry removes the empty key loses that entry (`ListBody.BodyRoundTrip`), and listeners are not told of
  keys that a refresh under status INITIALIZING removed (`ListSync.ListMerger.NewListResponse`).
- `needUpdateOnChange` misses raises (`Options.ChangeShortcut`, `NodeStates.RaiseUnnoticed`), and `SubscribeMerger::subscribe` requests the
  new options instead of the merged ones (`SubscribeMergers.SubscribeMerger.Subscribe`).
- `url_encode_node_name` leaves `"`, `|` and, where `char` is signed, all bytes from 0x80 on, which `invalid_name` rejects
  (`Paths.EncodedNameValid`). The comment above the SAFE table calls `"` and `|` unsafe; the table says otherwise and is what is modelled.
- `receive_message` passes on the ack id of an ACK message, which is always 0, instead of the id it acknowledges
  (`src/sdk/core/session.cc:182`, `src/sdk/message/static_headers.cc:18-22`). So no callback is called before the oldest one waiting has
  number 2^32 - 2^28 (`Acks.ZeroReleasesNone`, `AckWindow.ReceiveAck`); the window itself is stated for `check_pending_acks`.
- `connected` runs write_loop without waiting for an earlier one (the question is asked in the source, `src/sdk/core/session.cc:75`), and
  the requests of surviving streams have scheduled another one by then. From then on a loop may fill the buffer that the socket is still
  reading. `Sessions.Session.Connected` says exactly when, `RunInjected` when bytes are spoilt, `LateCompletionOverlaps` is such a run; the
  results about the wire are for sessions on which it has not happened.
- A role that was resolved before the role it names was added with the action add-role remembers the default role and goes on with it
  (`Permissions.RoleRoot.AddNamedRole`, `AddRole`).
- A subscriber with a negative queue size looks like no subscriber at all (`Options.JoinInvalid`), and can make the removal shortcut wrong
  (`RemovalExact`).

## Model

| member | source | states |
|---|---|---|
| Pages.SplitPages | src/sdk/variant/msgpack.cc:215-236 | the loop of split_pages yields exactly the first page asked for and then full pages with one rest |
| Pages.JoinPages | src/sdk/variant/msgpack.cc:185-201 | from_msgpack_pages decodes the first-page bytes followed by all page bodies in order |
| Pages.SplitJoin | src/sdk/variant/msgpack.cc:185-236 | joining the pages of any value gives the value back; no page exceeds the page size and all but the last have exactly the size asked for; a value above the page size makes at least two pages |
| Pages.InvokePagesComplete | src/sdk/message/request/invoke_request_message.cc:25-47 | set_value makes one complete page group with the sequence id given, none for a single page, whose bodies join to the value |
| Pages.PagesStamped | src/sdk/message/message_value.cc:54-101 | every message made of a value accounts for its own body and headers and keeps its own creation time |
| Pages.ValuePagesRoundTrip | src/sdk/message/message_value.cc:20-101 | what MessageValue::write lays out over its pages, parse reads back as the same meta data and value; writing fails exactly for oversized meta data |
| Pages.ParseExact | src/sdk/message/message_value.cc:20-53 | parsing succeeds exactly when the first page begins with a whole block of meta data, and only with what would be laid out as these bytes |
| Pages.ValuePagesComplete | src/sdk/message/message_value.cc:69-101 | the pages of a SUBSCRIBE response form a group that can be merged exactly when the value fits one message, or the sequence id is 0 and there is a second page, because the first page never gets the sequence id |
| Pages.SetPagesComplete | src/sdk/message/request/set_request_message_generated.cc:60-92 | the pages of a SET request, which writes no sequence id, arrive as one group for every id, exactly except when the meta data fills the first page and the value no second one |
| PageObjects.LinkPages | src/sdk/message/request/invoke_request_message.cc:32-41 | the linking loop makes a chain of distinct messages with page numbers 1, 2, ... behind the first one |
| PageObjects.SetValue | src/sdk/message/request/invoke_request_message.cc:25-47 | set_value produces a linked chain holding the specified pages |
| PageObjects.GetValue | src/sdk/message/request/invoke_request_message.cc:48-61 | get_value walks a linked chain to its end and joins all bodies |
| PageObjects.SetThenGet | src/sdk/message/request/invoke_request_message.cc:25-61 | get_value of what set_value built is the value, for every value |
| PageObjects.WriteValue | src/sdk/message/message_value.cc:54-101 | MessageValue::write builds exactly the specified chain, or fails exactly when the specification does |
| PageObjects.ParseMessage | src/sdk/message/message_value.cc:20-53 | MessageValue::parse over a linked chain splits off the meta data and joins the rest with all linked bodies |
| PageObjects.OutgoingPages.constructor | src/sdk/message/message_page_group.cc:7-22 | the constructor counts the pages already linked and sums their sizes |
| PageObjects.OutgoingPages.CheckAdd | src/sdk/message/message_page_group.cc:31-43 | check_add takes exactly the next page of its own group, adds its size, and otherwise changes nothing; the group takes the creation time of a page that comes when all others are gone |
| PageObjects.OutgoingPages.RemoveNextSend | src/sdk/message/message_page_group.cc:45-57 | remove_next_send takes the first unsent page, keeps the remaining size equal to the sum over the unsent pages, and dates the group to the page that is next |
| PageObjects.IncomingPagesMerger.CheckMerge | src/sdk/message/message_page_group.cc:72-81 | check_merge links exactly the expected page behind the last one, and reports a finished or foreign group |
| PageObjects.PageReceiver.Merge | src/sdk/message/message_page_group.h:58-68 | the static check_merge on objects does what the specification Receiver.Merge says, and keeps the cached chain linked |
| PageObjects.PageReceiver.FirstPage | src/sdk/message/message_page_group.h:91-119 | get_first_page releases the cached first page with its whole linked chain exactly when the last page has come |
| PageObjects.PageReceiver.Receive | src/sdk/message/message_page_group.h:44-120 | one arriving message through merger, cache and get_value on objects refines the receiver on values |
| Receiver.ReceiveGroup | src/sdk/message/message_page_group.h:44-120 | a group that does not follow an abandoned one with its id is released once, whole, with its last page if it is complete, and not at all if it stops early |
| Receiver.ReceiveGroups | src/sdk/message/message_page_group.h:44-120 | what comes out of any sequence of whole and abandoned groups, whatever their sequence ids: group by group, with the abandoned one that is stuck in the cache |
| Receiver.MergerTakes | src/sdk/message/message_page_group.cc:72-81 | the merger takes the next page of its own group and none else, and the cached chain grows by it when it is the chain of that group; it ends with its last page or with a page of another group |
| Receiver.OutcomeExact | src/sdk/message/message_page_group.h:91-119 | exactly the complete groups come out, each once and in order, if and only if no group is disturbed by an abandoned one with its id |
| Receiver.SameIdLost | src/sdk/message/message_page_group.h:91-119 | behind an abandoned group, nothing of a group with the same id comes out before a page numbered at least like the last page of the abandoned one; at that page the abandoned one comes out, truncated |
| Receiver.AbandonedThenComplete | src/sdk/message/message_page_group.h:91-119 | a complete group behind an abandoned one on the same rid comes out, whole, if and only if its sequence id differs |
| Receiver.SingleLost | src/sdk/message/message_page_group.h:91-119 | a message without pages that carries the id of an abandoned group is swallowed, and the receiver stays stuck |
| Receiver.ForeignPage | src/sdk/message/message_page_group.h:91-119 | a later page of another group empties the cache: nothing comes out, and what follows is received as if nothing had been cached |
| QueueProofs.PurgeKept | src/sdk/stream/message_io_stream.cc:89-107 | purge keeps the accounting, the order and the newest element, and accounts for every message it drops |
| QueueProofs.DropOldExact | src/sdk/stream/responder/outgoing_subscribe_stream.cc:35-48 | the time check drops exactly the leading elements older than the window |
| QueueProofs.TimeCheckEmptiesExact | src/sdk/stream/responder/outgoing_subscribe_stream.cc:35-48 | the time check empties a non-empty queue exactly when it belongs to a subscription, has two elements or more, and all are too old |
| QueueProofs.DropBigExact | src/sdk/stream/responder/outgoing_subscribe_stream.cc:49-79 | the size check drops the shortest non-empty prefix that brings the size down, and never the newest element |
| QueueProofs.CheckQueueKept | src/sdk/stream/message_io_stream.cc:173-180 | both checks at the end of send_message keep invariant, order and conservation when they do not drop the group that waits for pages, and the newest element unless the time check empties the queue |
| QueueProofs.CheckQueueExact | src/sdk/stream/message_io_stream.cc:173-180 | the queue is consistent after both checks exactly when they did not drop the group that still waits for pages; when they did, the deque is empty |
| QueueProofs.OfferInv | src/sdk/stream/message_io_stream.cc:111-171 | accepting a message, extending the waiting group, or abandoning it keeps the invariant; every message is queued or dropped exactly once |
| QueueProofs.TakeInv | src/sdk/stream/message_io_stream.cc:207-232 | get_next_message takes exactly the first message of the queue content and keeps the invariant |
| QueueProofs.PeekKept | src/sdk/stream/message_io_stream.cc:187-206 | peek only evicts whole elements, reports the size of the message that would be taken, and reports 0 exactly when nothing can be taken |
| QueueProofs.PeekFailsExact | src/sdk/stream/message_io_stream.cc:187-206 | peek reads the front of an empty deque exactly when its time check runs and empties the queue |
| QueueTimes.ArrivalDated | src/sdk/stream/message_io_stream.cc:137-171 | for the time check a new message is as old as its creation, and a new group as its arrival |
| QueueTimes.PageDated | src/sdk/message/message_page_group.cc:31-43 | a page that joins the waiting group changes its date only when all pages before it are gone, and then to its own creation |
| QueueTimes.TakenDated | src/sdk/message/message_page_group.cc:45-57 | after get_next_message a group with a page left, and the queue with it, is as old as that page; without one its date stays |
| QueueTimes.TakeTime | src/sdk/stream/message_io_stream.cc:226-230 | after get_next_message the time of the queue is the date of its first element |
| QueueTimes.OfferTime | src/sdk/stream/message_io_stream.cc:160-169 | a message that arrives sets the time of the queue exactly when it finds it empty |
| QueueTimes.NextPageDated | src/sdk/stream/message_io_stream.cc:82-232 | over every run: a group of which some pages left is as old as the page that goes out next |
| QueueTimes.HalfSentPeek | src/sdk/stream/message_io_stream.cc:187-206 | once a page was taken, no peek drops anything while the next page is inside the window; of a subscription with anything queued behind, it drops the rest of the group exactly when that page is not |
| QueueRun.StepKeeps | src/sdk/stream/message_io_stream.cc:82-232 | every event keeps: accounting, a waiting group only at the back or outside an empty deque, order, conservation, whole groups on the wire |
| QueueRun.RunHistory | src/sdk/stream/message_io_stream.cc:89-232 | over every run: handed over then queued messages are an in-order subsequence of the accepted ones; each accepted one is handed over, queued or evicted exactly once; groups are never interleaved |
| QueueRun.RunBlocks | src/sdk/stream/message_io_stream.cc:111-232 | over every run: the accepted messages are a row of groups, one for each element the queue ever had, and every group handed over is a prefix of one of them, in order and each at most once |
| QueueRun.RunComplete | src/sdk/stream/message_io_stream.cc:89-232 | with no eviction and nothing left, exactly the accepted messages were handed over, in order |
| Witnesses.PurgedRun | src/sdk/stream/message_io_stream.cc:89-107 | a possible run with the limits and the sequence id the source starts with: two of three pages are handed over, the purge drops the rest, and another value of three pages follows |
| Witnesses.TruncatedValue | src/sdk/message/message_page_group.h:91-119 | of that run the receiver delivers one value, the first two pages joined, which nobody sent |
| Witnesses.EmptiedSubscription | src/sdk/stream/message_io_stream.cc:187-206 | two updates and a pause longer than the queue keeps them lead to the peek that reads the front of an empty deque |
| Witnesses.VanishedValue | src/sdk/stream/message_io_stream.cc:111-180 | an update, the first of three pages, and the other two after a pause: the check drops the waiting group, the third page completes a group outside the deque, and the value is never sent although its last page is counted |
| QueueStream.MessageQueueStream.Purge | src/sdk/stream/message_io_stream.cc:89-107 | purge on the deque of objects does what the specification does |
| QueueStream.MessageQueueStream.DropOld | src/sdk/stream/responder/outgoing_subscribe_stream.cc:35-48 | the loop of check_queue_time on objects does what the specification does |
| QueueStream.MessageQueueStream.DropBig | src/sdk/stream/responder/outgoing_subscribe_stream.cc:49-79 | the loop of check_queue_size on objects does what the specification does |
| QueueStream.MessageQueueStream.SendMessage | src/sdk/stream/message_io_stream.cc:111-185 | send_message on objects and shared page links does what the state machine does, also while it waits for a group that a time check dropped, and asks the session to be written exactly when it reaches the checks |
| QueueStream.MessageQueueStream.PeekNextMessageSize | src/sdk/stream/message_io_stream.cc:187-206 | peek_next_message_size on objects does what the state machine does |
| QueueStream.MessageQueueStream.GetNextMessage | src/sdk/stream/message_io_stream.cc:207-232 | get_next_message on objects hands over the message the specification hands over, dates the queue to its first element and a group to its next page, and asks to be written again exactly while anything is queued |
| QueueStream.MessageQueueStream.SetOptions | src/sdk/stream/responder/outgoing_subscribe_stream.cc:81-94 | set_options replaces zero or negative limits by the defaults and runs both checks, whatever they drop |
| Pipeline.EndToEnd | src/sdk/stream/message_io_stream.cc:89-232 | over every run of the queue, whatever is evicted and whatever the sequence ids: what the receiver delivers; exactly the values of the groups handed over whole, in order, if and only if none is disturbed by an abandoned one |
| Pipeline.FreshRunUndisturbed | src/sdk/stream/message_io_stream.cc:89-232 | over every run, group starts whose sequence ids no later start uses are enough for that |
| Pipeline.DeliveredInOrder | src/sdk/stream/message_io_stream.cc:89-232 | the delivered values are an in-order subsequence of the values sent: nothing corrupted, duplicated or reordered, whatever was evicted from the queue or abandoned while it arrived, as long as no group is disturbed |
| Pipeline.PipelineIdentity | src/sdk/stream/message_io_stream.cc:89-232 | with no eviction and nothing left, the delivered values are the values sent, whatever the sequence ids |
| Pipeline.SetValuePipeline | src/sdk/message/request/invoke_request_message.cc:25-61 | from set_value to get_value with no eviction and nothing left: every value arrives exactly once and in order, with any sequence ids, header sizes and creation times |
| Pipeline.SetValueInOrder | src/sdk/message/request/invoke_request_message.cc:25-61 | from set_value to get_value over every run with fresh sequence ids, or otherwise without a disturbed group: values arrive unchanged, in order and at most once |
| GentleRuns.ChecksSpareExact | src/sdk/stream/message_io_stream.cc:173-180 | both checks leave a partly sent group at the front exactly when purge finds fewer than four elements, no size check has anything to drop, and the first element is inside the window of the time check |
| GentleRuns.GentleDelivery | src/sdk/stream/message_io_stream.cc:89-232 | over every run whose events, told from the queue before each of them, evict no partly sent group (and start none that claims to have a single page): all groups handed over but the last are complete, no group is disturbed, and exactly the values of the complete ones come out, in order, whatever the sequence ids |
| GentleRuns.GentleValues | src/sdk/message/request/invoke_request_message.cc:25-61 | from set_value to get_value on every such run, with any ids: values arrive unchanged, in order and at most once |
| GentleRuns.GentleIdentity | src/sdk/stream/message_io_stream.cc:89-232 | on every such run that has drained, whatever whole groups were evicted: each group handed over is the whole of one accepted, its value comes out, and only evicted messages are missing |
| Framing.CutConcat | src/sdk/network/base_socket_connection.cc:23-97 | parsing in two reads equals parsing at once, for all bytes |
| Framing.CutCharacterised | src/sdk/network/base_socket_connection.cc:38-84 | delivered frames follow each other without gaps from the first byte; what stands behind them is an incomplete frame, a frame that closes the connection, or a zero size |
| Framing.CutConcatenation | src/sdk/network/base_socket_connection.cc:38-84 | a concatenation of well-formed frames is cut back into exactly these frames |
| Framing.CutPrefix | src/sdk/network/base_socket_connection.cc:38-84 | after any prefix of such a concatenation, exactly the complete frames are delivered and the rest is retained |
| Framing.ChunkingIndependence | src/sdk/network/base_socket_connection.cc:23-97 | for every byte string and every split into chunks the outcome is that of the one-shot parser |
| Framing.FrameReader.StartRead | src/sdk/network/tcp/tcp_connection.cc:23-39 | the partial frame moves to the front unchanged, the buffer grows by four exactly when it is more than half used and below the limit, and there is room for at least one byte |
| Framing.FrameReader.ReadLoop | src/sdk/network/base_socket_connection.cc:23-97 | the frame loop delivers what the one-shot parser delivers and retains exactly the incomplete frame |
| Framing.FrameReader.OnRead | src/sdk/network/tcp/tcp_connection.cc:23-39 | after every read, the frames delivered over the whole run are those of the one-shot parser on everything received |
| Framing.WriteBuffer.Add | src/sdk/network/tcp/tcp_connection.cc:49-62 | add appends the frame; the buffer grows by factors of four, no further than the frame needs, within the three buffer sizes; the size guard is never reached from write_loop |
| Bytes.Get32Put32 | src/sdk/util/little_endian.h:66-86 | reading a written 32-bit field gives the value back |
| Bytes.Get16Put16 | src/sdk/util/little_endian.h:66-86 | reading a written 16-bit field gives the value modulo 2^16 |
| Codec.HeaderRoundTrip | src/sdk/message/dynamic_header.cc:18-115 | a written dynamic header parses back to itself, whatever follows it, exactly when its key is known to the parser |
| Codec.SizePrediction | src/sdk/message/request/invoke_request_message_generated.cc:72-157 | update_static_header predicts the number of bytes written |
| Codec.EncodedFrame | src/sdk/message/static_headers.cc:41-64 | the first field of an encoded message is its length, within the limits |
| Codec.CodecRoundTrip | src/sdk/message/dynamic_header.cc:18-115 | parsing what write produced gives headers, rid, ack id and body back exactly when neither AUDIT_LOG nor ERROR_DETAIL is present; otherwise parsing fails |
| Codec.WrittenFrame | src/sdk/message/static_headers.cc:41-64 | every message, also ACK, PING and CLOSE_REQUEST, is written as a frame of its predicted size with that size in front |
| Codec.WrittenReads | src/sdk/message/message_factory.cc:22-66 | every message reads back as what was written exactly when the parser knows its headers; an ACK and a PING lose the ids they were written under |
| WireFormat.BuildableExact | src/sdk/message/request/subscribe_request_message_generated.cc:15-124 | the messages of which nothing is lost on the wire are exactly those with the fields of their class, as a table of types, keys and kinds lists them, and a body only where the class has one |
| WireFormat.FieldsRoundTrip | src/sdk/message/request/subscribe_request_message_generated.cc:15-124 | every field that a class can hold reads back as it was written, and so does the body; a message with AUDIT_LOG or ERROR_DETAIL is refused |
| WireFormat.AnyOrder | src/sdk/message/request/invoke_request_message_generated.cc:35-70 | the header block may come in any order and with repetitions, of which the last counts, and is refused exactly when one header does not belong to the type or is unknown to the parser |
| WireFormat.DecodeSound | src/sdk/message/message_factory.cc:22-66 | whatever the bytes: what the parser makes of them has only fields of its class, the type, rid and ack id at their places, and the rest of the frame as the body where there is one |
| WireFormat.OtherTypeRefused | src/sdk/message/message_factory.cc:22-66 | a frame of any type but the nine, ACK and PING is refused |
| WireFormat.ShortReads | src/sdk/message/message_factory.cc:22-66 | an ACK and a PING are told by their type alone, whatever stands behind them, and an ACK without its number is refused |
| WireFormat.FrameBytes | src/sdk/message/static_headers.cc:41-64 | every byte of an encoded message: sizes, type number, rid, ack id, then the fields in the order of their class by their numbers, then the body |
| WireFormat.ShortBytes | src/sdk/message/static_headers.cc:41-64 | every byte of an ACK and a PING |
| Messages.ParseDynamicData | src/sdk/message/request/invoke_request_message_generated.cc:35-70 | the parse loop computes the reference parse of the header block |
| Messages.FlagCoversLengthChange | src/sdk/message/dynamic_header.h:74-180 | write_value reports every change of length except the addition of a byte header, and removing a flag reports every change |
| Messages.WriteThenRead | src/sdk/message/dynamic_header.h:68-180 | what write_value was given is what read_value gives back, for every class of header; the field is absent exactly for 0, the empty string and false; every other field is unchanged |
| Messages.MessageObject.UpdateStaticHeader | src/sdk/message/request/subscribe_request_message_generated.cc:94-124 | the loop over the fields computes the exact header and message size |
| Messages.MessageObject.Size | src/sdk/message/base_message.cc:43-48 | the cached size is right whenever it was right or invalidated before |
| Messages.MessageObject.SetHeader | src/sdk/message/base_message.cc:65-76 | every setter is read back by its getter, leaves every other field alone, and keeps the cached size right, exactly except adding a byte header after the size was computed |
| Messages.MessageObject.SetFlag | src/sdk/message/dynamic_header.h:155-180 | setting or clearing a flag is read back, leaves every other field alone, and keeps the cached size right |
| Messages.MessageObject.Write | src/sdk/message/base_message.cc:55-63 | write fails exactly without a computed size; with a right one it stores the encoding and nothing else |
| Messages.MessageObject.WriteDynamicData | src/sdk/message/response/subscribe_response_message_generated.cc:45-65 | header fields in their order, then the body, and no other byte of the buffer changes |
| Streams.PeekFacts | src/sdk/stream/message_io_stream.cc:61-206 | a peek reports a size exactly when there is a message, the size of that message; a second peek at the same time changes nothing; a peek never silences a stream |
| Streams.TakeFacts | src/sdk/stream/message_io_stream.cc:68-232 | get_next_message removes just the peeked message, a stream with more to send asks to be written again, and a closing message leaves a stream that is closed, destroyed and empty |
| Streams.QueueSentFacts | src/sdk/stream/message_io_stream.cc:111-185 | a message that does not make its stream ask to be written adds nothing to send |
| Streams.AsksExact | src/sdk/stream/message_io_stream.cc:111-185 | a message makes its stream ask to be written exactly when it is let in: not when the stream is closed, and not when it is a later page that does not continue the waiting group |
| Sessions.Session.NoLostWakeup | src/sdk/core/session.cc:222-294 | in every reachable state, connected with something to send, a write_loop is scheduled or a write is under way |
| Sessions.Session.HandedOver | src/sdk/core/session.cc:244-262 | in every reachable state: what a stream handed over went to earlier connections or is part of what was sent on this one, in order and under its rid, and it is what the history of the stream tells |
| Sessions.Session.SentWasGiven | src/sdk/core/session.cc:244-262 | whatever was sent on this connection was given to a stream with its rid |
| Histories.PeekedRemembers | src/sdk/stream/message_io_stream.cc:187-206 | a peek continues the history of its stream, and gives and takes nothing |
| Histories.HandingRemembers | src/sdk/stream/message_io_stream.cc:207-232 | get_next_message continues the history of its stream by exactly the message it returns |
| Histories.QueueGivenRemembers | src/sdk/stream/message_io_stream.cc:111-185 | send_message continues the history of a queue stream by the messages it lets in |
| Histories.HandedGiven | src/sdk/stream/message_io_stream.cc:50-75 | no stream of any kind hands over a message that it was not given |
| Histories.FewKept | src/sdk/stream/message_io_stream.cc:89-107 | a stream that purges and was given at most two whole values evicts nothing, whatever its session does |
| Sessions.Session.WriteStream | src/sdk/core/session.cc:274-283 | write_stream lists the stream and schedules a write_loop unless one is under way |
| Sessions.Session.WriteCriticalStream | src/sdk/core/session.cc:285-294 | the same at the front of the list |
| Sessions.Session.PeekNextMessage | src/sdk/core/session.cc:209-220 | peek_next_message takes streams off the front of the list, only such with nothing to send, and answers 0 only when no stream has anything |
| Sessions.Session.GetNextReadyStream | src/sdk/core/session.cc:197-207 | after a successful peek it returns the peeked stream, unchanged: never a null stream |
| Sessions.Session.GetNextMessage | src/sdk/stream/message_io_stream.cc:207-232 | the message leaves the stream, which is listed again exactly when more is queued; after a closing message the stream is destroyed and in neither map of the session, and all other registrations stay |
| Sessions.Session.SendNext | src/sdk/core/session.cc:244-262 | one round of the loop writes exactly the peeked message of the first stream, under the next ack id, as one frame, registers its ack callback, and unregisters the stream if the message closes it |
| Sessions.Session.WriteLoop | src/sdk/core/session.cc:222-272 | with anything to send at least one message is written and the loop comes again; the next message would not fit the buffer or there is none; what is written is what the streams hand over meanwhile, in order; exactly the streams whose closing message was written leave the maps; _is_writing is given up only without a connection or with an empty list; acknowledgement ids count up |
| Sessions.Session.RunInjected | src/sdk/core/session.cc:265-271 | the injected write_loop keeps the wakeup invariant and the record of what was sent; it spoils a write under way exactly when it sends something meanwhile; in order it never does, and stays in order |
| Sessions.Session.WriteCompleted | src/sdk/core/session.cc:265-271 | a completed write, on this connection or an earlier one, schedules the next round |
| Sessions.Session.SendToQueue | src/sdk/stream/message_io_stream.cc:111-185 | the stream does what the state machine does, is listed exactly when it asks and is not listed yet, a write_loop is scheduled exactly when none is under way, and the history of the stream goes on |
| Sessions.Session.SendToCache | src/sdk/stream/message_io_stream.cc:50-59 | send_message of a cache stream replaces the cached message and lists the stream |
| Sessions.Session.Disconnected | src/sdk/core/session.cc:100-112 | what remains is the subscriptions and lists asked for by this side, untouched and none marked as writing; all other registered streams are destroyed; writes under way are left to complete later |
| Sessions.Session.RequesterDisconnected | src/sdk/requester/requester.cc:16-25 | the loop over the incoming streams: survivors stay untouched but not writing, the others are destroyed |
| Sessions.Session.Reconnect | src/sdk/stream/requester/incoming_subscribe_stream.cc:68-72 | exactly the surviving open streams that are not listed get their request cached and are listed; afterwards every surviving open one has something waiting to be written; another write_loop is scheduled exactly when one of them asks and none was under way |
| Sessions.Session.Connected | src/sdk/core/session.cc:61-99 | a new connection starts writing at once if a surviving stream is open, and the wakeup invariant holds; the write loops are in order afterwards exactly when none was still to come and no surviving stream asks |
| Sessions.LateCompletionOverlaps | src/sdk/core/session.cc:75-76 | a concrete run on which a late completion makes write_loop fill the buffer that the socket is still reading |
| Sessions.Session.SendFixed | src/sdk/stream/ack_stream.cc:18-23 | add_ack replaces the number in the one message of its stream and lists the stream |
| Transport.WriteThenRead | src/sdk/core/session.cc:222-272 | any messages within the limit, encoded and batched, read in any chunks, arrive as the same messages in order with their rids and ack ids |
| Transport.SessionWireReads | src/sdk/core/session.cc:222-272 | what a session wrote to its connection decodes to what it sent, unless writes overlapped |
| Transport.EncoderWritable | src/sdk/message/base_message.cc:43-63 | write stores what the session accounts for a message exactly when that is the size predicted for it, within the limit |
| Transport.SendInvoke | src/sdk/core/session.cc:222-272 | a session that has sent this INVOKE request, and nothing else, meets the conditions of SessionWireReads |
| Delivery.DeliverLike | src/sdk/message/message_page_group.h:44-120 | what the receiver delivers depends on rid, sequence id, page id and body of the messages only |
| Delivery.SetCarries | src/sdk/message/request/set_request_message_generated.cc:60-92 | a page in a SET request arrives without its sequence id |
| Delivery.StreamToValues | src/sdk/core/session.cc:222-272 | of one queue stream of any session, for every chunking of what the session wrote: what comes out of get_value is what the receiver makes of the messages that the run of the stream handed over |
| Delivery.ValueToValue | src/sdk/core/session.cc:222-272 | from set_value on one stream of a session to get_value behind the parser at the other end, among the messages of all other streams and for every chunking: values unchanged, in order, at most once, when no partly sent group was evicted, or the ids are fresh, or no group is disturbed; all of them when nothing was evicted and the queue drained |
| OneValue.SendValue | src/sdk/core/session.cc:222-272 | set_value, send_message on an invoke stream, connect, and write loops until nothing is left: for every value of up to 2^31 pages, every rid and sequence id and every chunking, exactly the value comes out at the other end |
| Acks.ReleaseExact | src/sdk/core/session.cc:161-172 | when exactly the unsigned 32-bit difference releases a holder, for wrapped counters |
| Acks.WindowExact | src/sdk/core/session.cc:161-172 | with fewer than 2^28 messages outstanding, an acknowledgement releases exactly the holders sent no later; a stale one releases none |
| Acks.WindowOverrun | src/sdk/core/session.cc:161-172 | acknowledging the newest message releases nothing exactly when 2^28 or more were sent since the oldest holder |
| Acks.ZeroReleasesExact | src/sdk/core/session.cc:161-187 | the id 0 that every ACK passes on releases a holder exactly when the counter is within 2^28 of coming round |
| Acks.ZeroReleasesNone | src/sdk/core/session.cc:161-187 | so an ACK releases nothing exactly until the oldest holder has number 2^32 - 2^28 |
| Acks.AckWindow.Sent | src/sdk/core/session.cc:250-254 | messages are numbered consecutively, with wraparound, and callbacks are stored in order |
| Acks.AckWindow.CheckPendingAcks | src/sdk/core/session.cc:161-172 | the loop fires exactly the released callbacks, in order; over every run fired and waiting callbacks are the registered ones, each once |
| Acks.AckWindow.ReceiveAck | src/sdk/core/session.cc:181-184 | a received ACK, whatever it acknowledges, releases what the id 0 releases: no callback until then |
| ListBody.ParseMapTo | src/sdk/message/response/list_response_message.cc:40-65 | the loop of parse_map_to computes the reference parse |
| ListBody.BodyRoundTrip | src/sdk/message/response/list_response_message.cc:40-65 | the reader gets exactly the written entries, unless the last one is the removal of the empty key |
| ListBody.BrokenOff | src/sdk/message/response/list_response_message.cc:40-65 | of a body cut off anywhere, the reader gets exactly the entries that are whole, but when the length of a value is cut off or in two, where the source reads behind the body |
| ListStream.FittingExact | src/sdk/stream/responder/outgoing_list_stream.cc:66-79 | the entries counted fit, and one more would not |
| ListStream.LimitExact | src/sdk/stream/responder/outgoing_list_stream.cc:50-82 | list messages respect the protocol limit for every pending map exactly when the room offered does |
| ListStream.HeadersRead | src/sdk/stream/responder/outgoing_list_stream.cc:83-101 | the receiver reads the status, the refresh flag and the path that were pending, and no other field |
| ListStream.OutgoingListStream.PeekNextMessageSize | src/sdk/stream/responder/outgoing_list_stream.cc:50-82 | the announced size is the headers plus the entries that fit; a first entry that does not fit is announced and not remembered |
| ListStream.OutgoingListStream.GetNextMessage | src/sdk/stream/responder/outgoing_list_stream.cc:83-125 | the message carries the status, refresh and path headers that were pending and exactly the entries that fit the remembered size; a remembered size below the headers fails after the flags were cleared |
| ListStream.OutgoingListStream.Drain | src/sdk/stream/responder/outgoing_list_stream.cc:50-125 | peek, test against the room, second peek and get: announced size, message size and room agree; counted entries are the drained ones; at least one leaves; entries stay behind exactly when not all fit; with a first entry that does not fit an old size decides |
| ListStream.OutgoingListStream.UpdateListValue | src/sdk/stream/responder/outgoing_list_stream.cc:28-32 | the pending table afterwards is the old one with this key replaced or inserted, each key once, for any iteration order of the hash table |
| ListStream.OutgoingListStream.UpdateListRefreshed | src/sdk/stream/responder/outgoing_list_stream.cc:40-43 | a refresh drops what is pending and does not ask to be written |
| ListSync.ListMerger.NewListResponse | src/sdk/dslink/list_merger.cc:156-188 | the client map after a response; the listeners are told of everything they have not seen, no key twice, exactly except after a refresh they were not called for |
| ListSync.AppliedTwice | src/sdk/dslink/list_merger.cc:161-172 | two responses act like one with the changes of both |
| ListSync.StepKeeps | src/sdk/stream/responder/outgoing_list_stream.cc:28-125 | each change, refresh, send, delivery and reconnection keeps the two ends coherent |
| ListSync.ListCoherence | src/sdk/stream/responder/outgoing_list_stream.cc:28-125 | over every run: client map overlaid with messages in flight and then with pending changes equals the source; a client with nothing under way agrees with it |
| ListSync.StaleKeyWithoutRefresh | src/sdk/stream/responder/outgoing_list_stream.h:30 | the refresh flag of a new stream is what removes stale keys |
| Options.JoinMore | src/sdk/message/message_options.cc:76-93 | mergeFrom computes the join with one more set of options |
| Options.JoinUnique | src/sdk/message/message_options.cc:76-93 | there is only one join |
| Options.MergeChanges | src/sdk/message/message_options.cc:76-93 | merging reports a change exactly when the new options are not below the merged ones |
| Options.RemovalShortcut | src/sdk/message/message_options.cc:54-63 | when needUpdateOnRemoval says no and no size is negative, the join of the others is the old one |
| Options.RemovalExact | src/sdk/message/message_options.cc:54-63 | for all options: the join stays right exactly unless the removed options alone had queue size 0 as the largest |
| Options.ChangeShortcut | src/sdk/message/message_options.cc:64-74 | when needUpdateOnChange says no, the merged options stay right exactly when the new options do not exceed them |
| Options.ChangeNoticed | src/sdk/message/message_options.cc:64-74 | a change is noticed exactly when the old options attain a merged value in some component and the new ones differ there |
| Options.LoneChange | src/sdk/message/message_options.cc:64-74 | every change of a lone subscriber, raise or not, is noticed |
| Options.RemovalNoticed | src/sdk/message/message_options.cc:54-63 | a removal is noticed exactly when the removed options hold a merged value other than zero in some component |
| Options.JoinInvalid | src/sdk/message/message_options.h:50-51 | the merged options carry the marker for "no subscription" exactly when no subscriber has a non-negative queue size |
| NodeStates.RaiseUnnoticed | src/sdk/message/message_options.cc:64-74 | a concrete raise that is not noticed |
| NodeStates.NodeState.CheckSubscribeOptions | src/sdk/responder/node_state.cc:247-263 | the loop recomputes the join and keeps the model in step |
| NodeStates.NodeState.Subscribe | src/sdk/responder/node_state.cc:265-293 | a new subscriber is merged in, gets the cached value if there is one and nobody else gets anything, and the model is told of changed options |
| NodeStates.NodeState.OptionsChanged | src/sdk/responder/node_state.cc:287-292 | the merged options stay right exactly when the new options do not exceed them or the old ones attain one of them that the new ones do not; a lone subscriber always gets its own; they change only in the second case |
| NodeStates.NodeState.StreamDestroyed | src/sdk/responder/node_state.cc:280-286 | removal keeps the merged options right, recomputed or not, exactly except for one case with negative sizes; they are recomputed exactly when the last one leaves or one that held a maximum |
| NodeStates.NodeState.SetModel | src/sdk/responder/node_state.cc:131-174 | a connected model is subscribed with the merged options exactly when there are any, and its value goes to every subscriber then; what is no model leaves its status |
| NodeStates.NodeState.NewSubscribeResponse | src/sdk/responder/node_state.cc:241-245 | every subscriber gets the value once |
| NodeStates.Model.SetValue | src/sdk/responder/model_base.cc:79-107 | the new value is cached, goes to every subscriber exactly when the model is subscribed, and is then the last one they got |
| NodeStates.NodeState.InStep | src/sdk/responder/node_state.cc:241-294 | without negative sizes: there are subscribers exactly when the connected model is asked to subscribe, with the options merged from theirs, and what it last said is what every subscriber last got |
| SubscribeMergers.SubscribeMerger.Subscribe | src/sdk/dslink/subscribe_merger.cc:61-86 | the merged options are the join, but a request that raises them asks for the merged ones exactly when the new subscriber exceeds all others; the new subscriber gets the cached value at once |
| SubscribeMergers.SubscribeMerger.Remove | src/sdk/dslink/subscribe_merger.cc:124-132 | removal keeps the merged options right and the request in step, and asks again exactly when they change |
| SubscribeMergers.SubscribeMerger.NewSubscribeResponse | src/sdk/dslink/subscribe_merger.cc:88-111 | the value is cached and every subscriber gets it; those that close in their callback are destroyed and leave at the end, and the merged options are right again |
| Permissions.PrefixOrder | src/broker/module/authorizer/permission_nodes.cc:118-127 | of two prefixes of one path the longer is the lexicographically greater |
| Permissions.CoversExact | src/broker/module/authorizer/permission_nodes.cc:118-127 | a rule covers the paths that are equal to it or lie below it, and no path that merely begins with the same characters |
| Permissions.FindRule | src/broker/module/authorizer/permission_nodes.cc:118-127 | the backward search returns the level of the longest rule that equals the path or is a folder above it, and none exactly when none covers it |
| Permissions.ResolveFirst | src/broker/module/authorizer/permission_nodes.cc:118-139 | for every graph of roles and every limit: the answer is that of the first role on the chain that says something, if it is within the limit |
| Permissions.ResolveSilent | src/broker/module/authorizer/permission_nodes.cc:131-138 | if no role within the limit says anything, the answer is no permission |
| Permissions.FirstOfSeventeen | src/broker/module/authorizer/permission_nodes.cc:118-139 | from the limit the source starts with: the answer of the first of at most 17 roles that says something, else no permission |
| Permissions.SilentCycle | src/broker/module/authorizer/permission_nodes.cc:131-138 | if the roles up to the first repetition are silent, so is the whole infinite chain |
| Permissions.RoleNode.GetFallbackRole | src/broker/module/authorizer/permission_nodes.cc:140-159 | caching the fallback role never changes the graph of roles |
| Permissions.RoleNode.GetPermission | src/broker/module/authorizer/permission_nodes.cc:118-139 | the recursion ends on every graph and returns what the specification resolves: the level of the longest covering rule, else the default level, else what the fallback says |
| Permissions.RoleRoot.AddRole | src/broker/module/authorizer/broker_authorizer.cc:149-153 | a role that is added becomes the fallback of the roles that name it, exactly except those that looked for it before and remember the default role |
| Permissions.RoleRoot.AddNamedRole | src/broker/module/authorizer/broker_authorizer.cc:136-154 | add-role adds a role without rules exactly when the name is a valid node name that is not taken |
| UrlEncoding.UrlEncode | src/sdk/util/string_encode.cc:101-124 | the loop stores the encoding and never leaves its buffer of three bytes per input byte |
| UrlEncoding.UrlDecode | src/sdk/util/string_encode.cc:137-171 | both loops together compute the reference decoding |
| UrlEncoding.EncodeSize | src/sdk/util/string_encode.cc:101-124 | the output is at most three times the input |
| UrlEncoding.EncodedAll | src/sdk/util/string_encode.cc:38-64 | which bytes stand for themselves at each level, written out as letters, digits and symbols; each other one becomes a percent sign and two upper-case digits |
| UrlEncoding.DecodedEscape | src/sdk/util/string_encode.cc:137-171 | a percent sign with two digits of either case stands for their byte |
| UrlEncoding.DecodedPlain | src/sdk/util/string_encode.cc:137-171 | every other byte stands for itself |
| UrlEncoding.UrlRoundTrip | src/sdk/util/string_encode.cc:101-171 | decoding undoes encoding at every level, for every byte string |
| Paths.InvalidName | src/sdk/util/path.cc:9-42 | the loop rejects exactly the names outside the declarative description |
| Paths.PlainName | src/sdk/util/path.cc:9-42 | a name without a percent sign is valid exactly when it is not empty, not . or .., does not begin with @ or $ unless it is metadata, and has none of the forbidden characters |
| Paths.EscapedName | src/sdk/util/path.cc:9-42 | a percent sign is accepted exactly in front of two digits |
| Paths.EncodedNameValid | src/sdk/util/string_encode.cc:134-136 | when exactly url_encode_node_name gives a name that invalid_name accepts |
| Paths.ParsePath | src/sdk/util/path.cc:44-71 | the constructor loop finds exactly the parts up to the first invalid one |
| Paths.JoinSplit | src/sdk/util/path.cc:44-80 | joining the parts of any string gives it back |
| Paths.SplitJoin | src/sdk/util/path.cc:44-80 | splitting joined parts gives them back |
| Paths.NamesRoundTrip | src/sdk/util/path.cc:44-80 | valid names joined and parsed are the same path |
| Paths.StringRoundTrip | src/sdk/util/path.cc:44-80 | a string is a valid path exactly when it is empty or all its parts are valid names, and then it is rebuilt from its names |
| Paths.ParentOfChild | src/sdk/util/path.cc:96-113 | the parent of a child is the path one started from |
| Paths.ParentIs | src/sdk/util/path.cc:96-113 | the parent of a path is the path without its last name, and none of the root or an invalid one |

## Left out

- Sockets, TLS, websockets, strands and timers: a read is an arriving chunk, a write is a later completion, time is a parameter.
- Handshake, ECDH, HMAC, base64 and the F0 to F3 messages: their meaning lies in libraries that cannot be seen here.
- msgpack and JSON encoding of `Var`: values are opaque byte strings, so a null body and an empty one are the same.
- Frames too short for the static headers of their type, and header sizes below the static header: the source reads outside the frame;
  the codec reports an error.
- Queue sizes and the ack counter in 32 bits: queue sizes are unbounded integers (the source overflows an `int32_t` above 2 GB in one
  queue); the ack counter wraps around, which the source leaves undefined for signed overflow.
- Sessions.Session: models queue, cache and fixed streams; list streams are proved by themselves in `ListStream`, because they do not list
  themselves again after a partial drain and so have no wakeup guarantee. A queue stream is represented there by the state that
  `QueueStream` refines, so page objects shared between streams are not part of the scheduler model.
- Sessions.Session.WriteLoop: assumes that the newest element of each subscription queue is within its time window, the condition under which
  the source is defined.
- Sessions.Session.MakeCritical: for queue streams only, which is how the source uses it.
- QueueStream.MessageQueueStream.GetNextMessage: says of a closing message that the stream is cleared and destroyed, not what the session's
  maps look like afterwards; that is in `Sessions.Session.GetNextMessage`.
- Delivery.ValueToValue: for a stream that handed nothing to earlier connections and on which writes did not overlap; the receiver starts idle.
- Sending with `close` to a stream that is already destroyed: the source follows a session reference that is gone.
- ListSync.ListCoherence: for non-empty keys and lengths below 2^16; longer ones are cut to 16 bits by the writer. Safety only: that a
  pending change is eventually sent is not claimed.
- NodeStates.NodeState.SetModel: the subscription part only; lists, waiting invocations and unavailable children are not modelled, nor is
  `remove_model`, which leaves the model status behind.
- Node tree creation, the state index, remote nodes, V1 sessions, modules, storage, configuration, logging and broker wiring: plumbing, or
  properties that would only add easy members.
- The setter behind the fallback value of a role assigns the old name to itself (`src/broker/module/authorizer/permission_nodes.cc:105`); roles are
  modelled with the fallback name they were loaded with.
- Reference counting, mutexes and the order of destruction: only the destroyed flags that guards read are kept.
