# fms-m verification

A Dafny model of the protocol core of fms-m, an RTMP and RTMFP media server
written in C++, with proofs that hold for every input, every run and every
reachable state. `dafny verify dfyconfig.toml` checks the whole project.

What is modelled, and where:

- **RTMP chunk stream** — `RtmpHeader`, `RtmpParser`, `RtmpWriter`: the resumable
  parser with its per-channel reassembly, and the writer with its four header
  formats and chunk-size changes. Main results: the round trip of any list of
  messages, its exact condition, and independence from how the stream is cut.
- **RTMFP flows** — `IntegerSets`, `SeqManager`, `Vlu`, `RangeAck`, `FragmentStore`,
  `Flow`, `FlowSender`, `FlowObject`, `FlowSession`, `FlowTable`: the sequence manager
  whose gap test is a triangular sum, range acknowledgements on the wire, the send
  queue, ordered reliable delivery over a network that loses, reorders and repeats,
  and the byte accounting over all flows of a session.
- **AMF0 and AMF3** — `U29`, `OrderedKeys`, `AmfValue`, `AmfReader`, `AmfGraph`,
  `AmfRoundTrip`, `AmfExact`, `AmfMessage`, `AmfCodec`: readers over a heap with
  reference tables and completion flags, writers, the round trip and its exact
  condition, acyclicity of everything decoded, and one budget per message.
- **Media routing** — `StreamRegistry`, `RoutingObject`: seven cross-linked maps,
  the handlers that update them, and exact teardown of a connection.
- **Smaller machines** — `SendQueue` (backpressure), `SharedObjects`,
  `SharedRequests` and `SharedRequester` (replication, and requests of several events),
  `Rtmpt` (tunnelled requests out of order), `BitWords` and `ReplayWindow` (anti-replay
  bitmap in a 64-bit word),
  `AckThreshold` (wrapping acknowledgement counters).

Each component is a value state with specification functions, theorems about
those functions over whole runs, and a class or methods with the loops of the
source, proved equal to the functions.

Where the code does not meet the property one expects of it, the model follows the
code, with an example and the exact condition:

- `seq_manager::add_sequences_until` adds the numbers still missing to the sum, so
  after a forward that leaves numbers missing no receipt fires the gap test until a
  later forward leaves none. Safety still holds; the condition
  for exactness is `SeqManager.ExactAfterForwards`, the stall is
  `SeqManager.StalledForGood` and `SeqManager.StallExample`.
- `rtmpt_session::serialize_message` adopts a new chunk size before it frames the
  announcement, `rtmp_connection::serialize_message` after. The sizes at which that
  matters are exactly 1, 2 and 3 (`RtmpWriter.TunnelledExactly`). The only size the
  server itself announces is 4096 (`rtmp_application.cpp:670`), so its own output is
  never misframed.
- `flow::add_and_fragment_data` ignores a refusal by the full queue: the piece is lost
  and its number spent. `FlowSender.SendingFills` is the exact condition.
- `amf0::read_strict_array` wants seven bytes behind its marker, although an empty
  array has four; `AmfExact.RoundTripExactly` is the exact condition.
- The acknowledgement test looks only half the counter's range ahead. Bytes read
  before an application is assigned are harmless as such; the counters go wrong if and
  only if the first read after the assignment is out of reach of the threshold and no
  window message came between
  (`AckThreshold.AcknowledgedThroughout`, `AckThreshold.OutOfReachExample`).
- Every window message restarts the distance to the next acknowledgement, also one that
  repeats the window, so acknowledgements are prompt only counting from the last window
  message (`AckThreshold.AcksPrompt`, `AckThreshold.WindowChangesStarve`).
- `so_manager::handle_so` keeps one replacing reply per request, and the requester reads
  it last. A request with two removals tells its sender of the second only
  (`SharedRequester.TwoRemovals`); one that removes a property and then changes it makes
  its sender drop what the server keeps (`SharedRequester.RemovedThenChanged`); and a use
  after other events is answered before they are (`SharedRequester.OvertakingUse`). The
  exact condition, from the request and the state before it, is
  `SharedRequester.RequesterExactly`; `SharedRequester.RequesterConverges` is a form of
  request that always meets it.
- `so_manager::handle_send_message_event` relays a request whole, so a Clear inside one
  empties the copies of the others (`SharedRequests.OthersExactly`).

Nothing was executed; every claim below is a contract the verifier checks.

## Model

| member | source | states |
|---|---|---|
| `RtmpHeader.ExtendHeader` | rtmp_header.cpp:8-122 | A chunk header once complete reads the same whatever bytes arrive behind it, and its rest is a suffix: the peek-then-commit read is stable |
| `RtmpHeader.ReadsNew` | rtmp_header.cpp:179-217 | The reader undoes the type-0 writer for every channel id 2..65599, timestamp (extended or not), length, type and stream id, whatever the channel held before |
| `RtmpHeader.ReadsSameSource` | rtmp_header.cpp:219-258 | The reader undoes the type-1 writer and adds the delta, extended or not, to the timestamp modulo 2^32 |
| `RtmpHeader.ReadsTimerChange` | rtmp_header.cpp:260-293 | The reader undoes the type-2 writer, keeping length, type and stream id from the channel |
| `RtmpHeader.ReadsContinue` | rtmp_header.cpp:295-331 | A type-3 header reads back whole when the reader expects the extended field exactly when the writer repeats it |
| `RtmpParser.Resume` | rtmp_parser.cpp:11-105 | Parsing a and later the bytes left of a followed by b is parsing a ++ b: same state, same messages; a framing error in a is final |
| `RtmpParser.SplitInvariance` | rtmp_parser.cpp:11-105 | However a byte string is cut into successive parse calls, up to the first framing error the same messages are dispatched and the same state is reached as by one call on the whole |
| `RtmpParser.RunKeepsValid` | rtmp_parser.cpp:11-147 | From any valid state any input leaves at most 4096 channels, each buffering at most 8 MiB, and a chunk size in 1..0xFFFFFF |
| `RtmpParser.FeedKeepsValid` | channel_manager.h:28-61 | The same bounds over every sequence of reads |
| `RtmpParser.Framer.ReadHeader` | rtmp_parser.cpp:26-50 | The header half of the loop updates the channel map, the channel id and the header flag exactly as the header phase says, or blocks with the cursor where it was |
| `RtmpParser.Framer.ReadPayload` | rtmp_parser.cpp:52-98 | The payload half appends to the channel, adjusts the timestamp and completes or not, exactly as the payload phase says |
| `RtmpParser.Framer.DispatchMessage` | rtmp_parser.cpp:107-147 | SetChunkSize changes the framing size, Abort clears the named channel, and the dispatched channel is cleared |
| `RtmpParser.Framer.ParseChunk` | rtmp_parser.cpp:26-98 | One turn of the loop is one step of the specification run |
| `RtmpParser.Framer.Parse` | rtmp_parser.cpp:11-105 | The whole loop: the committed count, the verdict, the dispatched messages and the new state are those of the specification run |
| `RtmpWriter.OneMessage` | rtmp_protocol.cpp:104-158 | One message written by an end in step with the parser is delivered whole, with what follows untouched, and both ends stay in step |
| `RtmpWriter.DispatchSyncs` | rtmp_connection.cpp:327-343 | Completing a message puts its channel back in step, and a SetChunkSize moves both ends to the same size |
| `RtmpWriter.RoundTripFrom` | rtmp_protocol.cpp:104-158 | From any two ends in step, every list of messages is delivered exactly |
| `RtmpWriter.ChunkStreamRoundTrip` | rtmp_header.cpp:124-177 | Every list of messages (ids 2..65599, at most 4096 channels, bodies to 8 MiB, any timestamp and stream id, chunk-size changes in mid-stream) is delivered exactly, with type, channel, stream, timestamp and body |
| `RtmpWriter.SplitRoundTrip` | rtmp_parser.cpp:11-105 | The same when the transport delivers the stream in pieces of any size |
| `RtmpWriter.DeliversOnlyDeliverable` | rtmp_parser.cpp:61-76 | Whatever bytes a peer sends, no message is delivered on an id outside 2..65599 or with a body over 8 MiB |
| `RtmpWriter.RoundTripExactly` | rtmp_connection.cpp:327-343 | For legal chunk sizes, any list of messages is delivered exactly if and only if every message has an addressable id and at most 8 MiB and at most 4096 channels are used |
| `RtmpWriter.DeliversOnFew` | channel_manager.h:51-61 | No input whatever is delivered on more than 4096 channels |
| `RtmpWriter.TunnelledFraming` | rtmpt_session.cpp:66-90 | The tunnelled sender, which adopts a chunk size before framing its announcement, writes the bytes of the plain one if and only if the size does not cut the announcement (1, 2 and 3 do) |
| `RtmpWriter.TunnelledExactly` | rtmpt_session.cpp:66-90 | Through the tunnel any list of messages is delivered exactly if and only if the plain round trip would hold and no message announces a chunk size of 1, 2 or 3 |
| `RtmpWriter.MisreadAnnouncement` | rtmpt_session.cpp:73-81 | From any two ends in step, an announcement of 1, 2 or 3 reaches the peer with another body, whatever follows |
| `RtmpWriter.TunnelledExample` | rtmpt_session.cpp:73-81 | A chunk size of 1 announced on a fresh tunnelled connection is not delivered |
| `RtmpWriter.Sender.ChunkBuffer` | rtmp_protocol.cpp:282-299 | The chunking loop emits the body cut every n bytes with a type-3 header at each cut |
| `RtmpWriter.Sender.SerializeMessage` | rtmp_connection.cpp:327-343 | Sending a message appends its framing under the old size, remembers the header, adopts a new size, and refuses exactly the bodies over 24 bits |
| `IntegerSets.TriangularSum` | rtmfp/seq_manager.h:171-175 | n distinct positive integers sum to at least n(n+1)/2, with equality exactly when they are 1..n |
| `SeqManager.GapTest` | rtmfp/seq_manager.h:38-85 | In every safe state the sum test fires for an accepted number exactly when the sum is honest and nothing is missing with it |
| `SeqManager.CsnIsLargest` | rtmfp/seq_manager.h:154-157 | In an exact state csn is the largest n with all of 1..n received |
| `SeqManager.AddSeqStep` | rtmfp/seq_manager.h:38-85 | Every call: a refused number changes nothing; an accepted one was new and is now covered; safety and honesty are kept |
| `SeqManager.ForwardStep` | rtmfp/seq_manager.h:87-126 | A forward covers everything up to its value and afterwards the sum exceeds the honest one by exactly the missing numbers it left |
| `SeqManager.ApplyStep` | rtmfp/seq_manager.h:87-126 | After any step the sum is honest if and only if the last effective forward left nothing missing |
| `SeqManager.ExactAfterForwards` | rtmfp/seq_manager.h:38-126 | Over every run mixing receipts and forwards the bookkeeping is exact if and only if the last effective forward found no hole above its value among the numbers covered before it |
| `SeqManager.EveryRunSafe` | rtmfp/seq_manager.h:25-126 | Over every run mixing receipts and forwards csn never covers a number neither received nor forwarded over, the missing set is the holes below the greatest, and both sets stay within 8192 |
| `SeqManager.AddRunExact` | rtmfp/seq_manager.h:38-85 | Over every run of receipts the bookkeeping is an exact summary of the received set |
| `SeqManager.TriangularSumTestIsExact` | rtmfp/seq_manager.h:38-85 | After any run of receipts csn, the pending and the missing sets are what the received set says, and OK or gap-closed is returned exactly when no gap remains |
| `SeqManager.NoOverflow` | rtmfp/seq_manager.h:25-36 | In every reachable state no sum and no triangular product leaves 64 bits |
| `SeqManager.InflatedNeverCloses` | rtmfp/seq_manager.h:117-124 | Once a forward has left numbers missing, no later receipt is reported as closing the gap |
| `SeqManager.InflatedStalls` | rtmfp/seq_manager.h:72-84 | In that state the next number in order does not move csn |
| `SeqManager.StalledForGood` | rtmfp/seq_manager.h:38-85 | No run of receipts frees a stalled csn |
| `SeqManager.StallExample` | rtmfp/seq_manager.h:87-126 | A four-step run from the empty state that reaches the stall |
| `SeqManager.SequenceManager.Insert` | rtmfp/seq_manager.h:38-85 | The method returns the result and leaves the four fields the specification gives, and keeps safety against the covered set |
| `SeqManager.SequenceManager.Fill` | rtmfp/seq_manager.h:48-71 | Filling a hole, with its drain loop |
| `SeqManager.SequenceManager.Append` | rtmfp/seq_manager.h:72-84 | A number beyond everything, with the loop that opens the holes before it |
| `SeqManager.SequenceManager.Close` | rtmfp/seq_manager.h:160-169 | csn jumps to the greatest pending number, or to the value |
| `SeqManager.SequenceManager.DrainPending` | rtmfp/seq_manager.h:59-66 | The loop lets csn run through the pending numbers that follow it |
| `SeqManager.SequenceManager.OpenHoles` | rtmfp/seq_manager.h:79-83 | The loop adds exactly the numbers between csn and the value that are not pending |
| `SeqManager.SequenceManager.InsertUntil` | rtmfp/seq_manager.h:87-126 | The forward with its four loops gives the specified csn, sum, pending and missing sets |
| `SeqManager.SequenceManager.SumPending` | rtmfp/seq_manager.h:105-116 | The loop that sums the pending numbers and drains them while they follow csn |
| `Vlu.RoundTrip` | byte_reader.h:117-130 | For every 64-bit value and whatever follows, reading what was written gives the value and leaves the rest |
| `Vlu.EncodedSize` | byte_writer.h:90-96 | The announced size is exactly the number of bytes written |
| `Vlu.VluSize` | byte_writer.h:90-96 | The loop counts the 7-bit digits |
| `Vlu.Write` | byte_writer.h:98-107 | The shifting loop emits the encoding |
| `Vlu.ReadLoop` | byte_reader.h:117-130 | The accumulating loop is the decoder, its refusal past 64 bits included |
| `RangeAck.PairsExact` | rtmfp/seq_manager.h:177-210 | The pairs still to report decode to the maximal runs of covered numbers beyond the cursor |
| `RangeAck.AckIsExact` | rtmfp/seq_manager.h:133-152 | In every safe state the acknowledgement names only covered numbers, as separated maximal runs, and all of them unless csn is stalled with nothing missing; the branch answering 0 is never taken |
| `RangeAck.DecodesPairs` | rtmfp/chunk.cpp:268-295 | The wrapping decoder undoes the pair encoding whenever no range passes 64 bits |
| `RangeAck.AckRoundTrip` | rtmfp/chunk.cpp:268-313 | For every safe state the body fits the 16-bit chunk length and decoding it inside any packet gives the cumulative number and exactly the maximal runs above it |
| `RangeAck.WalkHoles` | rtmfp/seq_manager.h:179-191 | The loop counts the run of consecutive holes and leaves the holes beyond it |
| `RangeAck.Count` | rtmfp/seq_manager.h:177-210 | The two loops give the pair and the holes left that the specification gives |
| `RangeAck.BuildAck` | rtmfp/seq_manager.h:133-152 | The loop over the missing numbers builds the specified acknowledgement |
| `RangeAck.ReadRanges` | rtmfp/chunk.cpp:276-289 | The decoding loop is the specified one, short inputs included |
| `FragmentStore.HeldWithout` | rtmfp/flow.h:366-379 | The bytes held are those of any one fragment plus those of the rest |
| `FragmentStore.Store.Assign` | rtmfp/flow.h:354-364 | Storing or replacing a fragment keeps the byte count equal to the bytes held and moves the shared total by the same amount |
| `FragmentStore.Store.Erase` | rtmfp/flow.h:372-379 | Erasing a fragment releases exactly its bytes, here and in the shared total |
| `FragmentStore.Store.EraseRange` | rtmfp/flow.h:381-386 | Erasing a range releases exactly the bytes of the fragments in it |
| `FragmentStore.Store.Clear` | rtmfp/flow.h:388-392 | Clearing releases everything |
| `Flow.PiecesCarry` | rtmfp/flow.cpp:178-209 | Fragmenting numbers the pieces consecutively, marks begin, middle and end, and their data joined is the message |
| `Flow.EveryRunOnTrack` | rtmfp/flow.cpp:18-118 | Over every run of arrivals and drains the buffer is exactly the covered, undelivered part of the stream |
| `Flow.DeliversPrefix` | rtmfp/flow.cpp:61-118 | Whatever is lost, reordered or repeated, the messages handed out are always a prefix of those sent |
| `Flow.DeliversAll` | rtmfp/flow.cpp:61-118 | Once every fragment has been accepted, draining hands out the whole list |
| `Flow.TakesNext` | rtmfp/flow.cpp:61-118 | A take gives the next message, whole, as soon as csn has passed its last fragment |
| `Flow.AckForgetsOnlyHeld` | rtmfp/flow.cpp:293-322 | Applying an acknowledgement forgets only fragments the receiver holds and every in-flight one it covers, and leaves the rest unchanged |
| `FlowObject.Copy` | rtmfp/flow.cpp:158-176 | The copying loop joins the data of the fragments in order |
| `FlowObject.FlowBuffer.AddFragment` | rtmfp/flow.cpp:18-51 | Both roles: a sender refuses past the caps, a receiver rejects the flow and frees its buffer; otherwise the fragment is numbered and stored |
| `FlowObject.FlowBuffer.FindEnd` | rtmfp/flow.cpp:80-99 | The scan for the end of a begun message |
| `FlowObject.FlowBuffer.CreateMessage` | rtmfp/flow.cpp:158-176 | Reassembly returns the joined data and erases exactly those fragments |
| `FlowObject.FlowBuffer.MessageData` | rtmfp/flow.cpp:61-104 | The whole reassembly loop gives the specified message and buffer |
| `FlowObject.FlowBuffer.RemoveLastMessage` | rtmfp/flow.cpp:106-118 | A whole fragment is erased only when the message is taken away |
| `FlowObject.FlowBuffer.AddAndFragmentData` | rtmfp/flow.cpp:178-209 | The fragmenting loop offers the pieces in order and returns their number; on a queue filled in order all of them are stored if and only if there is room for all, and a refused piece is lost with its number spent |
| `FlowSender.QueuesExactly` | rtmfp/flow.cpp:18-51 | Fragments numbered in order are all stored if and only if they stay within 8192 fragments, 16 MiB and the greatest sequence number; then count and bytes grow by exactly theirs |
| `FlowSender.PiecesQueued` | rtmfp/flow.cpp:178-209 | One message is wholly queued if and only if there is room for all its pieces, and the queue stays in order |
| `FlowSender.SendingFills` | rtmfp/flow.cpp:178-209 | Sending a list of messages from a fresh flow fills the queue with exactly the fragments the delivery theorems draw from, if and only if there are at most 8192 and 16 MiB of them |
| `FlowSender.OverfullExample` | rtmfp/flow.cpp:20-27 | Of any 8193 messages with nothing acknowledged in between, one is lost in the queue |
| `FlowSession.ApplyConserves` | rtmfp/flow.cpp:18-59 | Receiving, delivering, dropping, opening and closing keep the shared total equal to the bytes held |
| `FlowSession.BytesConserved` | rtmfp/flow.h:327-418 | Over every run on any number of flows the shared counter is the sum over the flows, no flow holds over 16 MiB and the session no more than 32 MiB |
| `FlowTable.Table.Open` | rtmfp/session.cpp:254-258 | A new flow object joins the shared counter with nothing charged, as the session step says |
| `FlowTable.Table.OneMoved` | rtmfp/flow.h:327-418 | When one flow object has moved on, each store keeping its own charge, the shared counter has changed by exactly the difference in what that flow holds |
| `FlowTable.Table.ReceiveOn` | rtmfp/flow.cpp:18-51 | Receiving on one of any number of flow objects that share a counter is the session step, so the counter stays the sum over all of them |
| `FlowTable.Table.DeliverFrom` | rtmfp/flow.cpp:61-118 | The same for a turn of the delivery loop, with the message it hands out |
| `FlowTable.Table.DropOn` | rtmfp/flow.cpp:53-59 | The same for dropping fragments up to a number |
| `FlowTable.Table.Close` | rtmfp/flow.h:327-418 | The same for destroying a flow, which gives back what it held |
| `U29.ReadsU29` | amf3.cpp:638-660 | Reading a written U29 gives the low 29 bits and leaves the rest, for every 32-bit value |
| `U29.SignedExactly` | amf3.cpp:147-158 | Sign extension undoes the writing exactly on the 29-bit signed integers |
| `AmfReader.Read0` | amf0.cpp:421-556 | The depth is the same after as before, on success and on failure, and success consumes at least a byte |
| `AmfReader.Read3` | amf3.cpp:14-63 | The same for AMF3 |
| `AmfGraph.Read0Keeps` | amf0.cpp:421-556 | For every input: complete values stay as they are, children are complete before parents, tables call complete only what is, the budgets hold, and what is left is a suffix of the input |
| `AmfGraph.Read3Keeps` | amf3.cpp:14-63 | The same for AMF3, whose reads leave the AMF0 table alone |
| `AmfGraph.ReadReference0Keeps` | amf0.cpp:482-496 | A back-reference gives out only complete values |
| `AmfGraph.ObjectRefKeeps` | amf3.cpp:121-135 | The same for the AMF3 object table |
| `AmfGraph.CompleteKeeps0` | amf0.cpp:462-469 | Completing a registered value keeps completion order topological and touches no other table entry |
| `AmfGraph.ReadObject3Keeps` | amf3.cpp:548-620 | Traits, sealed and dynamic members of an AMF3 object, with every charge |
| `AmfGraph.Text3Quiet` | amf3.cpp:246-267 | Reading a string creates no value and charges at most what is left of 32 MiB |
| `AmfRoundTrip.RoundTripAny` | amf0.cpp:565-659 | For every AMF0 or AMF3 value within the depth, node and string budgets, reading write(v) ++ rest gives v, leaves rest, and charges exactly the nodes and string bytes of v |
| `AmfRoundTrip.EntriesRead0` | amf0.cpp:114-148 | The member loop reads back the written members, unique or repeated names as the type has it |
| `AmfRoundTrip.EntriesRead3` | amf3.cpp:356-363 | The name-value loop reads back an ordered map and stops at the empty name |
| `AmfRoundTrip.ArrayReads3` | amf3.cpp:346-387 | AMF3 arrays: associative part and dense part |
| `AmfRoundTrip.ObjectReads3` | amf3.cpp:622-636 | AMF3 objects, written as anonymous dynamic objects, read back as the same map |
| `AmfRoundTrip.VectorReads3` | amf3.cpp:439-513 | Object vectors with their type name and fixed flag |
| `AmfRoundTrip.DictionaryReads3` | amf3.cpp:515-546 | Dictionaries with their keys and values in order |
| `AmfRoundTrip.ContainerReads0` | amf0.cpp:399-419 | An AMF3 value nested in AMF0, under one depth and one budget |
| `AmfRoundTrip.RoomEnough` | amf0.cpp:219-240 | Three bytes behind a value are enough for every strict array in it |
| `AmfExact.RoundTripExactly` | amf0.cpp:219-254 | An AMF0 value within the budgets reads back if and only if every strict array in it has three bytes behind its count |
| `AmfExact.StrictStuck` | amf0.cpp:226-227 | Without them the read fails or leaves bytes of the value unread |
| `AmfExact.RoundTripWithRoom` | amf0.cpp:219-254 | Three bytes behind the value, or a value that is not itself a strict array, suffice |
| `AmfExact.EmptyArrayExample` | amf0.cpp:226-227 | An empty strict array at the end of the input leaves its four count bytes unread |
| `AmfMessage.PathDescends` | amf0.cpp:482-512 | Along any path of the decoded graph values were completed strictly earlier |
| `AmfMessage.DecodedIsAcyclic` | amf0.cpp:482-496 | For every input no value returned reaches itself, and what it reaches was completed before it |
| `AmfMessage.DeserializeKeeps` | rtmp_protocol.cpp:12-102 | Every message type, unknown ones included and however it ends, closes the scopes it opened and leaves the reader at depth 0 within the budget |
| `AmfMessage.SubMessagesKeep` | rtmp_message.cpp:230-293 | The aggregate loop goes on within the same budget after a dropped sub-message |
| `AmfMessage.OneBudget` | rtmp_message.cpp:16-293 | One message, aggregates in aggregates included, builds at most 65536 values at depth at most 32 with at most 32 MiB of AMF3 strings, all acyclic |
| `AmfCodec.Decoder.ReadValue0` | amf0.cpp:421-437 | The guarded read gives the depth back on every way out and does what the specification says |
| `AmfCodec.Decoder.ReadEntries0` | amf0.cpp:124-131 | The member loop |
| `AmfCodec.Decoder.ReadItems0` | amf0.cpp:229-237 | The strict-array loop |
| `AmfCodec.Decoder.ReadContainer` | amf0.cpp:399-411 | The nested AMF3 instance with tables of its own |
| `AmfCodec.Decoder.ReadValue3` | amf3.cpp:14-63 | The guarded AMF3 read |
| `AmfCodec.Decoder.TakeU29` | amf3.cpp:638-660 | The byte loop of read_u29 |
| `AmfCodec.Decoder.TakeText3` | amf3.cpp:246-267 | Strings inline or by reference, charged and remembered |
| `AmfCodec.Decoder.TakeTraits` | amf3.cpp:555-594 | Traits by reference or declared |
| `AmfCodec.Decoder.ReadEntries3` | amf3.cpp:607-616 | The loop over named members until the empty name |
| `AmfCodec.Decoder.ReadSealed3` | amf3.cpp:599-605 | The loop over sealed members |
| `AmfCodec.Decoder.ReadArray` | amf3.cpp:346-371 | An AMF3 array, registered before it is populated and complete after |
| `AmfCodec.Encoder.WriteValue` | amf0.cpp:565-659 | A write that is not refused appends exactly the encoding and charges its nodes; one the depth, node and byte budgets cover is never refused; the depth is given back either way |
| `AmfCodec.Encoder.WriteNamed` | amf3.cpp:622-636 | The loop over named members appends exactly their encoding and the terminator |
| `AmfCodec.Encoder.WriteItems` | amf3.cpp:385-387 | The loop over items appends exactly their encodings |
| `SendQueue.PassIsMinimal` | send_queue_policy.h:116-132 | One pass removes the oldest messages of its class, as many as bring the total to the mark and no more, or all of them, and keeps the order of the rest |
| `SendQueue.ShedToIsMinimal` | send_queue_policy.h:105-134 | A shed takes the oldest interframes and, only once none is left, the oldest keyframes; it stops at the low-water mark or leaves only what is never shed |
| `SendQueue.OverCapExactly` | rtmp_application.cpp:156-195 | The connection is given up exactly when undroppable bytes alone exceed the cap; otherwise the queue is within it; counts stay exact |
| `SendQueue.StepFaithful` | rtmp_application.cpp:276-291 | Every enqueue and dequeue keeps the undroppable part equal to a queue that never sheds |
| `SendQueue.EveryRunFaithful` | rtmp_application.cpp:156-291 | Over every run, urgent pushes included, bytes and count are exact and undroppable messages come out exactly as from a queue that never sheds |
| `SendQueue.AsyncQueue.ShedPass` | send_queue_policy.h:118-129 | The erasing loop is the specified pass and counts what it drops |
| `SendQueue.AsyncQueue.ShedTo` | send_queue_policy.h:113-134 | The two passes |
| `SendQueue.AsyncQueue.EnqueueMessage` | rtmp_application.cpp:166-195 | The locked push with shedding |
| `SendQueue.AsyncQueue.GetMessage` | rtmp_application.cpp:276-291 | The dequeue |
| `SharedObjects.UseReplyIsWhole` | so_manager.cpp:104-131 | A Use reply folded by a new member is the whole property map, and fits 64 events |
| `SharedObjects.HandleSound` | so_manager.cpp:14-79 | Every request keeps every replica equal to the server map, no object memberless, and both caps |
| `SharedObjects.HandleCharged` | so_manager.cpp:81-173 | Every request keeps every use count the number of objects the connection is in, at most 64 |
| `SharedObjects.DeliverySound` | so_manager.cpp:191-273 | Telling each other member the change, and the requester its success, leaves every copy equal to the new map |
| `SharedObjects.DisconnectSound` | so_manager.cpp:134-150 | A disconnect removes the member everywhere and the objects it alone used |
| `SharedObjects.ReplicasConverge` | so_manager.cpp:14-273 | Over every run of requests and disconnects exactly the members hold copies, every copy is the server map, and every use count is exact |
| `SharedObjects.ReplayValues` | so_manager.cpp:122-131 | The loop emits one Change per property in map order |
| `SharedObjects.Notify` | so_manager.cpp:212-224 | The loop addresses every client but the requester |
| `SharedObjects.SoManager.HandleUseEvent` | so_manager.cpp:81-132 | Joining, with both caps and the count it charges |
| `SharedObjects.SoManager.HandleReleaseEvent` | so_manager.cpp:158-173 | Leaving, with the object discarded after its last member |
| `SharedObjects.SoManager.HandleChangeEvent` | so_manager.cpp:191-226 | A change, with the property cap and the replay check, moving the version once per request |
| `SharedObjects.SoManager.HandleRemoveEvent` | so_manager.cpp:245-273 | A removal, moving the version once per request |
| `SharedObjects.SoManager.HandleSendEvent` | so_manager.cpp:228-243 | A relayed message goes to every member but the sender, if the sender is one |
| `SharedObjects.SoManager.RemoveConnectionEverywhere` | so_manager.cpp:134-150 | The walk over every object |
| `SharedRequests.HandleSo` | so_manager.cpp:14-79 | The loop over a request of several events, working on the manager object, with the flush of a full reply, the replacing reply and the stop at a release, sends, answers and leaves the object as the list specification says |
| `SharedRequests.TraceIs` | so_manager.cpp:28-64 | What any request does is read off the request, the map and the membership before it |
| `SharedRequests.OthersExactly` | so_manager.cpp:28-72 | For any list of events no other object changes, and the other members hold the server map except for what a relayed Clear takes; they hold it exactly if and only if that is nothing or there are no others, decided by the request and the state before it |
| `SharedRequests.OthersConverge` | so_manager.cpp:28-72 | Without a Clear in the request every other member holds exactly the server map |
| `SharedRequests.RelayedClear` | so_manager.cpp:228-243 | A Clear relayed beside a message empties the copies of the others while the server map stays |
| `SharedRequester.RequesterExactly` | so_manager.cpp:14-79 | For any request of at most 64 events, with a use anywhere in it: what the requester holds afterwards, and that this is the server map if and only if the properties last removed, of those it knows, are the ones the last replacing reply takes, decided by the request and the state before it |
| `SharedRequester.MemberExactly` | so_manager.cpp:28-78 | The same for a request of any length by a member, without a use |
| `SharedRequester.UserExactly` | so_manager.cpp:81-132 | The same for a request of any length that opens with a use that takes |
| `SharedRequester.RequesterConverges` | so_manager.cpp:28-78 | A request with no Clear and no removal but as its last event leaves its sender with exactly the server map |
| `SharedRequester.TwoRemovals` | so_manager.cpp:255-271 | Two removals in one request leave the requester with the first property |
| `SharedRequester.RemovedThenChanged` | so_manager.cpp:66-78 | A removal and then a change of one property leave it to the server and not to the requester |
| `SharedRequester.OvertakingUse` | so_manager.cpp:104-112 | A use reply that overtakes earlier replies leaves the requester with a property the request removed |
| `SharedRequester.ReplayIsIdle` | so_manager.cpp:104-112 | Effects repeated on the map they led to change nothing, which is why an overtaking reply can be reckoned with at all |
| `StreamRegistry.CloseStreamKeeps` | media_application.cpp:681-722 | Closing keeps the registry consistent, removes the publisher, and leaves waits and ownership alone, through the recursion into the qos stream |
| `StreamRegistry.CloseKeeps` | media_application.cpp:258-265 | After closeStream or deleteStream no map mentions the stream id |
| `StreamRegistry.PlayKeeps` | media_application.cpp:394-440 | Play, live, waiting, remote or answered elsewhere, keeps the registry consistent |
| `StreamRegistry.PromoteKeeps` | media_application.cpp:598-621 | Promoting the waiting clients keeps the registry consistent |
| `StreamRegistry.AddQosKeeps` | media_application.cpp:649-664 | The qos stream is its publisher's own |
| `StreamRegistry.AddBroadcasterKeeps` | stream_registry.cpp:9-21 | Publishing keeps publishers and names one to one and every id owned |
| `StreamRegistry.TeardownIsExact` | media_application.cpp:724-736 | Removing a connection leaves exactly the registry with everything of that connection taken out; no map mentions it |
| `StreamRegistry.EveryRunValid` | stream_registry.h:187-327 | In every reachable state publishers and names are one to one, edges and subscribers have the same keys and point at live publishers, clients wait under their recorded names, every id is owned, and teardown is exact |
| `RoutingObject.Routing.Publish` | stream_registry.cpp:9-21 | Registers the publisher, or reports the id or the name taken |
| `RoutingObject.Routing.Unpublish` | stream_registry.cpp:23-51 | Removes the publisher and gives out its qos stream and detached subscribers |
| `RoutingObject.Routing.DetachAll` | stream_registry.cpp:41-49 | The loop detaches exactly the subscribers of the publisher |
| `RoutingObject.Routing.Detach` | stream_registry.h:234-245 | Removes one subscription and names its stream |
| `RoutingObject.Routing.Subscribe` | stream_registry.h:187-197 | One edge per subscriber, and the id owned |
| `RoutingObject.Routing.CloseStreamOf` | media_application.cpp:681-722 | The recursive close |
| `RoutingObject.Routing.Forget` | media_application.cpp:740-750 | Releases the edge, the wait and the recorded name |
| `RoutingObject.Routing.Wait` | media_application.cpp:759-767 | One subscription per stream id |
| `RoutingObject.Routing.HandlePlay` | media_application.cpp:394-440 | The locked part of play |
| `RoutingObject.Routing.HandleClose` | media_application.cpp:777-799 | The locked part of deleteStream |
| `RoutingObject.Routing.CheckWaitingClients` | media_application.cpp:598-621 | The loop subscribes everyone waiting and empties the list |
| `RoutingObject.Routing.HandleDisconnect` | media_application.cpp:724-736 | The loop over the streams a connection owns leaves the registry without it |
| `Rtmpt.DrainDelivers` | rtmpt_manager.cpp:71-88 | Draining delivers in sequence and stops at the first number missing |
| `Rtmpt.DrainCounts` | rtmpt_manager.cpp:82-85 | Draining takes out of the stash exactly the bytes and entries it delivers |
| `Rtmpt.ReceiveSound` | rtmpt_manager.cpp:90-171 | Every request, a stale one included, keeps delivery in order, the byte count exact and both caps |
| `Rtmpt.InOrderExactlyOnce` | rtmpt_manager.cpp:90-171 | Over every run of fewer than 2^32 requests the session has been handed the accepted bodies below the sequence number, each once and in order, and no accepted body is replaced |
| `Rtmpt.ValidatedKeepsNoStale` | rtmpt_manager.cpp:50-69 | A session fed only validated requests keeps no stale stash entry |
| `Rtmpt.AnyOrderDelivers` | rtmpt_manager.cpp:104-117 | Up to 64 bodies and 4 MiB posted in any order all reach the session in sequence |
| `Rtmpt.SessionData.AdvanceSequence` | rtmpt_manager.cpp:71-88 | The draining loop |
| `Rtmpt.SessionData.HandleData` | rtmpt_manager.cpp:90-131 | A body, in order or stashed within the caps |
| `Rtmpt.SessionData.SerializeResult` | rtmpt_manager.cpp:140-166 | A poll that closes a gap delivers what it releases |
| `BitWords.Shifted` | rtmfp/aes.cpp:119-123 | A left shift of a 64-bit word moves every bit up and brings in zeros |
| `BitWords.SetBit` | rtmfp/aes.cpp:130-133 | Or with one bit sets that bit and no other |
| `BitWords.Masked` | rtmfp/aes.cpp:130-132 | The mask test reads the bit |
| `ReplayWindow.CheckRefines` | rtmfp/aes.cpp:108-135 | One packet: the bitmap accepts exactly what the set of accepted numbers would, and goes on refining it |
| `ReplayWindow.WindowRefinesSet` | rtmfp/aes.cpp:108-135 | Over every run the bitmap accepts exactly the numbers above the highest, or at most 63 below it and not accepted yet |
| `ReplayWindow.NeverTwice` | rtmfp/aes.cpp:127-134 | Over every run no number is let through twice |
| `ReplayWindow.ReplayCheck.CheckRxSeq` | rtmfp/aes.cpp:108-135 | The method decides as the set does and keeps the refinement |
| `AckThreshold.ClampWindow` | basic_rtmp_connection.h:38-43 | The window is within 1024..2^29 and unchanged when it already was |
| `AckThreshold.DueExactly` | basic_rtmp_connection.h:53-58 | The signed difference tells the truth if and only if the counter is below the threshold or less than 2^31 past it modulo 2^32, without a bound on the counter |
| `AckThreshold.HandleTracks` | basic_rtmp_connection.cpp:21-37 | After any event the 32-bit fields are the wrapped unbounded ones if and only if the event is in reach; only a read with an application assigned can be out of reach |
| `AckThreshold.WrappingRefinesUnbounded` | basic_rtmp_connection.cpp:21-77 | Over every run of events the wrapping counters acknowledge on exactly the reads, and with the totals, the unbounded ones do, if and only if every event is in reach |
| `AckThreshold.AssignedStaysInReach` | basic_rtmp_connection.h:45-51 | With an application assigned and reads under 2^31 bytes every run is in reach, however far the counter goes |
| `AckThreshold.SettlesExactly` | basic_rtmp_connection.cpp:25-35 | With an application assigned and reads under 2^31 bytes, a run is in reach if and only if its first event that counts is a window change or a read in reach |
| `AckThreshold.AcknowledgedThroughout` | basic_rtmp_connection.cpp:21-77 | From the start of a connection, whatever comes before the assignment: the whole life is acknowledged on the right reads if and only if the first event that counts after the assignment is in reach |
| `AckThreshold.OutOfReachExample` | basic_rtmp_connection.cpp:27-30 | 33024 reads of 65536 bytes before an application is assigned: an acknowledgement is owed and the next read sends none |
| `AckThreshold.AcksSpaced` | basic_rtmp_connection.h:30-36 | Acknowledged totals are at least the smallest window apart |
| `AckThreshold.AcksPrompt` | basic_rtmp_connection.h:45-51 | Over every run of reads and window changes an acknowledgement comes less than one window and one read after the last acknowledgement or window change, and after any of these less than one window has been read since, so none is overdue |
| `AckThreshold.LifePrompt` | basic_rtmp_connection.cpp:21-77 | The same from the start of a connection: nothing before the assignment, then every acknowledgement including the first |
| `AckThreshold.WindowChangesStarve` | basic_rtmp_connection.cpp:68-76 | A peer that repeats its window after every read shorter than the window is never acknowledged, however many reads it makes |
| `AckThreshold.AckCounter.HandleBytesRead` | basic_rtmp_connection.cpp:21-37 | The fields become what the wrapped specification says; an acknowledgement is sent exactly when an application is assigned and the unbounded count has passed the unbounded threshold, if and only if the read is in reach |
| `AckThreshold.AckCounter.HandleWindow` | basic_rtmp_connection.cpp:68-76 | A window change re-bases the threshold and sends nothing |

## Left out

- Sockets, timers, TLS, HTTP, logging, configuration, file access, process spawning and the handshake and packet ciphers: plumbing or calls into code that is not part of this model.
- Interleaving of threads: handlers that drop a lock before delivering (`rtmpt_manager.cpp:97-132`, `so_manager.cpp:28-72`) are taken as one atomic step.
- RtmpParser.Framer.DispatchMessage: the decoding of a message body and the sink are not part of it; a completed message is its type, ids, timestamp and bytes, and only the framing effects of SetChunkSize and Abort are modelled.
- Channels are values in a map, not shared objects: that the outbound side of the same channel object is written through another reference is not captured. Inbound and outbound headers are separate fields, so neither side reads what the other writes.
- The header readers and writers (`rtmp_header.cpp`) are functions: the source works on a copy and commits it whole.
- FlowObject.FlowBuffer.AddAndFragmentData: asks that the piece count fit the 16-bit field the source keeps it in.
- Abandonment of stale fragments, forwarding over holes during reassembly and retransmission timing in `rtmfp/flow.cpp` and `rtmfp/session.cpp`: the delivery theorems are about reliable flows, and a rejected flow is not fed further.
- RTMFP packets of several chunks, option lists and session establishment.
- Rtmpt.InOrderExactlyOnce: covers runs of fewer than 2^32 requests, because the sequence number is 32 bits wide and wraps.
- The session behind a tunnel is a byte sink; closing it ends the run.
- SharedObjects.ReplicasConverge: requests carry one event each; requests of several are `SharedRequests` and `SharedRequester`, where not every copy stays exact. Whether a value can be replayed is a property of the value.
- SharedRequester.RequesterExactly: a request has at most 64 events, as `rtmp_so_message.cpp:24-30` makes sure. The requester is taken to read what is sent to it before the answer of the call; which the transport writes first is not modelled. A request that releases the object leaves its sender no copy to speak of.
- StreamRegistry.PlayKeeps: whether a recording answers a play is a parameter, and playback of recordings is not modelled; neither are the per-publisher caches and recorders.
- SendQueue.OverCapExactly: the message count is unbounded here and 32 bits in the source.
- AMF doubles are their eight bytes in network order; no arithmetic is done on them. AMF3 class names are read and dropped, as the source does.
- The parameter, event and aggregate loops of `AmfMessage` are recursive functions, because what is proved of them is the budget they share.
- AmfCodec.Encoder.WriteValue: one budget per value; the scope that spans a message's values is not modelled for writing. The bytes a refused write leaves behind are not specified.
- AmfMessage.DeserializeKeeps: of message types whose bodies hold no AMF only the length is looked at.
- VOD pacing, statistics, administration and the client tools: wall-clock or presentation code that would only add easy members.
