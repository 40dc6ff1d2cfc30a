/** The outbound chunk stream (`rtmp_protocol.cpp`, `rtmp_connection.cpp`):
    headers compressed against the last header sent on the channel, bodies cut
    into chunks, and the chunk-size switch. The theorem is that the parser at the
    other end delivers exactly the messages written. */
module RtmpWriter {
  import opened Bytes
  import opened IntegerSets
  import opened RtmpHeader
  import opened RtmpParser

  const MAX_WIRE_LENGTH := 0xFF_FFFF

  datatype Writer = Writer(sent: map<u32, Header>, chunkSize: nat)

  const START: Writer := Writer(map[], DEFAULT_CHUNK_SIZE)

  function SentHeader(w: Writer, id: u32): Header {
    if id in w.sent then w.sent[id] else BLANK
  }

  /** `rtmp_protocol` falls back to the default rather than divide by zero. */
  function FramingSize(w: Writer): nat {
    if w.chunkSize == 0 then DEFAULT_CHUNK_SIZE else w.chunkSize
  }

  /** `set_outgoing_chunk_size`, for the size a SetChunkSize message announces. */
  function NextChunkSize(current: nat, m: Message): nat {
    var arg := ReadU32Be(m.body);
    if m.messageType == SET_CHUNK_SIZE && arg.Got? && arg.value != 0 then arg.value else current
  }

  function NewHeader(w: Writer, m: Message): (h: Header)
    requires |m.body| <= MAX_WIRE_LENGTH
    ensures h.channelId == m.channelId && h.length == |m.body|
  {
    Compressed(Header(m.channelId, m.timestamp, 0, 0, |m.body|, m.streamId, m.messageType, NEW, false),
               SentHeader(w, m.channelId))
  }

  /** The body cut every `size` bytes, each cut marked by a type-3 header. */
  function Chunks(body: seq<byte>, size: nat, h: Header): seq<byte>
    requires size > 0
    decreases |body|
  {
    if |body| <= size then body
    else body[..size] + (WriteContinue(h) + Chunks(body[size..], size, h))
  }

  datatype Written = Written(w: Writer, bytes: seq<byte>)

  /** One message through `serialize_message`: a body the 3-byte length field
      cannot describe is dropped and leaves the sent header alone. */
  function Encode(w: Writer, m: Message): Written {
    if |m.body| > MAX_WIRE_LENGTH then
      Written(w.(chunkSize := NextChunkSize(w.chunkSize, m)), [])
    else
      var h := NewHeader(w, m);
      Written(Writer(w.sent[m.channelId := h], NextChunkSize(w.chunkSize, m)),
              WriteFormat(h) + Chunks(m.body, FramingSize(w), h))
  }

  function EncodeAll(w: Writer, msgs: seq<Message>): Written
    decreases |msgs|
  {
    if msgs == [] then Written(w, [])
    else
      var first := Encode(w, msgs[0]);
      var others := EncodeAll(first.w, msgs[1..]);
      Written(others.w, first.bytes + others.bytes)
  }

  // ---- the two ends in step ---------------------------------------------------

  /** What the receiver must agree on before the next header on this channel. */
  predicate InStep(id: u32, s: Header, ch: Channel) {
    && s.channelId == id
    && ch.buffer == [] && ch.prevComplete
    && ch.received.timestamp == s.timestamp
    && ch.received.length == s.length
    && ch.received.streamId == s.streamId
    && ch.received.messageType == s.messageType
    && (s.format == TIMER_CHANGE ==>
          && ch.received.format != NEW
          && ch.received.deltaRead == s.deltaWritten
          && ch.received.extended == (s.deltaWritten >= EXTENDED))
  }

  predicate SizesAgree(w: Writer, p: Parser) {
    p.chunkSize == Min(FramingSize(w), MAX_CHUNK_SIZE)
  }

  predicate Synced(w: Writer, p: Parser) {
    && p.readHeader && !p.framingError
    && p.channels.Keys == w.sent.Keys
    && SizesAgree(w, p)
    && forall id | id in w.sent :: InStep(id, w.sent[id], p.channels[id])
  }

  /** What the protocol lets a sender write: an addressable channel, a body the
      receiver accepts, and a legal SetChunkSize. */
  predicate Sendable(m: Message) {
    && WireChannel(m.channelId)
    && |m.body| <= MAX_MESSAGE_LENGTH
    && LegalChunkSize(m)
  }

  predicate LegalChunkSize(m: Message) {
    m.messageType == SET_CHUNK_SIZE ==> ReadU32Be(m.body).Got? && ReadU32Be(m.body).value <= MAX_PEER_CHUNK_SIZE
  }

  /** The receiving channel part-way through `m`, written under header `h`, with
      a chunk header just read and `k` body bytes assembled. */
  predicate Assembling(ch: Channel, m: Message, h: Header, k: nat) {
    && k <= |m.body|
    && ch.buffer == m.body[..k]
    && ch.received.length == |m.body|
    && ch.received.channelId == m.channelId
    && ch.received.streamId == m.streamId
    && ch.received.messageType == m.messageType
    && ch.received.extended == (WrittenTime(h) >= EXTENDED)
    && AdjustTimestamp(ch).received.timestamp == m.timestamp
    && (h.format == TIMER_CHANGE ==>
          ch.received.format != NEW && AdjustTimestamp(ch).received.deltaRead == h.deltaWritten)
  }

  /** The header the writer chose, read back against the receiver's own history,
      restores the message's type, length, stream and timestamp. */
  lemma ReadsCompressed(prev: Header, ch: Channel, m: Message, h: Header, rest: seq<byte>) returns (ch': Channel)
    requires WireChannel(m.channelId) && |m.body| <= MAX_WIRE_LENGTH
    requires (prev == BLANK && ch == FRESH) || InStep(m.channelId, prev, ch)
    requires h == Compressed(Header(m.channelId, m.timestamp, 0, 0, |m.body|, m.streamId, m.messageType, NEW, false), prev)
    ensures TryDeserializeHeader(ch, WriteFormat(h) + rest) == Got(ch', rest)
    ensures Assembling(ch', m, h, 0)
  {
    hide TryDeserialize, WriteNew, WriteSameSource, WriteTimerChange, WriteContinue;
    if h.format == NEW {
      ReadsNew(ch.received, h, rest);
    } else if h.format == SAME_SOURCE {
      ReadsSameSource(ch.received, h, rest);
    } else if h.format == TIMER_CHANGE {
      ReadsTimerChange(ch.received, h, rest);
    } else {
      ReadsContinue(ch.received, h, rest);
    }
    ch' := TryDeserializeHeader(ch, WriteFormat(h) + rest).value;
  }

  /** Reading the first chunk header of a message opens its channel and commits. */
  lemma FirstHeader(w: Writer, p: Parser, m: Message, rest: seq<byte>) returns (q: Parser)
    requires Synced(w, p) && Sendable(m)
    requires |w.sent.Keys + {m.channelId}| <= MAX_CHANNELS
    ensures var h := NewHeader(w, m);
            && HeaderPhase(p, WriteFormat(h) + rest) == Ready(q, rest)
            && q == p.(channels := q.channels, readHeader := false, channelId := m.channelId)
            && q.channels.Keys == w.sent.Keys + {m.channelId}
            && OthersInStep(w, q, m.channelId)
            && Assembling(q.channels[m.channelId], m, h, 0)
  {
    hide TryDeserializeHeader, WriteFormat, ReadBasic, Compressed, Assembling, InStep;
    var h := NewHeader(w, m);
    var id := m.channelId;
    BasicOfFormat(h, rest);
    if id !in p.channels {
      assert |w.sent.Keys + {id}| == |w.sent.Keys| + 1;
    }
    var ch' := ReadsCompressed(SentHeader(w, id), ChannelOf(p.channels, id), m, h, rest);
    q := p.(channels := p.channels[id := ChannelOf(p.channels, id)][id := ch'], readHeader := false, channelId := id);
  }

  lemma CompressedKeeps(h: Header, prev: Header)
    ensures var c := Compressed(h, prev); c == h.(format := c.format, deltaWritten := c.deltaWritten)
  {
  }

  lemma BasicOfFormat(h: Header, rest: seq<byte>)
    requires WireChannel(h.channelId) && h.length < 0x100_0000
    ensures var b := ReadBasic(WriteFormat(h) + rest); b.Got? && b.value == Basic(h.format, h.channelId)
  {
    hide ReadBasic, WriteBasic;
    var tail := WriteFormat(h)[|WriteBasic(h.format, h.channelId)|..];
    assert WriteFormat(h) + rest == WriteBasic(h.format, h.channelId) + (tail + rest);
    ReadsBasic(h.format, h.channelId, tail + rest);
  }

  /** A continuation header changes nothing but the channel's header history. */
  lemma NextHeader(p: Parser, m: Message, h: Header, k: nat, rest: seq<byte>) returns (q: Parser)
    requires p.readHeader && m.channelId in p.channels && WireChannel(m.channelId) && h.channelId == m.channelId
    requires var ch := p.channels[m.channelId];
             && !ch.prevComplete
             && Assembling(ch, m, h, k)
    ensures HeaderPhase(p, WriteContinue(h) + rest) == Ready(q, rest)
    ensures q == p.(channels := q.channels, readHeader := false, channelId := m.channelId)
    ensures q.channels.Keys == p.channels.Keys
    ensures forall id | id in p.channels && id != m.channelId :: q.channels[id] == p.channels[id]
    ensures Assembling(q.channels[m.channelId], m, h, k)
  {
    hide TryDeserialize, WriteContinue, ReadBasic, WriteBasic;
    var id := m.channelId;
    var ch := p.channels[id];
    ContinueBasic(h, rest);
    ReadsContinue(ch.received, h, rest);
    q := HeaderPhase(p, WriteContinue(h) + rest).p;
  }

  lemma ContinueBasic(h: Header, rest: seq<byte>)
    requires WireChannel(h.channelId)
    ensures var b := ReadBasic(WriteContinue(h) + rest); b.Got? && b.value == Basic(CONTINUE, h.channelId)
  {
    hide ReadBasic, WriteBasic;
    var tail := ExtendedField(WrittenTime(h)) + rest;
    assert WriteContinue(h) + rest == WriteBasic(CONTINUE, h.channelId) + tail;
    ReadsBasic(CONTINUE, h.channelId, tail);
  }

  predicate OthersInStep(w: Writer, p: Parser, id: u32) {
    forall k | k in w.sent && k != id :: k in p.channels && InStep(k, w.sent[k], p.channels[k])
  }

  /** A body left that fits one chunk completes the message. */
  lemma LastChunk(w: Writer, p: Parser, m: Message, h: Header, k: nat, rest: seq<byte>) returns (q: Parser)
    requires BodyState(w, p, m, h, k)
    requires |m.body| - k <= FramingSize(w)
    ensures PayloadPhase(p, m.body[k..] + rest) == Chunk(q, rest, [m])
    ensures Synced(Encode(w, m).w, q)
  {
    hide AdjustTimestamp, Dispatch, Synced, Encode;
    var id := m.channelId;
    var ch := p.channels[id];
    var s := m.body[k..] + rest;
    assert p.channels[id := ch] == p.channels;
    assert s[..|m.body| - k] == m.body[k..] && s[|m.body| - k..] == rest;
    assert m.body[..k] + m.body[k..] == m.body;
    AdjustKeeps(ch);
    var ch' := AdjustTimestamp(ch).(buffer := m.body, prevComplete := true);
    var mid := p.(readHeader := true, channels := p.channels[id := ch']);
    q := Dispatch(mid, ch');
    DispatchSyncs(w, mid, m, h, ch');
  }

  /** A full chunk moves `k` on and leaves the parser waiting for a header. */
  lemma FullChunk(w: Writer, p: Parser, m: Message, h: Header, k: nat, tail: seq<byte>) returns (q: Parser)
    requires BodyState(w, p, m, h, k)
    requires |m.body| - k > FramingSize(w)
    ensures var size := FramingSize(w);
            && PayloadPhase(p, m.body[k..k + size] + tail) == Chunk(q, tail, [])
            && q == p.(readHeader := true, channels := q.channels)
            && q.channels.Keys == p.channels.Keys
            && OthersInStep(w, q, m.channelId)
            && Assembling(q.channels[m.channelId], m, h, k + size)
            && !q.channels[m.channelId].prevComplete
  {
    hide AdjustTimestamp, InStep;
    var size := FramingSize(w);
    var id := m.channelId;
    var ch := p.channels[id];
    var s := m.body[k..k + size] + tail;
    assert p.channels[id := ch] == p.channels;
    assert s[..size] == m.body[k..k + size] && s[size..] == tail;
    assert m.body[..k] + m.body[k..k + size] == m.body[..k + size];
    AdjustKeeps(ch);
    var ch' := AdjustTimestamp(ch).(buffer := m.body[..k + size], prevComplete := false);
    AdjustSettled(ch');
    q := p.(readHeader := true, channels := p.channels[id := ch']);
  }

  predicate BodyState(w: Writer, p: Parser, m: Message, h: Header, k: nat) {
    && Sendable(m) && h == NewHeader(w, m)
    && !p.readHeader && !p.framingError && p.channelId == m.channelId
    && SizesAgree(w, p)
    && p.channels.Keys == w.sent.Keys + {m.channelId}
    && OthersInStep(w, p, m.channelId)
    && Assembling(p.channels[m.channelId], m, h, k)
  }

  /** The chunks of a body, fed behind its header, deliver the message and leave
      the two ends in step. */
  lemma {:induction false} Body(w: Writer, p: Parser, m: Message, h: Header, k: nat, rest: seq<byte>) returns (q: Parser)
    requires BodyState(w, p, m, h, k)
    ensures AfterHeader(p, Chunks(m.body[k..], FramingSize(w), h) + rest) == Then([m], Run(q, rest))
    ensures Synced(Encode(w, m).w, q)
    decreases |m.body| - k
  {
    hide HeaderPhase, PayloadPhase, Assembling, WriteContinue, Synced, Encode, OthersInStep, Compressed;
    assert k <= |m.body| by {
      BodyStateRange(w, p, m, h, k);
    }
    var size := FramingSize(w);
    var left := m.body[k..];
    var s := Chunks(left, size, h) + rest;
    if |left| <= size {
      q := LastChunk(w, p, m, h, k, rest);
    } else {
      var more := Chunks(m.body[k + size..], size, h) + rest;
      var tail := WriteContinue(h) + more;
      assert left[size..] == m.body[k + size..] && left[..size] == m.body[k..k + size];
      assert s == m.body[k..k + size] + tail;
      var mid := FullChunk(w, p, m, h, k, tail);
      var nxt := NextHeader(mid, m, h, k + size, more);
      assert OthersInStep(w, nxt, m.channelId) by {
        OthersKept(w, mid, nxt, m.channelId);
      }
      assert tail != [] by {
        ContinueBasic(h, more);
      }
      q := Body(w, nxt, m, h, k + size, rest);
      assert Run(mid, tail) == AfterHeader(nxt, more);
    }
  }

  lemma BodyStateRange(w: Writer, p: Parser, m: Message, h: Header, k: nat)
    requires BodyState(w, p, m, h, k)
    ensures k <= |m.body|
  {
  }

  lemma OthersKept(w: Writer, p: Parser, q: Parser, id: u32)
    requires OthersInStep(w, p, id)
    requires q.channels.Keys == p.channels.Keys
    requires forall k | k in p.channels && k != id :: q.channels[k] == p.channels[k]
    ensures OthersInStep(w, q, id)
  {
  }

  lemma AdjustKeeps(ch: Channel)
    ensures var a := AdjustTimestamp(ch);
            && a.received == ch.received.(timestamp := a.received.timestamp, deltaRead := a.received.deltaRead)
            && a.buffer == ch.buffer && a.prevComplete == ch.prevComplete
            && (ch.prevFormat != NEW || ch.received.format != CONTINUE ==> a.received.deltaRead == ch.received.deltaRead)
  {
  }

  lemma AdjustSettled(ch: Channel)
    requires !ch.prevComplete
    ensures AdjustTimestamp(ch).received == ch.received
  {
  }

  /** Completing a message puts its channel back in step; SetChunkSize moves both
      ends, and Abort finds no half-assembled message to discard. */
  lemma DispatchSyncs(w: Writer, p: Parser, m: Message, h: Header, ch: Channel)
    requires Sendable(m) && h == NewHeader(w, m)
    requires p.readHeader && !p.framingError && p.channelId == m.channelId
    requires SizesAgree(w, p)
    requires p.channels.Keys == w.sent.Keys + {m.channelId}
    requires OthersInStep(w, p, m.channelId)
    requires p.channels[m.channelId] == ch && ch.buffer == m.body && ch.received.messageType == m.messageType
    requires InStep(m.channelId, h, ch.(buffer := []))
    ensures Synced(Encode(w, m).w, Dispatch(p, ch))
  {
    hide ReadU32Be, InStep;
    var q := Dispatch(p, ch);
    var w' := Encode(w, m).w;
    forall id | id in w'.sent
      ensures id in q.channels && InStep(id, w'.sent[id], q.channels[id])
    {
      if id == m.channelId {
        assert q.channels[id] == ch.(buffer := []);
      } else {
        assert InStep(id, w.sent[id], p.channels[id]);
        BufferEmpty(id, w.sent[id], p.channels[id]);
        assert q.channels[id] == p.channels[id];
      }
    }
  }

  lemma BufferEmpty(id: u32, s: Header, ch: Channel)
    requires InStep(id, s, ch)
    ensures ch.(buffer := []) == ch
  {
  }

  /** One message, written in step and parsed, comes out whole; the ends stay in step. */
  lemma OneMessage(w: Writer, p: Parser, m: Message, rest: seq<byte>) returns (q: Parser)
    requires Synced(w, p) && Sendable(m)
    requires |w.sent.Keys + {m.channelId}| <= MAX_CHANNELS
    ensures Run(p, Encode(w, m).bytes + rest) == Then([m], Run(q, rest))
    ensures Synced(Encode(w, m).w, q)
  {
    hide HeaderPhase, PayloadPhase, WriteFormat, Assembling, InStep;
    var h := NewHeader(w, m);
    var tail := Chunks(m.body, FramingSize(w), h) + rest;
    assert Encode(w, m).bytes + rest == WriteFormat(h) + tail;
    assert m.body[0..] == m.body;
    var mid := FirstHeader(w, p, m, tail);
    assert WriteFormat(h) + tail != [] by {
      BasicOfFormat(h, tail);
    }
    q := Body(w, mid, m, h, 0, rest);
    assert Run(p, WriteFormat(h) + tail) == AfterHeader(mid, tail);
  }

  function ChannelsOf(msgs: seq<Message>): set<u32> {
    set i | 0 <= i < |msgs| :: msgs[i].channelId
  }

  /** Chunk-stream round trip, from any two ends in step. */
  lemma {:induction false} RoundTripFrom(w: Writer, p: Parser, msgs: seq<Message>)
    requires Synced(w, p)
    requires forall m | m in msgs :: Sendable(m)
    requires |w.sent.Keys + ChannelsOf(msgs)| <= MAX_CHANNELS
    ensures var o := Run(p, EncodeAll(w, msgs).bytes);
            o.out == msgs && o.rest == [] && Synced(EncodeAll(w, msgs).w, o.p)
    decreases |msgs|
  {
    hide Synced, Sendable, Encode;
    if msgs == [] {
    } else {
      var m, others := msgs[0], msgs[1..];
      var first := Encode(w, m);
      var tail := EncodeAll(first.w, others).bytes;
      assert m.channelId in ChannelsOf(msgs);
      SubsetSize(w.sent.Keys + {m.channelId}, w.sent.Keys + ChannelsOf(msgs));
      var q := OneMessage(w, p, m, tail);
      SentKeys(w, m);
      RestChannels(msgs);
      SubsetSize(first.w.sent.Keys + ChannelsOf(others), w.sent.Keys + ChannelsOf(msgs));
      RoundTripFrom(first.w, q, others);
      assert [m] + others == msgs;
    }
  }

  lemma SentKeys(w: Writer, m: Message)
    requires Sendable(m)
    ensures Encode(w, m).w.sent.Keys == w.sent.Keys + {m.channelId}
  {
  }

  /** The promise of the protocol: whatever list of messages is written through
      fresh per-channel headers, on up to 4096 channels and across chunk-size
      switches, the parser at the other end delivers exactly that list, type,
      channel, stream, timestamp and body. */
  lemma ChunkStreamRoundTrip(msgs: seq<Message>)
    requires forall m | m in msgs :: Sendable(m)
    requires |ChannelsOf(msgs)| <= MAX_CHANNELS
    ensures var o := Run(INITIAL, EncodeAll(START, msgs).bytes);
            o.out == msgs && o.rest == [] && !o.p.framingError
  {
    assert START.sent.Keys + ChannelsOf(msgs) == ChannelsOf(msgs);
    RoundTripFrom(START, INITIAL, msgs);
  }

  /** The same, when the transport delivers the stream in pieces of any size. */
  lemma SplitRoundTrip(msgs: seq<Message>, pieces: seq<seq<byte>>)
    requires forall m | m in msgs :: Sendable(m)
    requires |ChannelsOf(msgs)| <= MAX_CHANNELS
    requires Flatten(pieces) == EncodeAll(START, msgs).bytes
    ensures Feed(INITIAL, [], pieces).out == msgs
  {
    ChunkStreamRoundTrip(msgs);
    SplitInvariance(INITIAL, [], pieces);
    assert [] + Flatten(pieces) == Flatten(pieces);
  }

  // ---- what cannot be delivered ---------------------------------------------------

  predicate Deliverable(m: Message) {
    WireChannel(m.channelId) && |m.body| <= MAX_MESSAGE_LENGTH
  }

  /** Every channel's last header was read off the wire, or none was. */
  predicate Addressed(p: Parser) {
    forall id | id in p.channels :: p.channels[id].received == BLANK || WireChannel(p.channels[id].received.channelId)
  }

  lemma BasicIsWire(s: seq<byte>)
    requires ReadBasic(s).Got?
    ensures WireChannel(ReadBasic(s).value.channelId)
  {
  }

  lemma HeaderIsWire(h: Header, s: seq<byte>)
    requires TryDeserialize(h, s).Got?
    ensures WireChannel(TryDeserialize(h, s).value.channelId)
  {
    hide ReadBasic;
    BasicIsWire(s);
  }

  lemma HeaderAddresses(p: Parser, s: seq<byte>)
    requires Addressed(p)
    ensures Addressed(HeaderPhase(p, s).p)
    ensures var f := HeaderPhase(p, s);
            f.Ready? && p.readHeader ==>
              f.p.channelId in f.p.channels && WireChannel(f.p.channels[f.p.channelId].received.channelId)
  {
    hide TryDeserialize, ReadBasic;
    if p.readHeader && ReadBasic(s).Got? {
      var ch := ChannelOf(p.channels, ReadBasic(s).value.channelId);
      if TryDeserialize(ch.received, s).Got? {
        HeaderIsWire(ch.received, s);
      }
    }
  }

  lemma PayloadDelivers(p: Parser, s: seq<byte>)
    requires Addressed(p)
    requires p.channelId in p.channels && WireChannel(p.channels[p.channelId].received.channelId)
    ensures var f := PayloadPhase(p, s); Addressed(f.p) && (f.Chunk? ==> forall m | m in f.done :: Deliverable(m))
  {
    var ch := p.channels[p.channelId];
    AdjustKeeps(ch);
    hide AdjustTimestamp;
  }

  /** Whatever bytes a peer sends, the parser never delivers a message on an id
      outside 2..65599 or with a body over 8 MiB. */
  lemma {:induction false} DeliversOnlyDeliverable(p: Parser, s: seq<byte>)
    requires Addressed(p) && p.readHeader
    ensures forall m | m in Run(p, s).out :: Deliverable(m)
    decreases |s|
  {
    hide HeaderPhase, PayloadPhase, Addressed, Deliverable;
    if s == [] {
    } else {
      PhaseSizes(p, s);
      HeaderAddresses(p, s);
      match HeaderPhase(p, s) {
        case Blocked(q) =>
        case Ready(q, s1) =>
          PayloadSizes(q, s1);
          PayloadDelivers(q, s1);
          var f := PayloadPhase(q, s1);
          if f.Chunk? {
            DeliversOnlyDeliverable(f.p, f.rest);
          }
      }
    }
  }

  lemma HeaderId(h: Header, s: seq<byte>)
    requires TryDeserialize(h, s).Got?
    ensures ReadBasic(s).Got? && TryDeserialize(h, s).value.channelId == ReadBasic(s).value.channelId
  {
    hide ReadBasic;
  }

  lemma HeaderOpens(p: Parser, s: seq<byte>)
    requires p.readHeader
    ensures var f := HeaderPhase(p, s);
            && p.channels.Keys <= f.p.channels.Keys
            && (f.Ready? ==>
                  f.p.channelId in f.p.channels && f.p.channels[f.p.channelId].received.channelId == f.p.channelId)
  {
    hide TryDeserialize, ReadBasic;
    if ReadBasic(s).Got? {
      var ch := ChannelOf(p.channels, ReadBasic(s).value.channelId);
      if TryDeserialize(ch.received, s).Got? {
        HeaderId(ch.received, s);
      }
    }
  }

  lemma PayloadOpens(p: Parser, s: seq<byte>)
    requires p.channelId in p.channels && p.channels[p.channelId].received.channelId == p.channelId
    ensures var f := PayloadPhase(p, s);
            && p.channels.Keys <= f.p.channels.Keys
            && (f.Chunk? ==> forall m | m in f.done :: m.channelId in f.p.channels)
  {
    AdjustKeeps(p.channels[p.channelId]);
    hide AdjustTimestamp;
  }

  /** Every message is delivered on a channel the parser has opened, and none is closed. */
  lemma {:induction false} DeliversOnOpen(p: Parser, s: seq<byte>)
    requires p.readHeader
    ensures p.channels.Keys <= Run(p, s).p.channels.Keys
    ensures forall m | m in Run(p, s).out :: m.channelId in Run(p, s).p.channels
    decreases |s|
  {
    hide HeaderPhase, PayloadPhase;
    if s == [] {
    } else {
      PhaseSizes(p, s);
      HeaderOpens(p, s);
      match HeaderPhase(p, s) {
        case Blocked(q) =>
        case Ready(q, s1) =>
          PayloadSizes(q, s1);
          PayloadOpens(q, s1);
          var f := PayloadPhase(q, s1);
          if f.Chunk? {
            DeliversOnOpen(f.p, f.rest);
          }
      }
    }
  }

  /** ... so no input is delivered on more than 4096 channels. */
  lemma DeliversOnFew(s: seq<byte>)
    ensures |ChannelsOf(Run(INITIAL, s).out)| <= MAX_CHANNELS
  {
    hide Run;
    DeliversOnOpen(INITIAL, s);
    RunKeepsValid(INITIAL, s);
    var o := Run(INITIAL, s);
    assert forall i | 0 <= i < |o.out| :: o.out[i] in o.out;
    SubsetSize(ChannelsOf(o.out), o.p.channels.Keys);
  }

  /** Exactly when the round trip holds: the channel ids, their number and the body
      lengths decide it, and a sender can check all three before writing. */
  lemma RoundTripExactly(msgs: seq<Message>)
    requires forall m | m in msgs :: LegalChunkSize(m)
    ensures Run(INITIAL, EncodeAll(START, msgs).bytes).out == msgs
            <==> (forall m | m in msgs :: Deliverable(m)) && |ChannelsOf(msgs)| <= MAX_CHANNELS
  {
    hide Run, EncodeAll;
    var s := EncodeAll(START, msgs).bytes;
    if (forall m | m in msgs :: Deliverable(m)) && |ChannelsOf(msgs)| <= MAX_CHANNELS {
      ChunkStreamRoundTrip(msgs);
    }
    DeliversOnlyDeliverable(INITIAL, s);
    DeliversOnFew(s);
  }

  // ---- the tunnelled sender -------------------------------------------------------

  /** `rtmpt_session::serialize_message` adopts a new chunk size before it frames
      the very message that announces it. */
  function EncodeTunnelled(w: Writer, m: Message): Written {
    Encode(w.(chunkSize := NextChunkSize(w.chunkSize, m)), m)
  }

  function EncodeAllTunnelled(w: Writer, msgs: seq<Message>): Written
    decreases |msgs|
  {
    if msgs == [] then Written(w, [])
    else
      var first := EncodeTunnelled(w, msgs[0]);
      var others := EncodeAllTunnelled(first.w, msgs[1..]);
      Written(others.w, first.bytes + others.bytes)
  }

  /** The sizes at which the announcement itself is cut. */
  predicate CutsItself(m: Message) {
    m.messageType == SET_CHUNK_SIZE && ReadU32Be(m.body).Got? && 1 <= ReadU32Be(m.body).value <= 3
  }

  /** An announcement is one 32-bit number. */
  predicate FourByteAnnouncement(m: Message) {
    m.messageType == SET_CHUNK_SIZE ==> |m.body| == 4
  }

  /** The tunnelled sender's framing is the plain one exactly when the announced
      size does not cut the announcement. */
  lemma TunnelledFraming(w: Writer, m: Message)
    requires FramingSize(w) >= 4 && FourByteAnnouncement(m)
    ensures EncodeTunnelled(w, m).bytes == Encode(w, m).bytes <==> !CutsItself(m)
    ensures !CutsItself(m) ==> EncodeTunnelled(w, m) == Encode(w, m)
    ensures !CutsItself(m) ==> FramingSize(Encode(w, m).w) >= 4
  {
    hide Compressed, WriteFormat, ReadU32Be;
    if CutsItself(m) {
      var n := ReadU32Be(m.body).value;
      var h := NewHeader(w, m);
      CutPosition(m, n, h);
      assert EncodeTunnelled(w, m).bytes == WriteFormat(h) + Chunks(m.body, n, h);
      assert Encode(w, m).bytes == WriteFormat(h) + m.body;
    }
  }

  /** Where the announcement was cut, the peer finds a type-3 header byte. */
  lemma CutPosition(m: Message, n: nat, h: Header)
    requires |m.body| == 4 && ReadU32Be(m.body).Got? && ReadU32Be(m.body).value == n && 1 <= n <= 3
    ensures var s := Chunks(m.body, n, h); |s| >= 5 && s[..4] != m.body
  {
    hide WriteContinue;
    var s := Chunks(m.body, n, h);
    ContinueByte(h);
    assert s == m.body[..n] + (WriteContinue(h) + Chunks(m.body[n..], n, h));
    assert s[n] == WriteContinue(h)[0];
    ChunksLength(m.body[n..], n, h);
    assert s[..4][n] == s[n];
  }

  lemma ContinueByte(h: Header)
    ensures |WriteContinue(h)| >= 1 && WriteContinue(h)[0] >= 0xC0
  {
  }

  lemma {:induction false} ChunksLength(body: seq<byte>, n: nat, h: Header)
    requires n > 0
    ensures |Chunks(body, n, h)| >= |body|
    decreases |body|
  {
    if |body| <= n {
    } else {
      ChunksLength(body[n..], n, h);
    }
  }

  /** From any two ends in step, an announcement that cuts itself reaches the peer as
      something else, whatever follows. */
  lemma MisreadAnnouncement(w: Writer, p: Parser, m: Message, rest: seq<byte>)
    requires Synced(w, p) && Sendable(m) && CutsItself(m) && |m.body| == 4 && FramingSize(w) >= 4
    requires |w.sent.Keys + {m.channelId}| <= MAX_CHANNELS
    ensures var out := Run(p, EncodeTunnelled(w, m).bytes + rest).out; out != [] && out[0].body != m.body
  {
    hide HeaderPhase, PayloadPhase, WriteFormat, Compressed, ReadU32Be, Chunks, InStep, Assembling;
    var n := ReadU32Be(m.body).value;
    var h := NewHeader(w, m);
    var s := Chunks(m.body, n, h) + rest;
    CutPosition(m, n, h);
    assert EncodeTunnelled(w, m).bytes + rest == WriteFormat(h) + s;
    assert s[..4] == Chunks(m.body, n, h)[..4];
    var mid := FirstHeader(w, p, m, s);
    FourByteBody(mid, m, h, s);
    assert WriteFormat(h) + s != [] by {
      BasicOfFormat(h, s);
    }
  }

  lemma FourByteBody(p: Parser, m: Message, h: Header, s: seq<byte>)
    requires p.channelId == m.channelId && p.channelId in p.channels && p.chunkSize >= 4
    requires Assembling(p.channels[p.channelId], m, h, 0) && |m.body| == 4 && |s| >= 4
    ensures var f := PayloadPhase(p, s); f.Chunk? && |f.done| == 1 && f.done[0].body == s[..4]
  {
    var ch := p.channels[p.channelId];
    assert p.channels[p.channelId := ch] == p.channels;
    assert [] + s[..4] == s[..4];
    AdjustKeeps(ch);
    hide AdjustTimestamp, Dispatch;
  }

  /** Without such an announcement the tunnelled stream is the plain one. */
  lemma {:induction false} TunnelledIsPlain(w: Writer, msgs: seq<Message>)
    requires FramingSize(w) >= 4 && forall m | m in msgs :: FourByteAnnouncement(m) && !CutsItself(m)
    ensures EncodeAllTunnelled(w, msgs) == EncodeAll(w, msgs)
    decreases |msgs|
  {
    hide Encode, EncodeTunnelled, CutsItself, FourByteAnnouncement;
    if msgs == [] {
    } else {
      assert msgs[0] in msgs && forall m | m in msgs[1..] :: m in msgs;
      TunnelledFraming(w, msgs[0]);
      TunnelledIsPlain(Encode(w, msgs[0]).w, msgs[1..]);
    }
  }

  /** With one, the first of them is misread. */
  lemma {:induction false} TunnelledFails(w: Writer, p: Parser, msgs: seq<Message>)
    requires Synced(w, p) && FramingSize(w) >= 4
    requires forall m | m in msgs :: Sendable(m) && FourByteAnnouncement(m)
    requires exists m :: m in msgs && CutsItself(m)
    requires |w.sent.Keys + ChannelsOf(msgs)| <= MAX_CHANNELS
    ensures Run(p, EncodeAllTunnelled(w, msgs).bytes).out != msgs
    decreases |msgs|
  {
    hide Synced, Sendable, Encode, EncodeTunnelled, CutsItself, Run;
    var m, others := msgs[0], msgs[1..];
    assert m in msgs && forall x | x in others :: x in msgs;
    var first := EncodeTunnelled(w, m);
    var tail := EncodeAllTunnelled(first.w, others).bytes;
    assert m.channelId in ChannelsOf(msgs);
    SubsetSize(w.sent.Keys + {m.channelId}, w.sent.Keys + ChannelsOf(msgs));
    if CutsItself(m) {
      CutBody(m);
      MisreadAnnouncement(w, p, m, tail);
    } else {
      TunnelledFraming(w, m);
      var q := OneMessage(w, p, m, tail);
      SentKeys(w, m);
      RestChannels(msgs);
      SubsetSize(first.w.sent.Keys + ChannelsOf(others), w.sent.Keys + ChannelsOf(msgs));
      TunnelledFails(first.w, q, others);
      assert ([m] + Run(q, tail).out)[1..] == Run(q, tail).out;
    }
  }

  lemma CutBody(m: Message)
    requires CutsItself(m) && FourByteAnnouncement(m)
    ensures |m.body| == 4
  {
  }

  lemma RestChannels(msgs: seq<Message>)
    requires msgs != []
    ensures ChannelsOf(msgs[1..]) <= ChannelsOf(msgs)
  {
    forall c | c in ChannelsOf(msgs[1..])
      ensures c in ChannelsOf(msgs)
    {
      var i :| 0 <= i < |msgs| - 1 && msgs[1..][i].channelId == c;
      assert msgs[i + 1].channelId == c;
    }
  }

  /** The tunnelled round trip, exactly: what the plain one asks for, and no
      announcement of a chunk size of 1, 2 or 3. */
  lemma TunnelledExactly(msgs: seq<Message>)
    requires forall m | m in msgs :: LegalChunkSize(m) && FourByteAnnouncement(m)
    ensures Run(INITIAL, EncodeAllTunnelled(START, msgs).bytes).out == msgs
            <==> (forall m | m in msgs :: Deliverable(m) && !CutsItself(m)) && |ChannelsOf(msgs)| <= MAX_CHANNELS
  {
    hide Run, EncodeAll, EncodeAllTunnelled, CutsItself;
    var s := EncodeAllTunnelled(START, msgs).bytes;
    DeliversOnlyDeliverable(INITIAL, s);
    DeliversOnFew(s);
    if forall m | m in msgs :: !CutsItself(m) {
      TunnelledIsPlain(START, msgs);
      RoundTripExactly(msgs);
    } else if (forall m | m in msgs :: Deliverable(m)) && |ChannelsOf(msgs)| <= MAX_CHANNELS {
      assert START.sent.Keys + ChannelsOf(msgs) == ChannelsOf(msgs);
      TunnelledFails(START, INITIAL, msgs);
    }
  }

  /** A chunk size of 1, announced through the tunnel on a fresh connection. */
  lemma TunnelledExample()
    ensures var m := Message(SET_CHUNK_SIZE, 2, 0, 0, [0, 0, 0, 1]);
            Run(INITIAL, EncodeAllTunnelled(START, [m]).bytes).out != [m]
  {
    hide Run, EncodeAllTunnelled;
    var m := Message(SET_CHUNK_SIZE, 2, 0, 0, [0, 0, 0, 1]);
    assert ReadU32Be(m.body) == Got(1, []);
    assert m in [m] && CutsItself(m);
    TunnelledExactly([m]);
  }

  // ---- the sender object --------------------------------------------------------

  class Sender {
    var sent: map<u32, Header>  // each channel's sent header
    var chunkSize: nat
    var output: seq<byte>

    constructor ()
      ensures State() == START && output == []
    {
      sent, chunkSize, output := map[], DEFAULT_CHUNK_SIZE, [];
    }

    function State(): Writer
      reads this
    {
      Writer(sent, chunkSize)
    }

    /** `chunk_buffer`: all chunks but the last are full, each followed by a
        type-3 header. */
    method ChunkBuffer(body: seq<byte>, size: nat, h: Header)
      requires size > 0
      modifies this`output
      ensures output == old(output) + Chunks(body, size, h)
    {
      hide WriteContinue;
      if |body| != 0 {
        var chunks := |body| / size + if |body| % size == 0 then 0 else 1;
        CeilingDivision(|body|, size);
        var left := body;
        for i := 0 to chunks - 1
          invariant |left| == |body| - i * size
          invariant old(output) + Chunks(body, size, h) == output + Chunks(left, size, h)
        {
          FullBefore(|body|, size, chunks, i);
          var n := if |left| > size then size else |left|;
          Regroup(output, left[..n], WriteContinue(h), Chunks(left[n..], size, h));
          output := output + left[..n];
          output := output + WriteContinue(h);
          left := left[n..];
          assert (i + 1) * size == i * size + size;
        }
        assert (chunks - 1) * size == chunks * size - size;
        output := output + left;
      }
    }

    /** `rtmp_connection::serialize_message`: the framing size is taken before the
        message can change it. */
    method SerializeMessage(m: Message) returns (ok: bool)
      modifies this
      ensures ok <==> |m.body| <= MAX_WIRE_LENGTH
      ensures State() == Encode(old(State()), m).w
      ensures output == old(output) + Encode(old(State()), m).bytes
    {
      hide WriteFormat, Compressed;
      var size := if chunkSize == 0 then DEFAULT_CHUNK_SIZE else chunkSize;
      ghost var before := State();
      chunkSize := NextChunkSize(chunkSize, m);
      if |m.body| > MAX_WIRE_LENGTH {
        return false;
      }
      var prev := if m.channelId in sent then sent[m.channelId] else BLANK;
      var h := Compressed(Header(m.channelId, m.timestamp, 0, 0, |m.body|, m.streamId, m.messageType, NEW, false), prev);
      CompressedKeeps(Header(m.channelId, m.timestamp, 0, 0, |m.body|, m.streamId, m.messageType, NEW, false), prev);
      output := output + WriteFormat(h);
      ChunkBuffer(m.body, size, h);
      sent := sent[m.channelId := h];
      return true;
    }
  }

  lemma Regroup(a: seq<byte>, b: seq<byte>, c: seq<byte>, d: seq<byte>)
    ensures a + (b + (c + d)) == a + b + c + d
  {
  }

  lemma CeilingDivision(n: nat, d: nat)
    requires n > 0 && d > 0
    ensures var q := n / d + if n % d == 0 then 0 else 1; q >= 1 && (q - 1) * d < n <= q * d
  {
    assert n == n / d * d + n % d;
  }

  lemma FullBefore(n: nat, d: nat, q: nat, i: nat)
    requires d > 0 && i + 1 < q && (q - 1) * d < n
    ensures n - i * d > d
  {
    assert (q - 1) * d >= (i + 1) * d;
    assert (i + 1) * d == i * d + d;
  }
}
