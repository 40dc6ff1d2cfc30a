/** The inbound chunk-stream parser (`rtmp_parser.cpp`, `rtmp_channel.h`,
    `channel_manager.h`): resumable framing, per-channel reassembly, the
    framing-error latch and the dispatch of completed messages.

    `Run` is one `parse` call on the readable bytes. The theorems say that how
    the transport cuts the byte stream does not matter, and that what a peer can
    make the parser hold is bounded in every reachable state. */
module RtmpParser {
  import opened Bytes
  import opened RtmpHeader

  const MAX_CHANNELS := 4096
  const MAX_MESSAGE_LENGTH := 8 * 1024 * 1024
  const MAX_CHUNK_SIZE := 0xFF_FFFF
  const MAX_PEER_CHUNK_SIZE := 0x7FFF_FFFF
  const DEFAULT_CHUNK_SIZE := 128

  const SET_CHUNK_SIZE: byte := 1
  const ABORT: byte := 2

  /** One chunk stream, inbound side. `buffer` is the message assembled so far. */
  datatype Channel = Channel(
    received: Header,
    buffer: seq<byte>,
    prevComplete: bool,
    usesContinuation: bool,
    prevFormat: Format,
    prevDelta: u32,
    prevTimestamp: u32)

  const FRESH: Channel := Channel(BLANK, [], false, false, NEW, 0, 0)

  datatype Parser = Parser(
    channels: map<u32, Channel>,
    readHeader: bool,
    chunkSize: nat,
    channelId: u32,
    framingError: bool)

  const INITIAL: Parser := Parser(map[], true, DEFAULT_CHUNK_SIZE, 0, false)

  /** A completed message as it reaches dispatch. */
  datatype Message = Message(
    messageType: byte,
    channelId: u32,
    streamId: u32,
    timestamp: u32,
    body: seq<byte>)

  // ---- channels (rtmp_channel.h, channel_manager.h) --------------------------

  function ChannelOf(channels: map<u32, Channel>, id: u32): Channel {
    if id in channels then channels[id] else FRESH
  }

  function TryDeserializeHeader(ch: Channel, s: seq<byte>): Read<Channel> {
    var (h, rest) :- TryDeserialize(ch.received, s);
    Got(ch.(received := h, prevFormat := ch.received.format, prevDelta := ch.received.deltaRead,
            prevTimestamp := ch.received.timestamp), rest)
  }

  /** A type-3 header that starts a new message advances the timestamp by the
      previous delta, or by the previous timestamp after a type-0 message. */
  function AdjustTimestamp(ch: Channel): Channel {
    if ch.prevComplete && ch.received.format == CONTINUE then
      if ch.prevFormat != NEW then
        ch.(received := ch.received.(timestamp := Add32(ch.received.timestamp, ch.prevDelta)),
            usesContinuation := true)
      else
        ch.(received := ch.received.(timestamp := Add32(ch.received.timestamp, ch.prevTimestamp),
                                     deltaRead := ch.prevTimestamp),
            usesContinuation := true)
    else if ch.usesContinuation && ch.received.format != CONTINUE then
      ch.(usesContinuation := false)
    else
      ch
  }

  // ---- one chunk --------------------------------------------------------------

  datatype Phase =
    | Blocked(p: Parser)
    | Ready(p: Parser, rest: seq<byte>)
    | Chunk(p: Parser, rest: seq<byte>, done: seq<Message>)

  /** Everything up to the commit of the chunk header. */
  function HeaderPhase(p: Parser, s: seq<byte>): Phase {
    if !p.readHeader then Ready(p, s)
    else
      match ReadBasic(s)
      case Short => Blocked(p)
      case Got(b, _) =>
        if b.channelId !in p.channels && |p.channels| >= MAX_CHANNELS then
          Blocked(p.(framingError := true))
        else
          var ch := ChannelOf(p.channels, b.channelId);
          var q := p.(channels := p.channels[b.channelId := ch], channelId := b.channelId);
          match TryDeserializeHeader(ch, s)
          case Short => Blocked(q)
          case Got(ch', rest) =>
            Ready(q.(channels := q.channels[b.channelId := ch'], readHeader := false), rest)
  }

  predicate Illegal(p: Parser, ch: Channel) {
    || p.chunkSize == 0
    || ch.received.length > MAX_MESSAGE_LENGTH
    || |ch.buffer| > ch.received.length
  }

  function Min(a: nat, b: nat): nat {
    if a < b then a else b
  }

  /** The chunk payload, once the header is committed. */
  function PayloadPhase(p0: Parser, s: seq<byte>): Phase {
    var ch := ChannelOf(p0.channels, p0.channelId);
    var p := p0.(channels := p0.channels[p0.channelId := ch]);
    if Illegal(p, ch) then Blocked(p.(framingError := true))
    else
      var size := Min(ch.received.length - |ch.buffer|, p.chunkSize);
      if |s| < size then Blocked(p)
      else
        var body := ch.buffer + s[..size];
        var complete := |body| == ch.received.length;
        var ch' := AdjustTimestamp(ch).(buffer := body, prevComplete := complete);
        var q := p.(readHeader := true, channels := p.channels[p.channelId := ch']);
        if complete then Chunk(Dispatch(q, ch'), s[size..], [Assembled(ch')])
        else Chunk(q, s[size..], [])
  }

  function Assembled(ch: Channel): Message {
    Message(ch.received.messageType, ch.received.channelId, ch.received.streamId, ch.received.timestamp, ch.buffer)
  }

  /** `set_chunk_size`: section 5.4.1 allows 1..0x7FFFFFFF. */
  function SetChunkSize(current: nat, n: u32): nat {
    if n < 1 || n > MAX_PEER_CHUNK_SIZE then current
    else if n > MAX_CHUNK_SIZE then MAX_CHUNK_SIZE else n
  }

  /** The framing effects of a completed message: SetChunkSize, Abort, and the
      release of the channel's own buffer. A control body under 4 bytes is dropped. */
  function Dispatch(p: Parser, ch: Channel): Parser {
    var arg := ReadU32Be(ch.buffer);
    var p1 :=
      if ch.received.messageType == SET_CHUNK_SIZE && arg.Got? then
        p.(chunkSize := SetChunkSize(p.chunkSize, arg.value))
      else if ch.received.messageType == ABORT && arg.Got? then
        p.(channels := Cleared(p.channels, arg.value))
      else p;
    p1.(channels := Cleared(p1.channels, p.channelId))
  }

  function Cleared(channels: map<u32, Channel>, id: u32): map<u32, Channel> {
    if id in channels then channels[id := channels[id].(buffer := [])] else channels
  }

  // ---- one parse call -------------------------------------------------------

  datatype Outcome = Outcome(p: Parser, rest: seq<byte>, out: seq<Message>)

  function Then(msgs: seq<Message>, o: Outcome): Outcome {
    o.(out := msgs + o.out)
  }

  function Run(p: Parser, s: seq<byte>): Outcome
    decreases |s|, if p.readHeader then 0 else 1
  {
    if s == [] then Outcome(p, s, [])
    else
      PhaseSizes(p, s);
      match HeaderPhase(p, s)
      case Blocked(q) => Outcome(q, s, [])
      case Ready(q, s1) =>
        var f := PayloadPhase(q, s1);
        if f.Blocked? then Outcome(f.p, s1, []) else Then(f.done, Run(f.p, f.rest))
  }

  lemma PhaseSizes(p: Parser, s: seq<byte>)
    ensures var f := HeaderPhase(p, s);
            && (f.Ready? && p.readHeader ==> !f.p.readHeader && |f.rest| < |s|)
            && (!p.readHeader ==> f == Ready(p, s))
    ensures !HeaderPhase(p, s).Chunk?
    ensures HeaderPhase(p, s).Ready? ==> HeaderPhase(p, s).p.framingError == p.framingError
  {
    if p.readHeader && ReadBasic(s).Got? {
      var ch := ChannelOf(p.channels, ReadBasic(s).value.channelId);
      if TryDeserialize(ch.received, s).Got? {
        ExtendHeader(ch.received, s, []);
      }
    }
  }

  lemma PayloadSizes(p: Parser, s: seq<byte>)
    ensures var f := PayloadPhase(p, s);
            && (f.Chunk? ==> |f.rest| <= |s| && f.p.readHeader && f.p.framingError == p.framingError)
            && (f.Blocked? ==> f.p.readHeader == p.readHeader)
            && !f.Ready?
  {
    hide AdjustTimestamp;
  }

  // ---- split invariance -----------------------------------------------------

  lemma ExtendHeaderPhase(p: Parser, s: seq<byte>, tail: seq<byte>)
    ensures var f, g := HeaderPhase(p, s), HeaderPhase(p, s + tail);
            && (f.Ready? ==> g == Ready(f.p, f.rest + tail))
            && (f.Blocked? && f.p.framingError && !p.framingError ==> g == f)
            && (f.Blocked? && !f.p.framingError ==> g == HeaderPhase(f.p, s + tail))
  {
    if p.readHeader && ReadBasic(s).Got? {
      ExtendBasic(s, tail);
      var id := ReadBasic(s).value.channelId;
      if id in p.channels || |p.channels| < MAX_CHANNELS {
        var ch := ChannelOf(p.channels, id);
        if TryDeserialize(ch.received, s).Got? {
          ExtendHeader(ch.received, s, tail);
        } else {
          var q := HeaderPhase(p, s).p;
          assert ChannelOf(q.channels, id) == ch;
          assert q.channels[id := ch] == q.channels;
        }
      }
    }
  }

  lemma ExtendPayloadPhase(p: Parser, s: seq<byte>, tail: seq<byte>)
    ensures var f, g := PayloadPhase(p, s), PayloadPhase(p, s + tail);
            && (f.Chunk? ==> g == Chunk(f.p, f.rest + tail, f.done))
            && (f.Blocked? && f.p.framingError && !p.framingError ==> g == f)
            && (f.Blocked? && !f.p.framingError ==> g == PayloadPhase(f.p, s + tail))
            && !f.Ready?
  {
    var ch := ChannelOf(p.channels, p.channelId);
    if !Illegal(p, ch) {
      var size := Min(ch.received.length - |ch.buffer|, p.chunkSize);
      if size <= |s| {
        Dropped(s, tail, size);
        assert (s + tail)[..size] == s[..size];
      }
    }
    var q := PayloadPhase(p, s).p;
    assert PayloadPhase(p, s).Blocked? ==> q.channels[q.channelId := ch] == q.channels;
  }

  /** What `Run` does once the header at the cursor is committed. */
  function AfterHeader(q: Parser, s: seq<byte>): Outcome {
    var f := PayloadPhase(q, s);
    if f.Blocked? then Outcome(f.p, s, [])
    else Then(f.done, Run(f.p, f.rest))
  }

  /** Feeding `a` and later `b` is feeding `a + b`; and a framing error in `a`
      stops both at the same message in the same state. */
  lemma {:induction false} Resume(p: Parser, a: seq<byte>, b: seq<byte>)
    requires !p.framingError
    ensures var o := Run(p, a);
            Run(p, a + b) ==
              if o.p.framingError then o.(rest := o.rest + b)
              else Then(o.out, Run(o.p, o.rest + b))
    decreases |a|, if p.readHeader then 0 else 1
  {
    hide HeaderPhase, PayloadPhase;
    if a == [] {
      assert a + b == b;
    } else {
      PhaseSizes(p, a);
      ExtendHeaderPhase(p, a, b);
      match HeaderPhase(p, a) {
        case Blocked(q) =>
        case Ready(q, s1) =>
          PayloadSizes(q, s1);
          ExtendPayloadPhase(q, s1, b);
          assert Run(p, a + b) == AfterHeader(q, s1 + b);
          match PayloadPhase(q, s1) {
            case Blocked(q2) =>
              PhaseSizes(q2, s1 + b);
              assert !q2.framingError && s1 + b != [] ==> Run(q2, s1 + b) == AfterHeader(q2, s1 + b);
            case Chunk(q2, s2, m) =>
              Resume(q2, s2, b);
          }
      }
    }
  }

  /** The transport's reads, parsed one by one until a framing error. */
  function Feed(p: Parser, pending: seq<byte>, pieces: seq<seq<byte>>): Outcome
    decreases |pieces|
  {
    if pieces == [] || p.framingError then Outcome(p, pending, [])
    else
      var o := Run(p, pending + pieces[0]);
      Then(o.out, Feed(o.p, o.rest, pieces[1..]))
  }

  function Flatten(pieces: seq<seq<byte>>): seq<byte> {
    if pieces == [] then [] else pieces[0] + Flatten(pieces[1..])
  }

  /** Split invariance: however the stream is cut, the parser dispatches the same
      messages and ends in the same state as one call on the whole stream. */
  lemma {:induction false} SplitInvariance(p: Parser, pending: seq<byte>, pieces: seq<seq<byte>>)
    requires !p.framingError
    requires Run(p, pending) == Outcome(p, pending, [])
    ensures var f, w := Feed(p, pending, pieces), Run(p, pending + Flatten(pieces));
            f.p == w.p && f.out == w.out && (!f.p.framingError ==> f.rest == w.rest)
    decreases |pieces|
  {
    if pieces == [] {
      assert pending + Flatten(pieces) == pending;
    } else {
      var whole := pending + pieces[0];
      var tail := Flatten(pieces[1..]);
      assert pending + Flatten(pieces) == whole + tail;
      Resume(p, whole, tail);
      var o := Run(p, whole);
      if !o.p.framingError {
        Resume(p, whole, []);
        assert whole + [] == whole && o.rest + [] == o.rest;
        assert Run(o.p, o.rest).out == [] by {
          assert |o.out + Run(o.p, o.rest).out| == |o.out|;
        }
        SplitInvariance(o.p, o.rest, pieces[1..]);
      }
    }
  }

  // ---- what a peer can make the parser hold ----------------------------------

  predicate Valid(p: Parser) {
    && |p.channels| <= MAX_CHANNELS
    && 1 <= p.chunkSize <= MAX_CHUNK_SIZE
    && (forall id | id in p.channels :: |p.channels[id].buffer| <= MAX_MESSAGE_LENGTH)
    && (!p.readHeader ==> p.channelId in p.channels)
  }

  lemma HeaderKeepsValid(p: Parser, s: seq<byte>)
    requires Valid(p)
    ensures Valid(HeaderPhase(p, s).p)
  {
    hide TryDeserialize, ReadBasic, Valid;
    if p.readHeader && ReadBasic(s).Got? {
      var id := ReadBasic(s).value.channelId;
      ValidParts(p, id);
      if id in p.channels || |p.channels| < MAX_CHANNELS {
        var ch := ChannelOf(p.channels, id);
        ChannelUpdated(p, id, ch, true);
        var q := p.(channels := p.channels[id := ch], channelId := id);
        if TryDeserializeHeader(ch, s).Got? {
          ChannelUpdated(q, id, TryDeserializeHeader(ch, s).value, false);
        }
      }
    }
  }

  lemma ValidParts(p: Parser, id: u32)
    requires Valid(p)
    ensures |ChannelOf(p.channels, id).buffer| <= MAX_MESSAGE_LENGTH
    ensures Valid(p.(framingError := true))
  {
  }

  lemma ChannelUpdated(p: Parser, id: u32, ch: Channel, reading: bool)
    requires Valid(p) && |ch.buffer| <= MAX_MESSAGE_LENGTH && (id in p.channels || |p.channels| < MAX_CHANNELS)
    ensures Valid(p.(channels := p.channels[id := ch], channelId := id, readHeader := reading))
  {
    assert p.channels[id := ch].Keys == p.channels.Keys + {id};
  }

  lemma ClearedKeeps(channels: map<u32, Channel>, id: u32)
    ensures Cleared(channels, id).Keys == channels.Keys
    ensures forall k | k in channels :: |Cleared(channels, id)[k].buffer| <= |channels[k].buffer|
  {
  }

  lemma PayloadKeepsValid(p: Parser, s: seq<byte>)
    requires Valid(p) && !p.readHeader
    ensures Valid(PayloadPhase(p, s).p)
  {
    hide AdjustTimestamp;
    var ch := p.channels[p.channelId];
    assert p.channels[p.channelId := ch] == p.channels;
    if Illegal(p, ch) {
      return;
    }
    var size := Min(ch.received.length - |ch.buffer|, p.chunkSize);
    if size <= |s| {
      var body := ch.buffer + s[..size];
      var ch' := AdjustTimestamp(ch).(buffer := body, prevComplete := |body| == ch.received.length);
      var q := p.(readHeader := true, channels := p.channels[p.channelId := ch']);
      assert q.channels.Keys == p.channels.Keys;
      DispatchKeepsValid(q, ch');
    }
  }

  lemma DispatchKeepsValid(p: Parser, ch: Channel)
    requires Valid(p) && p.readHeader
    ensures Valid(Dispatch(p, ch))
  {
    hide Cleared, ReadU32Be;
    var arg := ReadU32Be(ch.buffer);
    if arg.Got? {
      ClearedKeeps(p.channels, arg.value);
      ClearedKeeps(Cleared(p.channels, arg.value), p.channelId);
    }
    ClearedKeeps(p.channels, p.channelId);
  }

  /** From any valid state, any input leaves at most 4096 channels, each holding
      at most 8 MiB, and a chunk size the framing can use. */
  lemma {:induction false} RunKeepsValid(p: Parser, s: seq<byte>)
    requires Valid(p)
    ensures Valid(Run(p, s).p)
    decreases |s|, if p.readHeader then 0 else 1
  {
    if s == [] {
    } else {
      hide HeaderPhase, PayloadPhase;
      PhaseSizes(p, s);
      HeaderKeepsValid(p, s);
      match HeaderPhase(p, s) {
        case Blocked(q) =>
        case Ready(q, s1) =>
          PayloadSizes(q, s1);
          PayloadKeepsValid(q, s1);
          match PayloadPhase(q, s1) {
            case Blocked(q2) =>
            case Chunk(q2, s2, m) => RunKeepsValid(q2, s2);
          }
      }
    }
  }

  lemma {:induction false} FeedKeepsValid(p: Parser, pending: seq<byte>, pieces: seq<seq<byte>>)
    requires Valid(p)
    ensures Valid(Feed(p, pending, pieces).p)
    decreases |pieces|
  {
    if pieces == [] || p.framingError {
    } else {
      var o := Run(p, pending + pieces[0]);
      RunKeepsValid(p, pending + pieces[0]);
      FeedKeepsValid(o.p, o.rest, pieces[1..]);
    }
  }

  // ---- the parser object ------------------------------------------------------

  datatype Verdict = Complete | NoMessage | Indeterminate

  class Framer {
    var channels: map<u32, Channel>
    var readHeader: bool
    var chunkSize: nat
    var channelId: u32
    var framingError: bool
    var delivered: seq<Message>  // what the sink was handed

    constructor ()
      ensures State() == INITIAL && delivered == []
    {
      channels, readHeader, chunkSize, channelId, framingError := map[], true, DEFAULT_CHUNK_SIZE, 0, false;
      delivered := [];
    }

    function State(): Parser
      reads this
    {
      Parser(channels, readHeader, chunkSize, channelId, framingError)
    }

    /** The basic header picks (and, within the cap, opens) the channel; the rest
        of the chunk header is committed only once all of it is present. */
    method ReadHeader(r: seq<byte>) returns (rest: seq<byte>, blocked: bool)
      requires readHeader
      modifies this
      ensures delivered == old(delivered) && (blocked ==> rest == r) && (!blocked ==> Suffix(rest, r))
      ensures HeaderPhase(old(State()), r) == if blocked then Blocked(State()) else Ready(State(), rest)
    {
      var b := ReadBasic(r);
      if b.Short? {
        return r, true;
      }
      var cid := b.value.channelId;
      if cid !in channels && |channels| >= MAX_CHANNELS {
        framingError := true;
        return r, true;
      }
      var chan := ChannelOf(channels, cid);
      channels := channels[cid := chan];
      channelId := cid;
      var h := TryDeserializeHeader(chan, r);
      if h.Short? {
        return r, true;
      }
      channels := channels[cid := h.value];
      readHeader := false;
      ExtendHeader(chan.received, r, []);
      return h.rest, false;
    }

    /** The payload of the chunk whose header is committed: checked against the
        framing limits, then taken whole or not at all. */
    method ReadPayload(r: seq<byte>) returns (rest: seq<byte>, blocked: bool, complete: bool)
      modifies this
      ensures Suffix(rest, r) && (blocked ==> rest == r && !complete && delivered == old(delivered))
      ensures complete <==> delivered != old(delivered)
      ensures old(delivered) <= delivered
      ensures PayloadPhase(old(State()), r) ==
              if blocked then Blocked(State()) else Chunk(State(), rest, delivered[|old(delivered)|..])
    {
      var ch := ChannelOf(channels, channelId);
      channels := channels[channelId := ch];
      if chunkSize == 0 || ch.received.length > MAX_MESSAGE_LENGTH || |ch.buffer| > ch.received.length {
        framingError := true;
        return r, true, false;
      }
      var size := Min(ch.received.length - |ch.buffer|, chunkSize);
      if |r| < size {
        return r, true, false;
      }
      readHeader := true;
      ch := AdjustTimestamp(ch);
      ch := ch.(buffer := ch.buffer + r[..size]);
      ch := ch.(prevComplete := |ch.buffer| == ch.received.length);
      channels := channels[channelId := ch];
      if ch.prevComplete {
        DispatchMessage(ch);
      }
      return r[size..], false, ch.prevComplete;
    }

    /** `dispatch`: route the body, act on the protocol's own messages, and hand
        back the reassembly buffer. */
    method DispatchMessage(ch: Channel)
      modifies this
      ensures State() == Dispatch(old(State()), ch)
      ensures delivered == old(delivered) + [Assembled(ch)]
    {
      delivered := delivered + [Assembled(ch)];
      var arg := ReadU32Be(ch.buffer);
      if ch.received.messageType == SET_CHUNK_SIZE && arg.Got? {
        chunkSize := SetChunkSize(chunkSize, arg.value);
      } else if ch.received.messageType == ABORT && arg.Got? {
        channels := Cleared(channels, arg.value);
      }
      channels := Cleared(channels, channelId);
    }

    /** One turn of the scan: at most one header and one payload. */
    method ParseChunk(r: seq<byte>) returns (rest: seq<byte>, blocked: bool, complete: bool)
      requires r != []
      modifies this
      ensures Suffix(rest, r) && old(delivered) <= delivered
      ensures complete <==> delivered != old(delivered)
      ensures !blocked ==> |rest| < |r| || (!old(readHeader) && readHeader)
      ensures Run(old(State()), r) ==
              Then(delivered[|old(delivered)|..], if blocked then Outcome(State(), rest, []) else Run(State(), rest))
    {
      hide HeaderPhase, PayloadPhase;
      ghost var start := State();
      PhaseSizes(start, r);
      rest, complete := r, false;
      if readHeader {
        rest, blocked := ReadHeader(r);
        if blocked {
          return;
        }
      }
      ghost var mid, s1 := State(), rest;
      PayloadSizes(mid, s1);
      rest, blocked, complete := ReadPayload(rest);
      SuffixTransitive(rest, s1, r);
    }

    /** `parse`: scan the readable bytes, keeping `committed` at the last point up
        to which everything is processed, and drop that prefix at the end. */
    method Parse(input: seq<byte>) returns (committed: nat, verdict: Verdict)
      modifies this
      ensures committed <= |input|
      ensures var o := Run(old(State()), input);
              && State() == o.p
              && delivered == old(delivered) + o.out
              && input[committed..] == o.rest
              && (verdict == Indeterminate <==> o.rest != [])
              && (verdict == Complete <==> o.rest == [] && o.out != [])
    {
      hide HeaderPhase, PayloadPhase;
      var r := input;  // the cursor: what is still unread
      var seen := false;
      var blocked := false;
      ghost var out := [];
      while r != [] && !blocked
        invariant Suffix(r, input)
        invariant delivered == old(delivered) + out && (seen <==> out != [])
        invariant Run(old(State()), input) == Then(out, if blocked then Outcome(State(), r, []) else Run(State(), r))
        decreases !blocked, |r|, if readHeader then 0 else 1
      {
        ghost var r0, delivered0 := r, delivered;
        var complete;
        r, blocked, complete := ParseChunk(r);
        SuffixTransitive(r, r0, input);
        seen := seen || complete;
        ThenThen(out, delivered[|delivered0|..], if blocked then Outcome(State(), r, []) else Run(State(), r));
        out := out + delivered[|delivered0|..];
      }
      committed := |input| - |r|;
      verdict := if committed < |input| then Indeterminate else if seen then Complete else NoMessage;
    }
  }

  lemma ThenThen(a: seq<Message>, b: seq<Message>, o: Outcome)
    ensures Then(a, Then(b, o)) == Then(a + b, o)
  {
    assert a + (b + o.out) == (a + b) + o.out;
  }
}
