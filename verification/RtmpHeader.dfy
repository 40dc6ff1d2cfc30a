/** The RTMP chunk header of `rtmp_header.cpp`: the resumable reader, the four
    writer formats, and the choice between them (section 5.3.1 of the Adobe RTMP
    1.0 specification). */
module RtmpHeader {
  import opened Bytes

  type Format = f: int | 0 <= f < 4

  const NEW: Format := 0
  const SAME_SOURCE: Format := 1
  const TIMER_CHANGE: Format := 2
  const CONTINUE: Format := 3

  /** A 24-bit time field holding this value announces a 32-bit extended field. */
  const EXTENDED: u24 := 0xFF_FFFF

  const MAX_CHANNEL_ID: int := 65599

  datatype Header = Header(
    channelId: u32,
    timestamp: u32,
    deltaWritten: u32,
    deltaRead: u32,
    length: u32,
    streamId: u32,
    messageType: byte,
    format: Format,
    extended: bool)

  const BLANK: Header := Header(0, 0, 0, 0, 0, 0, 0, NEW, false)

  function Add32(a: u32, b: u32): u32 {
    (a + b) % 0x1_0000_0000
  }

  // ---- reading --------------------------------------------------------------

  datatype Basic = Basic(format: Format, channelId: u32)

  /** The chunk basic header: format and chunk stream id, in one to three bytes. */
  function ReadBasic(s: seq<byte>): Read<Basic> {
    var (c, s1) :- ReadU8(s);
    if c % 64 == 0 then
      var (b, s2) :- ReadU8(s1);
      Got(Basic(c / 64, 64 + b), s2)
    else if c % 64 == 1 then
      var (a, s2) :- ReadU8(s1);
      var (b, s3) :- ReadU8(s2);
      Got(Basic(c / 64, 64 + a + b * 256), s3)
    else
      Got(Basic(c / 64, c % 64), s1)
  }

  /** Peek-then-commit: `Short` leaves both the header and the cursor untouched. */
  function TryDeserialize(h0: Header, s: seq<byte>): Read<Header> {
    var (b, s1) :- ReadBasic(s);
    var h := h0.(format := b.format, channelId := b.channelId);
    if h.format == NEW then TryNew(h, s1)
    else if h.format == SAME_SOURCE then TrySameSource(h, s1)
    else if h.format == TIMER_CHANGE then TryTimerChange(h, s1)
    else TryContinue(h, s1)
  }

  function TryNew(h: Header, s: seq<byte>): Read<Header> {
    var (ts, s1) :- ReadU24Be(s);
    var (len, s2) :- ReadU24Be(s1);
    var (ty, s3) :- ReadU8(s2);
    var (sid, s4) :- ReadU32Le(s3);
    var h1 := h.(deltaRead := 0, timestamp := ts, length := len, messageType := ty, streamId := sid, extended := false);
    if ts == EXTENDED then
      var (ext, s5) :- ReadU32Be(s4);
      Got(h1.(timestamp := ext, extended := true), s5)
    else
      Got(h1, s4)
  }

  function TrySameSource(h: Header, s: seq<byte>): Read<Header> {
    var (delta, s1) :- ReadU24Be(s);
    var (len, s2) :- ReadU24Be(s1);
    var (ty, s3) :- ReadU8(s2);
    TryDelta(h.(length := len, messageType := ty), delta, s3)
  }

  function TryTimerChange(h: Header, s: seq<byte>): Read<Header> {
    var (delta, s1) :- ReadU24Be(s);
    TryDelta(h, delta, s1)
  }

  /** The delta's extended field, if announced, then the delta itself. */
  function TryDelta(h: Header, delta: u24, s: seq<byte>): Read<Header> {
    if delta == EXTENDED then
      var (ext, s1) :- ReadU32Be(s);
      Got(h.(deltaRead := ext, extended := true, timestamp := Add32(h.timestamp, ext)), s1)
    else
      Got(h.(deltaRead := delta, extended := false, timestamp := Add32(h.timestamp, delta)), s)
  }

  /** A continuation repeats the extended field; its value is not used. */
  function TryContinue(h: Header, s: seq<byte>): Read<Header> {
    if h.extended then
      var (_, s1) :- ReadU32Be(s);
      Got(h, s1)
    else
      Got(h, s)
  }

  lemma ExtendBasic(s: seq<byte>, tail: seq<byte>)
    requires ReadBasic(s).Got?
    ensures ReadBasic(s + tail) == ReadBasic(s).Extended(tail)
    ensures |ReadBasic(s).rest| < |s| && Suffix(ReadBasic(s).rest, s)
  {
    hide ReadU8;
    ExtendU8(s, tail);
    var Got(c, s1) := ReadU8(s);
    if c % 64 == 0 {
      ExtendU8(s1, tail);
    } else if c % 64 == 1 {
      ExtendU8(s1, tail);
      ExtendU8(ReadU8(s1).rest, tail);
    }
  }

  /** Bytes that arrive behind a complete header do not change what was read. */
  lemma ExtendHeader(h: Header, s: seq<byte>, tail: seq<byte>)
    requires TryDeserialize(h, s).Got?
    ensures TryDeserialize(h, s + tail) == TryDeserialize(h, s).Extended(tail)
    ensures |TryDeserialize(h, s).rest| < |s| && Suffix(TryDeserialize(h, s).rest, s)
  {
    hide ReadBasic, TryNew, TrySameSource, TryTimerChange, TryContinue;
    ExtendBasic(s, tail);
    var Got(b, s1) := ReadBasic(s);
    var h1 := h.(format := b.format, channelId := b.channelId);
    if b.format == NEW {
      ExtendNew(h1, s1, tail);
    } else if b.format == SAME_SOURCE {
      ExtendSameSource(h1, s1, tail);
    } else if b.format == TIMER_CHANGE {
      ExtendTimerChange(h1, s1, tail);
    } else {
      ExtendContinue(h1, s1, tail);
    }
  }

  lemma ExtendNew(h: Header, s: seq<byte>, tail: seq<byte>)
    requires TryNew(h, s).Got?
    ensures TryNew(h, s + tail) == TryNew(h, s).Extended(tail)
    ensures Suffix(TryNew(h, s).rest, s)
  {
    hide ReadU8, ReadU24Be, ReadU32Be, ReadU32Le;
    ExtendU24Be(s, tail);
    var Got(ts, s1) := ReadU24Be(s);
    ExtendU24Be(s1, tail);
    var s2 := ReadU24Be(s1).rest;
    ExtendU8(s2, tail);
    var s3 := ReadU8(s2).rest;
    ExtendU32Le(s3, tail);
    if ts == EXTENDED {
      ExtendU32Be(ReadU32Le(s3).rest, tail);
    }
  }

  lemma ExtendSameSource(h: Header, s: seq<byte>, tail: seq<byte>)
    requires TrySameSource(h, s).Got?
    ensures TrySameSource(h, s + tail) == TrySameSource(h, s).Extended(tail)
    ensures Suffix(TrySameSource(h, s).rest, s)
  {
    hide ReadU8, ReadU24Be, TryDelta;
    ExtendU24Be(s, tail);
    var Got(delta, s1) := ReadU24Be(s);
    ExtendU24Be(s1, tail);
    var Got(len, s2) := ReadU24Be(s1);
    ExtendU8(s2, tail);
    var Got(ty, s3) := ReadU8(s2);
    ExtendDelta(h.(length := len, messageType := ty), delta, s3, tail);
  }

  lemma ExtendTimerChange(h: Header, s: seq<byte>, tail: seq<byte>)
    requires TryTimerChange(h, s).Got?
    ensures TryTimerChange(h, s + tail) == TryTimerChange(h, s).Extended(tail)
    ensures Suffix(TryTimerChange(h, s).rest, s)
  {
    hide ReadU24Be, TryDelta;
    ExtendU24Be(s, tail);
    ExtendDelta(h, ReadU24Be(s).value, ReadU24Be(s).rest, tail);
  }

  lemma ExtendDelta(h: Header, delta: u24, s: seq<byte>, tail: seq<byte>)
    requires TryDelta(h, delta, s).Got?
    ensures TryDelta(h, delta, s + tail) == TryDelta(h, delta, s).Extended(tail)
    ensures Suffix(TryDelta(h, delta, s).rest, s)
  {
    hide ReadU32Be;
    if delta == EXTENDED {
      ExtendU32Be(s, tail);
    }
  }

  lemma ExtendContinue(h: Header, s: seq<byte>, tail: seq<byte>)
    requires TryContinue(h, s).Got?
    ensures TryContinue(h, s + tail) == TryContinue(h, s).Extended(tail)
    ensures Suffix(TryContinue(h, s).rest, s)
  {
    hide ReadU32Be;
    if h.extended {
      ExtendU32Be(s, tail);
    }
  }

  // ---- writing --------------------------------------------------------------

  /** The writer's basic header; ids outside 2..65599 are truncated as the casts do. */
  function WriteBasic(format: Format, id: u32): (s: seq<byte>) {
    if id < 64 then [format * 64 + id]
    else if id <= 319 then [format * 64, (id - 64) % 256]
    else [format * 64 + 1] + Le16((id - 64) % 0x1_0000)
  }

  function TimeField(v: u32): u24 {
    if v < EXTENDED then v else EXTENDED
  }

  function ExtendedField(v: u32): seq<byte> {
    if v < EXTENDED then [] else Be32(v)
  }

  /** The value the first chunk's time field carried: absolute for a type-0
      header, a delta otherwise. */
  function WrittenTime(h: Header): u32 {
    if h.format == NEW then h.timestamp else h.deltaWritten
  }

  function WriteNew(h: Header): seq<byte>
    requires h.length < 0x100_0000
  {
    WriteBasic(NEW, h.channelId) + (Be24(TimeField(h.timestamp)) + (Be24(h.length) +
    ([h.messageType] + (Le32(h.streamId) + ExtendedField(h.timestamp)))))
  }

  function WriteSameSource(h: Header): seq<byte>
    requires h.length < 0x100_0000
  {
    WriteBasic(SAME_SOURCE, h.channelId) + (Be24(TimeField(h.deltaWritten)) + (Be24(h.length) +
    ([h.messageType] + ExtendedField(h.deltaWritten))))
  }

  function WriteTimerChange(h: Header): seq<byte> {
    WriteBasic(TIMER_CHANGE, h.channelId) + (Be24(TimeField(h.deltaWritten)) + ExtendedField(h.deltaWritten))
  }

  function WriteContinue(h: Header): seq<byte> {
    WriteBasic(CONTINUE, h.channelId) + ExtendedField(WrittenTime(h))
  }

  /** Which format `serialize` picks for `h` after `prev` on the same channel,
      and the delta it records (`h.deltaWritten` is 0 in a fresh header). */
  function Compressed(h: Header, prev: Header): Header {
    if prev.timestamp > h.timestamp then
      h.(format := NEW)
    else
      var d := h.(deltaWritten := h.timestamp - prev.timestamp);
      if prev.streamId == 0 || d.streamId != prev.streamId then
        d.(format := NEW)
      else if d.messageType != prev.messageType || d.length != prev.length then
        d.(format := SAME_SOURCE)
      else if d.deltaWritten == prev.deltaWritten && d.channelId == prev.channelId && prev.format == TIMER_CHANGE then
        d.(format := CONTINUE)
      else
        d.(format := TIMER_CHANGE)
  }

  function WriteFormat(h: Header): seq<byte>
    requires h.length < 0x100_0000
  {
    if h.format == NEW then WriteNew(h)
    else if h.format == SAME_SOURCE then WriteSameSource(h)
    else if h.format == TIMER_CHANGE then WriteTimerChange(h)
    else WriteContinue(h)
  }

  // ---- the reader undoes each format ----------------------------------------

  predicate WireChannel(id: u32) {
    2 <= id <= MAX_CHANNEL_ID
  }

  lemma ReadsBasic(format: Format, id: u32, rest: seq<byte>)
    requires WireChannel(id)
    ensures ReadBasic(WriteBasic(format, id) + rest) == Got(Basic(format, id), rest)
  {
    var s := WriteBasic(format, id) + rest;
    if id < 64 {
      assert s[1..] == rest;
    } else if id <= 319 {
      assert s[1..][1..] == rest;
    } else {
      assert s[1..][1..][1..] == rest;
      assert s[0] == format * 64 + 1;
    }
  }

  lemma ReadsExtended(v: u32, rest: seq<byte>)
    requires v >= EXTENDED
    ensures ReadU32Be(ExtendedField(v) + rest) == Got(v, rest)
  {
    ReadsBe32(v, rest);
  }

  lemma ReadsNew(h0: Header, h: Header, rest: seq<byte>)
    requires WireChannel(h.channelId) && h.length < 0x100_0000
    ensures TryDeserialize(h0, WriteNew(h) + rest) ==
            Got(h0.(format := NEW, channelId := h.channelId, deltaRead := 0, timestamp := h.timestamp,
                    length := h.length, messageType := h.messageType, streamId := h.streamId,
                    extended := h.timestamp >= EXTENDED), rest)
  {
    var t5 := ExtendedField(h.timestamp) + rest;
    var t4 := Le32(h.streamId) + t5;
    var t3 := [h.messageType] + t4;
    var t2 := Be24(h.length) + t3;
    var t1 := Be24(TimeField(h.timestamp)) + t2;
    assert WriteNew(h) + rest == WriteBasic(NEW, h.channelId) + t1;
    ReadsBasic(NEW, h.channelId, t1);
    ReadsBe24(TimeField(h.timestamp), t2);
    ReadsBe24(h.length, t3);
    assert t3[1..] == t4;
    ReadsLe32(h.streamId, t5);
    if h.timestamp >= EXTENDED {
      ReadsExtended(h.timestamp, rest);
    } else {
      assert t5 == rest;
    }
  }

  lemma ReadsDelta(h0: Header, d: u32, rest: seq<byte>)
    ensures TryDelta(h0, TimeField(d), ExtendedField(d) + rest) ==
            Got(h0.(deltaRead := d, extended := d >= EXTENDED, timestamp := Add32(h0.timestamp, d)), rest)
  {
    if d >= EXTENDED {
      ReadsExtended(d, rest);
    } else {
      assert ExtendedField(d) + rest == rest;
    }
  }

  lemma ReadsSameSource(h0: Header, h: Header, rest: seq<byte>)
    requires WireChannel(h.channelId) && h.length < 0x100_0000
    ensures TryDeserialize(h0, WriteSameSource(h) + rest) ==
            Got(h0.(format := SAME_SOURCE, channelId := h.channelId, length := h.length,
                    messageType := h.messageType, deltaRead := h.deltaWritten,
                    extended := h.deltaWritten >= EXTENDED,
                    timestamp := Add32(h0.timestamp, h.deltaWritten)), rest)
  {
    var t4 := ExtendedField(h.deltaWritten) + rest;
    var t3 := [h.messageType] + t4;
    var t2 := Be24(h.length) + t3;
    var t1 := Be24(TimeField(h.deltaWritten)) + t2;
    assert WriteSameSource(h) + rest == WriteBasic(SAME_SOURCE, h.channelId) + t1;
    ReadsBasic(SAME_SOURCE, h.channelId, t1);
    ReadsBe24(TimeField(h.deltaWritten), t2);
    ReadsBe24(h.length, t3);
    assert t3[1..] == t4;
    var h1 := h0.(format := SAME_SOURCE, channelId := h.channelId, length := h.length, messageType := h.messageType);
    ReadsDelta(h1, h.deltaWritten, rest);
  }

  lemma ReadsTimerChange(h0: Header, h: Header, rest: seq<byte>)
    requires WireChannel(h.channelId)
    ensures TryDeserialize(h0, WriteTimerChange(h) + rest) ==
            Got(h0.(format := TIMER_CHANGE, channelId := h.channelId, deltaRead := h.deltaWritten,
                    extended := h.deltaWritten >= EXTENDED,
                    timestamp := Add32(h0.timestamp, h.deltaWritten)), rest)
  {
    var t2 := ExtendedField(h.deltaWritten) + rest;
    var t1 := Be24(TimeField(h.deltaWritten)) + t2;
    assert WriteTimerChange(h) + rest == WriteBasic(TIMER_CHANGE, h.channelId) + t1;
    ReadsBasic(TIMER_CHANGE, h.channelId, t1);
    ReadsBe24(TimeField(h.deltaWritten), t2);
    ReadsDelta(h0.(format := TIMER_CHANGE, channelId := h.channelId), h.deltaWritten, rest);
  }

  /** A type-3 header is read back whole exactly because the reader's extended
      flag agrees with the value the writer repeats. */
  lemma ReadsContinue(h0: Header, h: Header, rest: seq<byte>)
    requires WireChannel(h.channelId)
    requires h0.extended == (WrittenTime(h) >= EXTENDED)
    ensures TryDeserialize(h0, WriteContinue(h) + rest) ==
            Got(h0.(format := CONTINUE, channelId := h.channelId), rest)
  {
    var t1 := ExtendedField(WrittenTime(h)) + rest;
    assert WriteContinue(h) + rest == WriteBasic(CONTINUE, h.channelId) + t1;
    ReadsBasic(CONTINUE, h.channelId, t1);
    if h0.extended {
      ReadsExtended(WrittenTime(h), rest);
    } else {
      assert t1 == rest;
    }
  }
}
