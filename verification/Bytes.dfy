/** Octets, fixed-width integers and their wire forms: the primitives of
    `byte_reader.h`, `byte_writer.h` and `byte_order.h`.

    A reader is a function from the unread bytes to either `Short` (not enough
    bytes; the cursor stays where it was) or the value and the bytes left. */
module Bytes {

  type byte = b: int | 0 <= b < 256
  type u32 = n: int | 0 <= n < 0x1_0000_0000
  type u24 = n: int | 0 <= n < 0x100_0000

  datatype Read<+T> = Short | Got(value: T, rest: seq<byte>) {
    predicate IsFailure() {
      Short?
    }

    function PropagateFailure<U>(): Read<U>
      requires Short?
    {
      Short
    }

    function Extract(): (T, seq<byte>)
      requires Got?
    {
      (value, rest)
    }

    /** The same read with `tail` arriving behind the bytes left. */
    function Extended(tail: seq<byte>): Read<T> {
      match this
      case Short => Short
      case Got(v, r) => Got(v, r + tail)
    }
  }

  // ---- readers --------------------------------------------------------------

  function ReadU8(s: seq<byte>): Read<byte> {
    if |s| < 1 then Short else Got(s[0], s[1..])
  }

  function ReadU24Be(s: seq<byte>): Read<u24> {
    if |s| < 3 then Short else Got(Value2(s[0], s[1]) * 0x100 + s[2], s[3..])
  }

  function ReadU32Be(s: seq<byte>): Read<u32> {
    if |s| < 4 then Short
    else Got(Value2(s[0], s[1]) * 0x1_0000 + Value2(s[2], s[3]), s[4..])
  }

  function ReadU32Le(s: seq<byte>): Read<u32> {
    if |s| < 4 then Short
    else Got(Value2(s[3], s[2]) * 0x1_0000 + Value2(s[1], s[0]), s[4..])
  }

  function Value2(hi: int, lo: int): int {
    hi * 0x100 + lo
  }

  // ---- writers --------------------------------------------------------------

  function Be16(v: int): (s: seq<byte>)
    requires 0 <= v < 0x1_0000
  {
    [v / 0x100, v % 0x100]
  }

  function Le16(v: int): (s: seq<byte>)
    requires 0 <= v < 0x1_0000
  {
    [v % 0x100, v / 0x100]
  }

  function Be24(v: u24): (s: seq<byte>) {
    Be16(v / 0x100) + [v % 0x100]
  }

  function Be32(v: u32): (s: seq<byte>) {
    Be16(v / 0x1_0000) + Be16(v % 0x1_0000)
  }

  function Le32(v: u32): (s: seq<byte>) {
    Le16(v % 0x1_0000) + Le16(v / 0x1_0000)
  }

  // ---- each reader undoes its writer ----------------------------------------

  lemma ReadsBe24(v: u24, rest: seq<byte>)
    ensures ReadU24Be(Be24(v) + rest) == Got(v, rest)
  {
    assert (Be24(v) + rest)[3..] == rest;
  }

  lemma ReadsBe32(v: u32, rest: seq<byte>)
    ensures ReadU32Be(Be32(v) + rest) == Got(v, rest)
  {
    assert (Be32(v) + rest)[4..] == rest;
  }

  lemma ReadsLe32(v: u32, rest: seq<byte>)
    ensures ReadU32Le(Le32(v) + rest) == Got(v, rest)
  {
    assert (Le32(v) + rest)[4..] == rest;
  }

  // ---- a successful read is not changed by bytes that arrive later -----------

  lemma Dropped<T>(s: seq<T>, tail: seq<T>, n: nat)
    requires n <= |s|
    ensures (s + tail)[n..] == s[n..] + tail
  {
  }

  lemma ExtendU8(s: seq<byte>, tail: seq<byte>)
    requires ReadU8(s).Got?
    ensures ReadU8(s + tail) == ReadU8(s).Extended(tail)
    ensures |s| == |ReadU8(s).rest| + 1 && Suffix(ReadU8(s).rest, s)
  {
    Dropped(s, tail, 1);
  }

  lemma ExtendU24Be(s: seq<byte>, tail: seq<byte>)
    requires ReadU24Be(s).Got?
    ensures ReadU24Be(s + tail) == ReadU24Be(s).Extended(tail)
    ensures |s| == |ReadU24Be(s).rest| + 3 && Suffix(ReadU24Be(s).rest, s)
  {
    Dropped(s, tail, 3);
  }

  lemma ExtendU32Be(s: seq<byte>, tail: seq<byte>)
    requires ReadU32Be(s).Got?
    ensures ReadU32Be(s + tail) == ReadU32Be(s).Extended(tail)
    ensures |s| == |ReadU32Be(s).rest| + 4 && Suffix(ReadU32Be(s).rest, s)
  {
    Dropped(s, tail, 4);
  }

  lemma ExtendU32Le(s: seq<byte>, tail: seq<byte>)
    requires ReadU32Le(s).Got?
    ensures ReadU32Le(s + tail) == ReadU32Le(s).Extended(tail)
    ensures |s| == |ReadU32Le(s).rest| + 4 && Suffix(ReadU32Le(s).rest, s)
  {
    Dropped(s, tail, 4);
  }

  /** `r` is what is left of `s` after some prefix. */
  predicate Suffix<T(==)>(r: seq<T>, s: seq<T>) {
    |r| <= |s| && s[|s| - |r|..] == r
  }

  lemma SuffixOf<T>(s: seq<T>, n: nat)
    requires n <= |s|
    ensures Suffix(s[n..], s)
  {
  }

  lemma SuffixTransitive<T>(q: seq<T>, r: seq<T>, s: seq<T>)
    requires Suffix(q, r) && Suffix(r, s)
    ensures Suffix(q, s)
  {
  }
}
