/** RTMFP variable-length unsigned integers (section 2.1.2 of RFC 7016):
    `write_vlu` and `vlu_size` of `byte_writer.h`, `read_vlu` of `byte_reader.h`.
    Seven bits a byte, most significant first, the high bit set on all but the
    last. */
module Vlu {
  import opened Bytes

  type u64 = n: int | 0 <= n < 0x1_0000_0000_0000_0000

  const LIMIT := 0x200_0000_0000_0000  // 2^57: one more 7-bit digit still fits

  /** All digits of `n`, each flagged "more to come". */
  function Flagged(n: nat): seq<byte> {
    if n < 128 then [128 + n] else Flagged(n / 128) + [128 + n % 128]
  }

  function Encode(v: u64): (s: seq<byte>) {
    if v < 128 then [v] else Flagged(v / 128) + [v % 128]
  }

  /** `read_vlu` with `acc` accumulated so far: a value that would leave 64 bits
      is refused rather than truncated. */
  function DecodeFrom(acc: u64, s: seq<byte>): Read<u64>
    decreases |s|
  {
    if acc >= LIMIT || s == [] then Short
    else
      var next: u64 := acc * 128 + s[0] % 128;
      if s[0] >= 128 then DecodeFrom(next, s[1..]) else Got(next, s[1..])
  }

  function Decode(s: seq<byte>): Read<u64> {
    DecodeFrom(0, s)
  }

  lemma {:induction false} DecodesFlagged(n: nat, t: seq<byte>)
    requires n < LIMIT
    ensures DecodeFrom(0, Flagged(n) + t) == DecodeFrom(n, t)
  {
    if n < 128 {
      assert (Flagged(n) + t)[1..] == t;
    } else {
      var last := [128 + n % 128];
      assert Flagged(n) + t == Flagged(n / 128) + (last + t);
      DecodesFlagged(n / 128, last + t);
      assert (last + t)[1..] == t;
    }
  }

  /** Reading back what was written, for every 64-bit value and whatever follows. */
  lemma RoundTrip(v: u64, rest: seq<byte>)
    ensures Decode(Encode(v) + rest) == Got(v, rest)
  {
    if v < 128 {
      assert (Encode(v) + rest)[1..] == rest;
    } else {
      var last := [v % 128];
      assert Encode(v) + rest == Flagged(v / 128) + (last + rest);
      DecodesFlagged(v / 128, last + rest);
      assert (last + rest)[1..] == rest;
    }
  }

  // ---- size --------------------------------------------------------------------

  function Size(v: nat): nat {
    if v < 128 then 1 else 1 + Size(v / 128)
  }

  lemma {:induction false} FlaggedSize(n: nat)
    ensures |Flagged(n)| == Size(n)
  {
    if n < 128 {
    } else {
      FlaggedSize(n / 128);
    }
  }

  /** `vlu_size` is exactly what `write_vlu` emits. */
  lemma EncodedSize(v: u64)
    ensures |Encode(v)| == Size(v)
  {
    if v >= 128 {
      FlaggedSize(v / 128);
    }
  }

  /** `vlu_size`: count the 7-bit digits. */
  method VluSize(v: u64) returns (n: nat)
    ensures n == |Encode(v)|
  {
    EncodedSize(v);
    n := 1;
    var w: int := v / 128;
    while w != 0
      invariant w >= 0 && n + (if w == 0 then 0 else Size(w)) == Size(v)
      decreases w
    {
      w := w / 128;
      n := n + 1;
    }
  }

  /** v >> 7k */
  function Shifted(v: nat, k: nat): nat {
    if k == 0 then v else Shifted(v / 128, k - 1)
  }

  lemma {:induction false} ShiftOnce(v: nat, k: nat)
    ensures Shifted(v, k + 1) == Shifted(v, k) / 128
  {
    if k <= 0 {
    } else {
      ShiftOnce(v / 128, k - 1);
    }
  }

  /** Only the top digit has nothing above it. */
  lemma {:induction false} DigitRange(v: nat, k: nat)
    requires k < Size(v)
    ensures Shifted(v, k) < 128 <==> k + 1 == Size(v)
  {
    if k <= 0 {
    } else {
      DigitRange(v / 128, k - 1);
    }
  }

  /** The digits of `v` from the top one down to digit k, as the loop emits them. */
  function Digits(v: nat, k: nat): seq<byte> {
    if k >= Size(v) then [] else Flagged(Shifted(v, k))
  }

  lemma NextDigit(v: nat, k: nat)
    requires k < Size(v)
    ensures Digits(v, k) == Digits(v, k + 1) + [128 + Shifted(v, k) % 128]
  {
    ShiftOnce(v, k);
    DigitRange(v, k);
  }

  /** `write_vlu`: the digits by decreasing place, then the unflagged last one. */
  method Write(v: u64) returns (s: seq<byte>)
    ensures s == Encode(v)
  {
    var n := VluSize(v);
    EncodedSize(v);
    s := [];
    var k := n - 1;
    while k > 0
      invariant 0 <= k <= n - 1
      invariant s == Digits(v, k + 1)
      decreases k
    {
      NextDigit(v, k);
      s := s + [128 + Shifted(v, k) % 128];
      k := k - 1;
    }
    assert Shifted(v, 1) == v / 128;
    s := s + [v % 128];
  }

  /** `read_vlu` as the loop runs it. */
  method ReadLoop(s: seq<byte>) returns (r: Read<u64>)
    ensures r == Decode(s)
  {
    var ret: u64 := 0;
    var left := s;
    while true
      invariant Decode(s) == DecodeFrom(ret, left)
      decreases |left|
    {
      if ret >= LIMIT || left == [] {
        return Short;
      }
      var a := left[0];
      left := left[1..];
      ret := ret * 128 + a % 128;
      if a < 128 {
        return Got(ret, left);
      }
    }
  }
}
