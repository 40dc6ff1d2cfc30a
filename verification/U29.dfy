/** The variable-length 29-bit integer of AMF3 (section 1.3.1 of the AMF 3
    specification), as `amf3::read_u29` and `amf3::write_integer` treat it, and the
    29-bit signed integers carried in it. */
module U29 {
  import opened Bytes

  const LIMIT: int := 0x2000_0000
  const SIGN: int := 0x1000_0000

  /** `write_integer`: seven bits a byte, a high bit for "more", and all eight bits
      of a fourth byte. A 32-bit value keeps its low 29 bits. */
  function WriteU29(n: u32): (s: seq<byte>)
    ensures 1 <= |s| <= 4
  {
    if n < 0x80 then [n]
    else if n < 0x4000 then [n / 0x80 + 0x80, n % 0x80]
    else if n < 0x20_0000 then [n / 0x4000 + 0x80, n / 0x80 % 0x80 + 0x80, n % 0x80]
    else [n / 0x40_0000 % 0x80 + 0x80, n / 0x8000 % 0x80 + 0x80, n / 0x100 % 0x80 + 0x80, n % 0x100]
  }

  /** `read_u29` */
  function ReadU29(s: seq<byte>): Read<int> {
    ReadFrom(s, 0, 1)
  }

  /** After `count - 1` continued bytes holding `acc`. */
  function ReadFrom(s: seq<byte>, acc: nat, count: nat): (r: Read<int>)
    requires 1 <= count <= 4
    ensures r.Got? ==> |r.rest| < |s| && Suffix(r.rest, s)
    ensures r.Got? ==> 0 <= r.value < (acc + 1) * (if count == 1 then LIMIT else if count == 2 then 0x40_0000
                                                   else if count == 3 then 0x8000 else 0x100)
    decreases 4 - count
  {
    if |s| < 1 then Short
    else if s[0] >= 0x80 && count < 4 then
      SuffixOf(s, 1);
      var r := ReadFrom(s[1..], acc * 0x80 + (s[0] - 0x80), count + 1);
      if r.Got? then
        SuffixTransitive(r.rest, s[1..], s);
        r
      else r
    else
      SuffixOf(s, 1);
      Got(acc * (if count < 4 then 0x80 else 0x100) + s[0], s[1..])
  }

  lemma ReadU29Bounded(s: seq<byte>)
    requires ReadU29(s).Got?
    ensures 0 <= ReadU29(s).value < LIMIT && |ReadU29(s).rest| < |s| && Suffix(ReadU29(s).rest, s)
  {
  }

  lemma Split7(n: nat)
    ensures n / 0x100 / 0x80 == n / 0x8000 && n / 0x8000 / 0x80 == n / 0x40_0000
  {
  }

  lemma Split7Top(n: nat)
    ensures n / 0x40_0000 / 0x80 == n / 0x2000_0000
  {
  }

  lemma FourByteValue(n: u32)
    ensures ((n / 0x40_0000 % 0x80 * 0x80 + n / 0x8000 % 0x80) * 0x80 + n / 0x100 % 0x80) * 0x100 + n % 0x100
         == n % 0x2000_0000
  {
    var x, y, z, w := n / 0x100, n / 0x8000, n / 0x40_0000, n / 0x2000_0000;
    Split7(n);
    Split7Top(n);
    assert z % 0x80 == z - 0x80 * w;
    assert y % 0x80 == y - 0x80 * z;
    assert x % 0x80 == x - 0x80 * y;
    assert n % 0x100 == n - 0x100 * x;
    assert n % 0x2000_0000 == n - 0x2000_0000 * w;
  }

  lemma More(s: seq<byte>, digit: int, acc: nat, count: nat)
    requires 0 <= digit < 0x80 && 1 <= count < 4
    ensures ReadFrom([digit + 0x80] + s, acc, count) == ReadFrom(s, acc * 0x80 + digit, count + 1)
  {
    assert ([digit + 0x80] + s)[1..] == s;
  }

  lemma Last(s: seq<byte>, digit: byte, acc: nat, count: nat)
    requires 1 <= count <= 4 && (count < 4 ==> digit < 0x80)
    ensures ReadFrom([digit] + s, acc, count) == Got(acc * (if count < 4 then 0x80 else 0x100) + digit, s)
  {
    assert ([digit] + s)[1..] == s;
  }

  /** Reading back gives the low 29 bits, so any value below 2^29 itself. */
  lemma ReadsU29(n: u32, rest: seq<byte>)
    ensures ReadU29(WriteU29(n) + rest) == Got(n % LIMIT, rest)
  {
    hide ReadFrom;
    if n < 0x80 {
      Last(rest, n, 0, 1);
    } else if n < 0x4000 {
      Last(rest, n % 0x80, n / 0x80, 2);
      More([n % 0x80] + rest, n / 0x80, 0, 1);
      assert WriteU29(n) + rest == [n / 0x80 + 0x80] + ([n % 0x80] + rest);
    } else if n < 0x20_0000 {
      ReadsThree(n, rest);
    } else {
      ReadsFour(n, rest);
    }
  }

  lemma ReadsThree(n: u32, rest: seq<byte>)
    requires 0x4000 <= n < 0x20_0000
    ensures ReadU29(WriteU29(n) + rest) == Got(n, rest)
  {
    hide ReadFrom;
    var a, b, c := n / 0x4000, n / 0x80 % 0x80, n % 0x80;
    Last(rest, c, a * 0x80 + b, 3);
    More([c] + rest, b, a, 2);
    More([b + 0x80] + ([c] + rest), a, 0, 1);
    assert WriteU29(n) + rest == [a + 0x80] + ([b + 0x80] + ([c] + rest));
    assert (a * 0x80 + b) * 0x80 + c == n;
  }

  lemma ReadsFour(n: u32, rest: seq<byte>)
    requires 0x20_0000 <= n
    ensures ReadU29(WriteU29(n) + rest) == Got(n % LIMIT, rest)
  {
    hide ReadFrom;
    var a, b, c, d := n / 0x40_0000 % 0x80, n / 0x8000 % 0x80, n / 0x100 % 0x80, n % 0x100;
    Last(rest, d, (a * 0x80 + b) * 0x80 + c, 4);
    More([d] + rest, c, a * 0x80 + b, 3);
    More([c + 0x80] + ([d] + rest), b, a, 2);
    More([b + 0x80] + ([c + 0x80] + ([d] + rest)), a, 0, 1);
    assert WriteU29(n) + rest == [a + 0x80] + ([b + 0x80] + ([c + 0x80] + ([d] + rest)));
    FourByteValue(n);
  }

  /** `read_integer`: bit 28 is the sign. */
  function Signed(n: int): u32
    requires 0 <= n < LIMIT
  {
    if n >= SIGN then n + 0x1_0000_0000 - LIMIT else n
  }

  /** A 32-bit pattern whose value fits 29 signed bits. */
  predicate Fits29(n: u32) {
    n < SIGN || n >= 0x1_0000_0000 - SIGN
  }

  /** The signed reading undoes the writing exactly on the 29-bit integers. */
  lemma SignedExactly(n: u32)
    ensures Signed(n % LIMIT) == n <==> Fits29(n)
  {
  }
}
