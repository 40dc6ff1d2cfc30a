/** 64-bit words and the positions of their one bits: what a left shift, an or with one
    bit and a mask test do to each position. */
module BitWords {

  type u64 = n: int | 0 <= n < 0x1_0000_0000_0000_0000

  type Word = bv64

  function Position(k: nat): bv6
    requires k < 64
  {
    k as bv6
  }

  /** `uint64_t(1) << k` */
  function OneAt(k: bv6): Word {
    1 << k
  }

  function ShiftLeft(w: Word, s: bv6): Word {
    w << s
  }

  function Or(w: Word, v: Word): Word {
    w | v
  }

  /** `w & v`, as a condition. */
  predicate Meets(w: Word, v: Word) {
    w & v != 0
  }

  predicate Bit(w: Word, k: bv6) {
    (w >> k) & 1 == 1
  }

  /** Whether `w` has a one at position `k`. */
  predicate Has(w: Word, k: nat)
    requires k < 64
  {
    Bit(w, Position(k))
  }

  // ---- positions as words and as numbers ------------------------------------------------

  lemma PositionValue(k: nat)
    requires k < 64
    ensures Position(k) as int == k
  {
  }

  lemma OrderValue(p: bv6, q: bv6)
    ensures p <= q <==> p as int <= q as int
  {
  }

  lemma SameValue(p: bv6, q: bv6)
    requires p as int == q as int
    ensures p == q
  {
  }

  lemma MinusValue(p: bv6, q: bv6)
    requires q <= p
    ensures (p - q) as int == p as int - q as int
  {
  }

  lemma PositionMinus(k: nat, s: nat)
    requires s <= k < 64
    ensures Position(s) <= Position(k) && Position(k) - Position(s) == Position(k - s)
  {
    hide Position;
    PositionValue(k);
    PositionValue(s);
    PositionValue(k - s);
    OrderValue(Position(s), Position(k));
    MinusValue(Position(k), Position(s));
    SameValue(Position(k) - Position(s), Position(k - s));
  }

  lemma PositionOrder(k: nat, s: nat)
    requires k < 64 && s < 64
    ensures Position(k) < Position(s) <==> k < s
    ensures Position(k) == Position(s) <==> k == s
  {
    hide Position;
    PositionValue(k);
    PositionValue(s);
    OrderValue(Position(s), Position(k));
    OrderValue(Position(k), Position(s));
  }

  // ---- the shift ------------------------------------------------------------------------

  lemma ShiftAgain(w: Word, s: bv6)
    requires 1 <= s
    ensures w << s == (w << (s - 1)) << 1
  {
  }

  lemma ShiftFrom(w: Word, s: bv6)
    requires 1 <= s
    ensures ShiftLeft(w, s) == ShiftLeft(ShiftLeft(w, s - 1), 1)
  {
    ShiftAgain(w, s);
  }

  lemma ShiftNone(w: Word)
    ensures ShiftLeft(w, 0) == w
  {
  }

  lemma ShiftedOnce(w: Word, k: bv6)
    requires 1 <= k
    ensures Bit(ShiftLeft(w, 1), k) <==> Bit(w, k - 1)
  {
  }

  lemma ShiftedIn(w: Word, s: bv6, k: bv6)
    requires k < s
    ensures !Bit(ShiftLeft(w, s), k)
  {
  }

  lemma {:induction false} ShiftedUp(w: Word, s: bv6, k: bv6)
    requires s <= k
    ensures Bit(ShiftLeft(w, s), k) <==> Bit(w, k - s)
    decreases s as int
  {
    hide Bit, ShiftLeft;
    if s == 0 {
      ShiftNone(w);
    } else {
      ShiftFrom(w, s);
      ShiftedOnce(ShiftLeft(w, s - 1), k);
      MinusValue(s, 1);
      ShiftedUp(w, s - 1, k - 1);
      assert k - 1 - (s - 1) == k - s;
    }
  }

  /** A left shift moves every bit up and brings in zeros. */
  lemma Shifted(w: Word, s: nat, k: nat)
    requires s < 64 && k < 64
    ensures Has(ShiftLeft(w, Position(s)), k) <==> k >= s && Has(w, k - s)
  {
    hide Bit, ShiftLeft, Position;
    if k >= s {
      PositionMinus(k, s);
      ShiftedUp(w, Position(s), Position(k));
    } else {
      PositionOrder(k, s);
      ShiftedIn(w, Position(s), Position(k));
    }
  }

  // ---- setting and testing one bit ------------------------------------------------------

  lemma OrBit(w: Word, j: bv6, k: bv6)
    ensures Bit(Or(w, OneAt(j)), k) <==> Bit(w, k) || j == k
  {
  }

  lemma SetBit(w: Word, j: nat, k: nat)
    requires j < 64 && k < 64
    ensures Has(Or(w, OneAt(Position(j))), k) <==> Has(w, k) || j == k
  {
    hide Position, Bit, Or, OneAt;
    PositionOrder(j, k);
    OrBit(w, Position(j), Position(k));
  }

  lemma OneBit(k: bv6)
    ensures Bit(1, k) <==> k == 0
  {
  }

  lemma FirstBit(k: nat)
    requires k < 64
    ensures Has(1, k) <==> k == 0
  {
    hide Bit;
    PositionOrder(k, 0);
    OneBit(Position(k));
  }

  lemma OrFirst(w: Word, k: bv6)
    ensures Bit(Or(w, 1), k) <==> Bit(w, k) || k == 0
  {
  }

  lemma SetFirst(w: Word, k: nat)
    requires k < 64
    ensures Has(Or(w, 1), k) <==> Has(w, k) || k == 0
  {
    hide Bit, Or;
    PositionOrder(k, 0);
    OrFirst(w, Position(k));
  }

  lemma MaskBit(w: Word, k: bv6)
    ensures Meets(w, OneAt(k)) <==> Bit(w, k)
  {
  }

  /** The mask test reads the bit. */
  lemma Masked(w: Word, k: nat)
    requires k < 64
    ensures Meets(w, OneAt(Position(k))) <==> Has(w, k)
  {
    hide Position, Bit, Meets, OneAt;
    MaskBit(w, Position(k));
  }

  lemma NoBits(k: nat)
    requires k < 64
    ensures !Has(0, k)
  {
  }
}
