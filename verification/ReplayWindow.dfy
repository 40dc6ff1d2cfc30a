/** The 64-bit anti-replay window of `aes::check_rx_seq` (`rtmfp/aes.cpp`).

    Bit k of the window stands for the sequence number k below the highest one
    accepted. The reference is the plain set of accepted numbers. */
module ReplayWindow {
  import opened BitWords

  /** Slides the window up by `s` and marks the new highest number. */
  function Advance(w: Word, s: nat): Word {
    Or(if s >= 64 then 0 else ShiftLeft(w, Position(s)), 1)
  }

  datatype Window = Window(seen: bool, high: u64, bits: Word)

  const EMPTY := Window(false, 0, 0)

  /** `check_rx_seq` */
  function Check(w: Window, n: u64): (Window, bool) {
    if !w.seen then (Window(true, n, 1), true)
    else if n > w.high then (Window(true, n, Advance(w.bits, n - w.high)), true)
    else if w.high - n >= 64 then (w, false)
    else
      var bit := OneAt(Position(w.high - n));
      if Meets(w.bits, bit) then (w, false) else (Window(true, w.high, Or(w.bits, bit)), true)
  }

  /** The reference: a number is accepted if it is above the highest so far, or
      at most 63 below it and not accepted yet. */
  predicate Accepts(accepted: set<u64>, high: u64, n: u64) {
    accepted == {} || n > high || (high - n < 64 && n !in accepted)
  }

  /** The window remembers exactly the accepted numbers it can still reach. */
  predicate Refines(w: Window, accepted: set<u64>) {
    && (w.seen <==> accepted != {})
    && (w.seen ==>
          && w.high in accepted && (forall n | n in accepted :: n <= w.high)
          && forall k | 0 <= k < 64 :: Has(w.bits, k) <==> k <= w.high && w.high - k in accepted)
  }

  /** A number above the highest slides the window. */
  lemma Slides(w: Window, accepted: set<u64>, n: u64)
    requires Refines(w, accepted) && w.seen && n > w.high
    ensures Refines(Check(w, n).0, accepted + {n})
  {
    hide Advance, Has, Or, OneAt, Position, Meets;
    var w' := Check(w, n).0;
    forall k | 0 <= k < 64
      ensures Has(w'.bits, k) <==> k <= w'.high && w'.high - k in accepted + {n}
    {
      SlidBit(w, accepted, n, k);
    }
  }

  lemma SlidBit(w: Window, accepted: set<u64>, n: u64, k: nat)
    requires Refines(w, accepted) && w.seen && n > w.high && k < 64
    ensures Has(Advance(w.bits, n - w.high), k) <==> k <= n && n - k in accepted + {n}
  {
    hide Has, Advance;
    var s := n - w.high;
    AdvancedBit(w.bits, s, k);
    if k >= s {
      assert Has(w.bits, k - s) <==> k - s <= w.high && w.high - (k - s) in accepted;
      assert w.high - (k - s) == n - k;
    } else if k > 0 {
      assert n - k > w.high;
    }
  }

  lemma AdvancedBit(w: Word, s: nat, k: nat)
    requires k < 64
    ensures Has(Advance(w, s), k) <==> k == 0 || (s <= k && Has(w, k - s))
  {
    hide Has, ShiftLeft, Position, Or;
    if s >= 64 {
      SetFirst(0, k);
      NoBits(k);
    } else {
      SetFirst(ShiftLeft(w, Position(s)), k);
      Shifted(w, s, k);
    }
  }

  /** A number in the window is tested and marked. */
  lemma Marks(w: Window, accepted: set<u64>, n: u64)
    requires Refines(w, accepted) && w.seen && n <= w.high && w.high - n < 64
    ensures var (w', ok) := Check(w, n);
            (ok <==> n !in accepted) && Refines(w', if ok then accepted + {n} else accepted)
  {
    hide Has, OneAt, Position, Or, Meets;
    var back := w.high - n;
    Masked(w.bits, back);
    assert Has(w.bits, back) <==> n in accepted;
    var bits := Or(w.bits, OneAt(Position(back)));
    forall k | 0 <= k < 64
      ensures Has(bits, k) <==> Has(w.bits, k) || back == k
    {
      SetBit(w.bits, back, k);
    }
  }

  lemma Starts(n: u64)
    ensures Refines(Window(true, n, 1), {n})
  {
    hide Has;
    forall k | 0 <= k < 64
      ensures Has(1, k) <==> k == 0
    {
      FirstBit(k);
    }
  }

  /** One packet: the bitmap decides as the set does, and goes on refining it. */
  lemma CheckRefines(w: Window, accepted: set<u64>, n: u64)
    requires Refines(w, accepted)
    ensures var (w', ok) := Check(w, n);
            && (ok <==> Accepts(accepted, w.high, n))
            && Refines(w', if ok then accepted + {n} else accepted)
            && (n in accepted ==> !ok)
  {
    hide Advance, Has, OneAt, Position, Or, Meets;
    if !w.seen {
      Starts(n);
      assert accepted + {n} == {n};
    } else if n > w.high {
      Slides(w, accepted, n);
    } else if w.high - n < 64 {
      Marks(w, accepted, n);
    }
  }

  // ---- runs -------------------------------------------------------------------------

  datatype Track = Track(w: Window, accepted: set<u64>)

  const START := Track(EMPTY, {})

  function Receive(t: Track, n: u64): Track {
    var (w, ok) := Check(t.w, n);
    Track(w, if ok then t.accepted + {n} else t.accepted)
  }

  function RunAll(t: Track, packets: seq<u64>): Track
    decreases |packets|
  {
    if packets == [] then t else RunAll(Receive(t, packets[0]), packets[1..])
  }

  /** Over every run the bitmap accepts exactly what the set does. */
  lemma {:induction false} WindowRefinesSet(t: Track, packets: seq<u64>, n: u64)
    requires Refines(t.w, t.accepted)
    ensures var u := RunAll(t, packets);
            Refines(u.w, u.accepted) && (Check(u.w, n).1 <==> Accepts(u.accepted, u.w.high, n))
    decreases |packets|
  {
    hide Refines, Check, Accepts;
    if packets == [] {
      CheckRefines(t.w, t.accepted, n);
    } else {
      CheckRefines(t.w, t.accepted, packets[0]);
      WindowRefinesSet(Receive(t, packets[0]), packets[1..], n);
    }
  }

  /** How many of the packets carrying `n` are let through. */
  function Passed(t: Track, packets: seq<u64>, n: u64): nat
    decreases |packets|
  {
    if packets == [] then 0
    else
      (if packets[0] == n && Check(t.w, n).1 then 1 else 0) + Passed(Receive(t, packets[0]), packets[1..], n)
  }

  /** No sequence number is ever accepted twice. */
  lemma {:induction false} NeverTwice(t: Track, packets: seq<u64>, n: u64)
    requires Refines(t.w, t.accepted)
    ensures Passed(t, packets, n) <= if n in t.accepted then 0 else 1
    decreases |packets|
  {
    hide Refines, Check;
    if packets == [] {
    } else {
      CheckRefines(t.w, t.accepted, packets[0]);
      NeverTwice(Receive(t, packets[0]), packets[1..], n);
    }
  }

  // ---- the object ---------------------------------------------------------------------

  class ReplayCheck {
    var seen: bool
    var high: u64
    var bits: Word
    ghost var accepted: set<u64>

    ghost predicate Valid()
      reads this
    {
      Refines(State(), accepted)
    }

    function State(): Window
      reads this
    {
      Window(seen, high, bits)
    }

    constructor ()
      ensures Valid() && accepted == {} && State() == EMPTY
    {
      seen, high, bits, accepted := false, 0, 0, {};
    }

    method CheckRxSeq(n: u64) returns (ok: bool)
      requires Valid()
      modifies this
      ensures Valid() && (State(), ok) == Check(old(State()), n)
      ensures ok <==> Accepts(old(accepted), old(high), n)
      ensures accepted == if ok then old(accepted) + {n} else old(accepted)
    {
      hide Refines, Accepts, ShiftLeft, Position, Or, OneAt, Meets;
      CheckRefines(State(), accepted, n);
      if !seen {
        seen, high, bits := true, n, 1;
        accepted := accepted + {n};
        return true;
      }
      if n > high {
        var shift := n - high;
        bits := if shift >= 64 then 0 else ShiftLeft(bits, Position(shift));
        bits := Or(bits, 1);
        high := n;
        accepted := accepted + {n};
        return true;
      }
      var back := high - n;
      if back >= 64 {
        return false;
      }
      var bit := OneAt(Position(back));
      if Meets(bits, bit) {
        return false;
      }
      bits := Or(bits, bit);
      accepted := accepted + {n};
      return true;
    }
  }
}
