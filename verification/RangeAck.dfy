/** Selective acknowledgement (section 2.3.14 of RFC 7016): `get_range_ack` and
    `count_sequence` of `rtmfp/seq_manager.h` on the receiving side,
    `range_ack_chunk` of `rtmfp/chunk.cpp` on the wire. */
module RangeAck {
  import opened Bytes
  import opened IntegerSets
  import opened SeqManager
  import Vlu

  /** One (holes - 1, received - 1) pair, as it goes on the wire. */
  datatype Pair = Pair(holes: nat, received: nat)

  datatype Ack = Ack(cumulative: nat, pairs: seq<Pair>)

  // ---- building the acknowledgement ---------------------------------------------

  /** How many numbers of `s` follow `n` without a break. */
  function RunAfter(s: set<nat>, n: nat): nat
    decreases |s|
  {
    if n + 1 in s then 1 + RunAfter(s - {n + 1}, n + 1) else 0
  }

  /** `count_sequence` over the missing numbers still to report: the pair, and
      the missing numbers after it. */
  function CountSequence(left: set<nat>, sequences: set<nat>): (Pair, set<nat>)
    requires left != {}
  {
    var first := MinOf(left);
    var a := RunAfter(left, first);
    var after := left - Interval(first, first + a + 1);
    var prev := first + a + 1;
    var b := if after != {} && MinOf(after) > prev then MinOf(after) - 1 - prev
             else if after != {} then 0
             else RunAfter(sequences, prev);
    (Pair(a, b), after)
  }

  function Pairs(left: set<nat>, sequences: set<nat>): seq<Pair>
    decreases |left|
  {
    if left == {} then []
    else
      var (pair, after) := CountSequence(left, sequences);
      Shrinks(left, sequences);
      [pair] + Pairs(after, sequences)
  }

  lemma Shrinks(left: set<nat>, sequences: set<nat>)
    requires left != {}
    ensures |CountSequence(left, sequences).1| < |left|
  {
    var after := CountSequence(left, sequences).1;
    assert MinOf(left) in left && MinOf(left) !in after;
    SubsetSize(after + {MinOf(left)}, left);
  }

  function GetRangeAck(s: Seqs): Ack {
    if s.missing == {} then Ack(s.csn, [])
    else if s.sequences != {} then
      var first := MinOf(s.missing);
      Ack(if first > 0 then first - 1 else 0, Pairs(s.missing, s.sequences))
    else Ack(0, [])
  }

  // ---- what an acknowledgement means -----------------------------------------------

  datatype Range = Range(from: nat, to: nat)

  /** The decoder's reading of the pairs, on unbounded numbers. */
  function Absolute(cursor: nat, pairs: seq<Pair>): seq<Range>
    decreases |pairs|
  {
    if pairs == [] then []
    else
      var from := cursor + 2 + pairs[0].holes;
      var to := from + pairs[0].received;
      [Range(from, to)] + Absolute(to, pairs[1..])
  }

  function Numbers(ranges: seq<Range>): set<nat> {
    if ranges == [] then {} else Interval(ranges[0].from, ranges[0].to + 1) + Numbers(ranges[1..])
  }

  /** Ascending, non-empty, and never adjacent: the runs are maximal. */
  predicate Separated(cursor: nat, ranges: seq<Range>)
    decreases |ranges|
  {
    ranges != [] ==>
      cursor + 2 <= ranges[0].from <= ranges[0].to && Separated(ranges[0].to, ranges[1..])
  }

  function Acknowledged(a: Ack): set<nat> {
    Upto(a.cumulative) + Numbers(Absolute(a.cumulative, a.pairs))
  }

  // ---- the acknowledgement is exactly what is covered ---------------------------------

  lemma {:induction false} RunFacts(s: set<nat>, n: nat)
    ensures var k := RunAfter(s, n);
            (forall x | n < x <= n + k :: x in s) && n + k + 1 !in s
    decreases |s|
  {
    if n + 1 !in s {
    } else {
      RunFacts(s - {n + 1}, n + 1);
      forall x | n < x <= n + RunAfter(s, n)
        ensures x in s
      {
        assert x == n + 1 || x in s - {n + 1};
      }
    }
  }

  /** The state part-way through the report: `cursor` is covered up to (or is the
      cumulative number), and what is left to report starts just after it. */
  predicate Reporting(s: Seqs, covered: set<nat>, left: set<nat>, cursor: nat) {
    && Shape(s, covered)
    && cursor >= s.csn
    && left == Above(s.missing, cursor)
    && (left != {} ==> cursor + 1 in left)
    && (left == {} ==> forall x | x in covered :: x <= cursor)
  }

  /** The run of holes at the cursor ends at a covered number. */
  lemma Holes(s: Seqs, covered: set<nat>, left: set<nat>, cursor: nat)
    requires Reporting(s, covered, left, cursor) && left != {}
    ensures var a := RunAfter(left, cursor + 1);
            var from := cursor + 2 + a;
            && MinOf(left) == cursor + 1
            && from in covered
            && (forall x | cursor < x < from :: x in s.missing)
            && left - Interval(cursor + 1, from) == Above(s.missing, from)
  {
    hide MaxOf, Upto, RunAfter, MinOf, Interval;
    var a := RunAfter(left, cursor + 1);
    var from := cursor + 2 + a;
    RunFacts(left, cursor + 1);
    var top := MaxOf(covered);
    assert cursor + 1 in left && MinOf(left) in left;
    assert from - 1 in s.missing by {
      assert a == 0 || from - 1 in left;
    }
    assert top in covered && top > from - 1;
    assert from in Upto(top);
    LastHole(s, covered, left, cursor, a);
    forall x | cursor < x < from
      ensures x in s.missing
    {
      assert x == cursor + 1 || x in left;
    }
  }

  /** Between two runs of holes everything is covered. */
  lemma MiddleRun(s: Seqs, covered: set<nat>, from: nat, after: set<nat>)
    requires Shape(s, covered) && from > s.csn && from in covered
    requires after == Above(s.missing, from) && after != {}
    ensures var to := MinOf(after) - 1;
            && to >= from
            && Reporting(s, covered, after, to)
            && (forall x | from <= x <= to :: x in covered)
  {
    hide MaxOf, Upto, MinOf;
    var to := MinOf(after) - 1;
    var top := MaxOf(covered);
    assert MinOf(after) in s.missing;
    forall x | from <= x <= to
      ensures x in covered
    {
      assert x in s.missing ==> x == from || x in after;
      assert x in Upto(top);
    }
    assert after == Above(s.missing, to);
  }

  /** One pair steps over a run of holes and a run of received numbers. */
  lemma PairStep(s: Seqs, covered: set<nat>, left: set<nat>, cursor: nat)
    requires Reporting(s, covered, left, cursor) && left != {}
    ensures var (pair, after) := CountSequence(left, s.sequences);
            var from, to := cursor + 2 + pair.holes, cursor + 2 + pair.holes + pair.received;
            && Reporting(s, covered, after, to)
            && (forall x | cursor < x < from :: x !in covered)
            && (forall x | from <= x <= to :: x in covered)
  {
    hide MaxOf, Upto, RunAfter, MinOf;
    var (pair, after) := CountSequence(left, s.sequences);
    var from, to := cursor + 2 + pair.holes, cursor + 2 + pair.holes + pair.received;
    Holes(s, covered, left, cursor);
    if after != {} {
      MiddleRun(s, covered, from, after);
    } else {
      RunFacts(s.sequences, from);
      LastRun(s, covered, from, to);
      forall x | from <= x <= to
        ensures x in covered
      {
        assert x == from || x in s.sequences;
      }
    }
  }

  /** Taking the run of holes away leaves the missing numbers beyond it. */
  lemma LastHole(s: Seqs, covered: set<nat>, left: set<nat>, cursor: nat, a: nat)
    requires left == Above(s.missing, cursor)
    requires forall x | cursor + 1 < x <= cursor + 1 + a :: x in left
    requires cursor + 2 + a !in left
    ensures left - Interval(cursor + 1, cursor + 1 + a + 1) == Above(s.missing, cursor + 2 + a)
  {
    hide Interval;
  }

  /** With no hole beyond it, the last run of pending numbers reaches the top. */
  lemma LastRun(s: Seqs, covered: set<nat>, from: nat, to: nat)
    requires Shape(s, covered) && from > s.csn && from in covered && to >= from
    requires Above(s.missing, from) == {}
    requires (forall x | from < x <= to :: x in s.sequences) && to + 1 !in s.sequences
    ensures forall x | x in covered :: x <= to
    ensures Above(s.missing, to) == {}
  {
    hide MaxOf, Upto;
    var top := MaxOf(covered);
    assert to + 1 in Upto(top) ==> to + 1 in s.missing || to + 1 in covered;
    assert to + 1 in s.missing ==> to + 1 in Above(s.missing, from);
    assert to + 1 in covered ==> to + 1 in s.sequences;
    assert top <= to;
  }

  /** The remaining pairs decode to the maximal runs of covered numbers beyond
      the cursor. */
  lemma {:induction false} PairsExact(s: Seqs, covered: set<nat>, left: set<nat>, cursor: nat)
    requires Reporting(s, covered, left, cursor)
    ensures var ranges := Absolute(cursor, Pairs(left, s.sequences));
            && Separated(cursor, ranges)
            && Numbers(ranges) == Above(covered, cursor)
    decreases |left|
  {
    hide CountSequence, Reporting, Interval;
    if left == {} {
      assert Above(covered, cursor) == {} by {
        NothingLeft(s, covered, cursor);
      }
    } else {
      PairStep(s, covered, left, cursor);
      Shrinks(left, s.sequences);
      var (pair, after) := CountSequence(left, s.sequences);
      var from, to := cursor + 2 + pair.holes, cursor + 2 + pair.holes + pair.received;
      PairsExact(s, covered, after, to);
      assert Pairs(left, s.sequences)[1..] == Pairs(after, s.sequences);
      assert Absolute(cursor, Pairs(left, s.sequences))[1..] == Absolute(to, Pairs(after, s.sequences));
      assert Above(covered, cursor) == Interval(from, to + 1) + Above(covered, to);
    }
  }

  lemma NothingLeft(s: Seqs, covered: set<nat>, cursor: nat)
    requires Reporting(s, covered, {}, cursor)
    ensures Above(covered, cursor) == {}
  {
  }

  /** In every safe state the acknowledgement names only covered numbers; it
      names all of them unless csn is stalled with nothing missing. The branch
      that would answer 0 is never taken. */
  lemma AckIsExact(s: Seqs, covered: set<nat>)
    requires Safe(s, covered)
    ensures var a := GetRangeAck(s);
            && s.csn <= a.cumulative
            && Separated(a.cumulative, Absolute(a.cumulative, a.pairs))
            && Acknowledged(a) <= covered
            && (s.missing != {} || s.csn + 1 !in covered ==> Acknowledged(a) == covered)
            && (s.missing == {} ==> a.cumulative == s.csn)
            && (s.csn + 1 !in covered ==> a.cumulative == s.csn)
  {
    hide Sum, Shape, Upto, Pairs, Numbers;
    NoPairs(s.csn);
    if s.missing == {} {
      NoHoles(s, covered);
    } else {
      FirstHole(s, covered);
      PairsExact(s, covered, s.missing, MinOf(s.missing) - 1);
    }
  }

  lemma NoHoles(s: Seqs, covered: set<nat>)
    requires Shape(s, covered) && s.missing == {}
    ensures Upto(s.csn) <= covered
    ensures s.csn + 1 !in covered ==> Upto(s.csn) == covered
  {
    hide MaxOf, Upto;
    if s.csn + 1 !in covered {
      assert s.csn + 1 !in Upto(MaxOf(covered));
    }
  }

  lemma FirstHole(s: Seqs, covered: set<nat>)
    requires Shape(s, covered) && s.missing != {}
    ensures var first := MinOf(s.missing);
            && s.sequences != {} && first > s.csn
            && Reporting(s, covered, s.missing, first - 1)
            && covered == Upto(first - 1) + Above(covered, first - 1)
            && (s.csn + 1 !in covered ==> first == s.csn + 1)
  {
    hide MaxOf, Upto, MinOf;
    var first, top := MinOf(s.missing), MaxOf(covered);
    assert first in Upto(top) && first !in Upto(s.csn);
    assert top in covered && top in s.sequences;
    forall x | x in Upto(first - 1)
      ensures x in covered
    {
      assert x in Upto(top) && x !in s.missing;
    }
    assert Above(s.missing, first - 1) == s.missing;
    assert s.csn + 1 in Upto(top);
  }

  lemma NoPairs(cursor: nat)
    ensures Absolute(cursor, []) == [] && Numbers([]) == {}
  {
  }

  // ---- on the wire -----------------------------------------------------------------------

  predicate Fits(a: Ack) {
    a.cumulative < U64 && forall p | p in a.pairs :: p.holes < U64 && p.received < U64
  }

  function EncodePairs(pairs: seq<Pair>): seq<byte>
    requires forall p | p in pairs :: p.holes < U64 && p.received < U64
  {
    if pairs == [] then []
    else Vlu.Encode(pairs[0].holes) + (Vlu.Encode(pairs[0].received) + EncodePairs(pairs[1..]))
  }

  /** The chunk body of `range_ack_chunk::serialize`. */
  function EncodeAck(flowId: Vlu.u64, blocks: Vlu.u64, a: Ack): seq<byte>
    requires Fits(a)
  {
    Vlu.Encode(flowId) + (Vlu.Encode(blocks) + (Vlu.Encode(a.cumulative) + EncodePairs(a.pairs)))
  }

  function Wrap(n: nat): Vlu.u64 {
    n % 0x1_0000_0000_0000_0000
  }

  /** The range loop of `deserialize`, in wrapping 64-bit arithmetic: it runs
      while the cursor is before the chunk's end, `tail` bytes from the end of
      the packet. */
  function DecodeRanges(cursor: Vlu.u64, s: seq<byte>, tail: nat): Read<seq<Range>>
    decreases |s|
  {
    if |s| <= tail then Got([], s)
    else
      match Vlu.Decode(s)
      case Short => Short
      case Got(x, s1) =>
        match Vlu.Decode(s1)
        case Short => Short
        case Got(y, s2) =>
          Consumes(s);
          Consumes(s1);
          var from := Wrap(x + cursor + 2);
          var to := Wrap(y + from);
          match DecodeRanges(to, s2, tail)
          case Short => Short
          case Got(others, rest) => Got([Range(from, to)] + others, rest)
  }

  lemma Consumes(s: seq<byte>)
    requires Vlu.Decode(s).Got?
    ensures |Vlu.Decode(s).rest| < |s|
  {
    ConsumesFrom(0, s);
  }

  lemma ConsumesFrom(acc: Vlu.u64, s: seq<byte>)
    requires Vlu.DecodeFrom(acc, s).Got?
    ensures |Vlu.DecodeFrom(acc, s).rest| < |s|
    decreases |s|
  {
  }

  datatype Decoded = Decoded(flowId: Vlu.u64, blocks: Vlu.u64, cumulative: Vlu.u64, ranges: seq<Range>)

  function DecodeAck(s: seq<byte>, tail: nat): Read<Decoded> {
    var (flowId, s1) :- Vlu.Decode(s);
    var (blocks, s2) :- Vlu.Decode(s1);
    var (cumulative, s3) :- Vlu.Decode(s2);
    var (ranges, rest) :- DecodeRanges(cumulative, s3, tail);
    Got(Decoded(flowId, blocks, cumulative, ranges), rest)
  }

  predicate Within(ranges: seq<Range>, cap: nat) {
    forall r | r in ranges :: r.from <= r.to <= cap
  }

  /** Decoding undoes encoding when no range passes 64 bits. */
  lemma {:induction false} DecodesPairs(cursor: Vlu.u64, pairs: seq<Pair>, rest: seq<byte>)
    requires forall p | p in pairs :: p.holes < U64 && p.received < U64
    requires Within(Absolute(cursor, pairs), U64 - 1)
    ensures DecodeRanges(cursor, EncodePairs(pairs) + rest, |rest|) == Got(Absolute(cursor, pairs), rest)
    decreases |pairs|
  {
    hide Vlu.Decode, Vlu.Encode, DecodeRanges;
    if pairs == [] {
      assert EncodePairs(pairs) + rest == rest;
      DecodesNone(cursor, rest);
    } else {
      var p, others := pairs[0], pairs[1..];
      var s2 := EncodePairs(others) + rest;
      var s1 := Vlu.Encode(p.received) + s2;
      assert EncodePairs(pairs) + rest == Vlu.Encode(p.holes) + s1;
      Vlu.RoundTrip(p.holes, s1);
      Vlu.RoundTrip(p.received, s2);
      var from, to := cursor + 2 + p.holes, cursor + 2 + p.holes + p.received;
      var all := Absolute(cursor, pairs);
      assert all == [Range(from, to)] + Absolute(to, others);
      assert Range(from, to) in all && to < U64;
      assert forall r | r in Absolute(to, others) :: r in all;
      DecodesPairs(to, others, rest);
      DecodesOne(cursor, p, Vlu.Encode(p.holes) + s1, s1, s2, |rest|);
    }
  }

  lemma DecodesNone(cursor: Vlu.u64, rest: seq<byte>)
    ensures DecodeRanges(cursor, rest, |rest|) == Got([], rest)
  {
  }

  lemma DecodesOne(cursor: Vlu.u64, p: Pair, s: seq<byte>, s1: seq<byte>, s2: seq<byte>, tail: nat)
    requires p.holes < U64 && p.received < U64
    requires Vlu.Decode(s) == Got(p.holes, s1) && Vlu.Decode(s1) == Got(p.received, s2) && |s2| >= tail
    requires cursor + 2 + p.holes + p.received < U64
    ensures var from, to := cursor + 2 + p.holes, cursor + 2 + p.holes + p.received;
            var more := DecodeRanges(to, s2, tail);
            DecodeRanges(cursor, s, tail) == if more.Short? then Short else Got([Range(from, to)] + more.value, more.rest)
  {
    hide Vlu.Decode, Wrap;
    Consumes(s);
    Consumes(s1);
    WrapSmall(p.holes + cursor + 2);
    WrapSmall(cursor + 2 + p.holes + p.received);
  }

  lemma WrapSmall(n: nat)
    requires n < U64
    ensures Wrap(n) == n
  {
  }

  // ---- size --------------------------------------------------------------------------------

  /** No pair and no range exceeds the window the sequence manager allows. */
  lemma {:induction false} PairSizes(s: Seqs, covered: set<nat>, left: set<nat>, cursor: nat)
    requires Reporting(s, covered, left, cursor)
    ensures var pairs := Pairs(left, s.sequences);
            && |pairs| <= |left|
            && (forall p | p in pairs :: p.holes <= MAX_MISSING && p.received <= MAX_MISSING)
            && Within(Absolute(cursor, pairs), MAX_CSN)
    decreases |left|
  {
    hide CountSequence, Reporting, Interval;
    if left == {} {
    } else {
      PairStep(s, covered, left, cursor);
      Shrinks(left, s.sequences);
      var (pair, after) := CountSequence(left, s.sequences);
      var from, to := cursor + 2 + pair.holes, cursor + 2 + pair.holes + pair.received;
      PairSizes(s, covered, after, to);
      var pairs := Pairs(left, s.sequences);
      assert pairs == [pair] + Pairs(after, s.sequences);
      assert pairs[1..] == Pairs(after, s.sequences);
      assert Absolute(cursor, pairs) == [Range(from, to)] + Absolute(to, pairs[1..]);
      PairWithin(s, covered, left, cursor, from, to);
    }
  }

  lemma PairWithin(s: Seqs, covered: set<nat>, left: set<nat>, cursor: nat, from: nat, to: nat)
    requires Reporting(s, covered, left, cursor)
    requires cursor + 2 <= from <= to && forall x | from <= x <= to :: x in covered
    ensures to <= MAX_CSN && to <= s.csn + MAX_MISSING <= cursor + MAX_MISSING
  {
    hide MaxOf, Upto;
    assert to in covered && to !in Upto(s.csn);
    assert to in s.sequences;
  }

  lemma {:induction false} EncodedPairs(pairs: seq<Pair>)
    requires forall p | p in pairs :: p.holes <= MAX_MISSING && p.received <= MAX_MISSING
    ensures |EncodePairs(pairs)| <= 4 * |pairs|
    decreases |pairs|
  {
    if pairs == [] {
    } else {
      ShortVlu(pairs[0].holes);
      ShortVlu(pairs[0].received);
      EncodedPairs(pairs[1..]);
    }
  }

  lemma ShortVlu(v: nat)
    requires v <= MAX_MISSING
    ensures |Vlu.Encode(v)| <= 2
  {
    Vlu.EncodedSize(v);
    assert v / 128 < 128;
  }

  /** Range acknowledgement, end to end: for every safe state, the body fits the
      16-bit chunk length, and decoding it in the middle of any packet gives the
      cumulative number and exactly the maximal runs of covered numbers above it. */
  lemma AckRoundTrip(s: Seqs, covered: set<nat>, flowId: Vlu.u64, blocks: Vlu.u64, rest: seq<byte>)
    requires Safe(s, covered)
    ensures var a := GetRangeAck(s);
            && Fits(a)
            && |EncodeAck(flowId, blocks, a)| < 0x1_0000
            && DecodeAck(EncodeAck(flowId, blocks, a) + rest, |rest|) ==
               Got(Decoded(flowId, blocks, a.cumulative, Absolute(a.cumulative, a.pairs)), rest)
  {
    hide Sum, Shape, Pairs, Absolute, Numbers, Vlu.Decode, Vlu.Encode;
    var a := GetRangeAck(s);
    AckSizes(s, covered);
    var s3 := EncodePairs(a.pairs) + rest;
    var s2 := Vlu.Encode(a.cumulative) + s3;
    var s1 := Vlu.Encode(blocks) + s2;
    assert EncodeAck(flowId, blocks, a) + rest == Vlu.Encode(flowId) + s1;
    Vlu.RoundTrip(flowId, s1);
    Vlu.RoundTrip(blocks, s2);
    Vlu.RoundTrip(a.cumulative, s3);
    DecodesPairs(a.cumulative, a.pairs, rest);
    LongestVlu(flowId);
    LongestVlu(blocks);
    LongestVlu(a.cumulative);
    EncodedPairs(a.pairs);
  }

  lemma LongestVlu(v: Vlu.u64)
    ensures |Vlu.Encode(v)| <= 10
  {
    Vlu.EncodedSize(v);
    var w := v / 128 / 128 / 128;
    var x := w / 128 / 128 / 128;
    ThreeDigits(v);
    ThreeDigits(w);
    ThreeDigits(x);
  }

  lemma ThreeDigits(v: nat)
    ensures Vlu.Size(v) <= 3 + Vlu.Size(v / 128 / 128 / 128)
  {
    OneDigit(v);
    OneDigit(v / 128);
    OneDigit(v / 128 / 128);
  }

  lemma OneDigit(v: nat)
    ensures Vlu.Size(v) <= 1 + Vlu.Size(v / 128)
  {
  }

  lemma AckSizes(s: Seqs, covered: set<nat>)
    requires Safe(s, covered)
    ensures var a := GetRangeAck(s);
            && a.cumulative <= MAX_CSN && |a.pairs| <= MAX_MISSING
            && (forall p | p in a.pairs :: p.holes <= MAX_MISSING && p.received <= MAX_MISSING)
            && Within(Absolute(a.cumulative, a.pairs), MAX_CSN)
  {
    hide Sum, Pairs, Numbers, Shape, Absolute, Reporting;
    NoPairs(s.csn);
    CsnBound(s, covered);
    if s.missing != {} {
      FirstHole(s, covered);
      MissingFacts(s, covered);
      PairSizes(s, covered, s.missing, MinOf(s.missing) - 1);
    }
  }

  lemma CsnBound(s: Seqs, covered: set<nat>)
    requires Shape(s, covered)
    ensures s.csn <= MAX_CSN
  {
    hide MaxOf, Upto;
    assert s.csn > 0 ==> s.csn in Upto(s.csn);
  }

  // ---- the loops -----------------------------------------------------------------------------

  /** The run after `n` is decided by the numbers above `n`. */
  lemma {:induction false} RunSame(s: set<nat>, t: set<nat>, n: nat)
    requires Above(s, n) == Above(t, n)
    ensures RunAfter(s, n) == RunAfter(t, n)
    decreases |s|
  {
    assert n + 1 in s <==> n + 1 in Above(s, n);
    assert n + 1 in t <==> n + 1 in Above(t, n);
    if n + 1 !in s {
    } else {
      assert forall x | x in s || x in t :: x > n ==> (x in Above(s, n) <==> x in s) && (x in Above(t, n) <==> x in t);
      assert Above(s - {n + 1}, n + 1) == Above(t - {n + 1}, n + 1);
      RunSame(s - {n + 1}, t - {n + 1}, n + 1);
    }
  }

  /** Walk the missing numbers while they are consecutive. */
  method WalkHoles(missing: set<nat>) returns (a: nat, left: set<nat>)
    requires missing != {}
    ensures var first := MinOf(missing);
            a == RunAfter(missing, first) && left == missing - Interval(first, first + a + 1)
  {
    hide RunAfter, MinOf, Interval, Above;
    var first := MinOf(missing);
    var prev := first;
    a, left := 0, missing - {first};
    DropFirst(missing, first);
    while left != {} && MinOf(left) == prev + 1
      invariant prev == first + a
      invariant left == missing - Interval(first, prev + 1)
      invariant RunAfter(missing, first) == a + RunAfter(left, prev)
      decreases |left|
    {
      RunTakes(left, prev);
      assert left - {prev + 1} == missing - Interval(first, prev + 2);
      prev, a, left := prev + 1, a + 1, left - {prev + 1};
    }
    assert left != {} ==> MinOf(left) in missing && MinOf(left) > prev;
    RunStops(left, prev);
  }

  lemma DropFirst(s: set<nat>, n: nat)
    ensures RunAfter(s - {n}, n) == RunAfter(s, n)
  {
    assert Above(s - {n}, n) == Above(s, n);
    RunSame(s - {n}, s, n);
  }

  lemma RunTakes(s: set<nat>, n: nat)
    requires n + 1 in s
    ensures RunAfter(s, n) == 1 + RunAfter(s - {n + 1}, n + 1)
  {
  }

  lemma RunStops(s: set<nat>, n: nat)
    ensures RunAfter(s, n) == 0 <==> n + 1 !in s
  {
  }

  /** `count_sequence`: the holes, then the received numbers up to the next hole
      or, after the last one, as far as the pending numbers go. */
  method Count(missing: set<nat>, sequences: set<nat>) returns (pair: Pair, left: set<nat>)
    requires missing != {}
    ensures (pair, left) == CountSequence(missing, sequences)
  {
    hide RunAfter, MinOf, Interval;
    var first := MinOf(missing);
    var a;
    a, left := WalkHoles(missing);
    var prev := first + a + 1;
    ghost var from := prev;
    var b := 0;
    if left != {} {
      var next := MinOf(left);
      while prev < next - 1
        invariant prev == from + b
        invariant b == 0 || prev <= next - 1
      {
        prev, b := prev + 1, b + 1;
      }
    } else {
      while prev + 1 in sequences
        invariant prev == from + b
        invariant RunAfter(sequences, from) == b + RunAfter(sequences, prev)
        decreases RunAfter(sequences, prev)
      {
        RunTakes(sequences, prev);
        DropFirst(sequences, prev + 1);
        prev, b := prev + 1, b + 1;
      }
      RunStops(sequences, prev);
    }
    pair := Pair(a, b);
  }

  /** `get_range_ack` */
  method BuildAck(s: Seqs) returns (a: Ack)
    ensures a == GetRangeAck(s)
  {
    hide CountSequence;
    if s.missing == {} {
      return Ack(s.csn, []);
    }
    if s.sequences == {} {
      return Ack(0, []);
    }
    var first := MinOf(s.missing);
    var left, pairs := s.missing, [];
    while left != {}
      invariant pairs + Pairs(left, s.sequences) == Pairs(s.missing, s.sequences)
      decreases |left|
    {
      Shrinks(left, s.sequences);
      var pair;
      pair, left := Count(left, s.sequences);
      pairs := pairs + [pair];
    }
    return Ack(if first > 0 then first - 1 else 0, pairs);
  }

  function Behind(ranges: seq<Range>, r: Read<seq<Range>>): Read<seq<Range>> {
    if r.Short? then Short else Got(ranges + r.value, r.rest)
  }

  lemma BehindBehind(a: seq<Range>, b: seq<Range>, r: Read<seq<Range>>)
    ensures Behind(a, Behind(b, r)) == Behind(a + b, r) && Behind([], r) == r
  {
    if r.Got? {
      assert a + (b + r.value) == a + b + r.value && [] + r.value == r.value;
    }
  }

  /** The range loop of `range_ack_chunk::deserialize`. */
  method ReadRanges(cumulative: Vlu.u64, s: seq<byte>, tail: nat) returns (r: Read<seq<Range>>)
    ensures r == DecodeRanges(cumulative, s, tail)
  {
    hide Vlu.Decode;
    var cursor, left := cumulative, s;
    var ranges: seq<Range> := [];
    BehindBehind([], [], DecodeRanges(cursor, left, tail));
    while |left| > tail
      invariant DecodeRanges(cumulative, s, tail) == Behind(ranges, DecodeRanges(cursor, left, tail))
      decreases |left|
    {
      var x := Vlu.Decode(left);
      if x.Short? {
        return Short;
      }
      var y := Vlu.Decode(x.rest);
      if y.Short? {
        return Short;
      }
      Consumes(left);
      Consumes(x.rest);
      var sum: int := x.value;
      var from := Wrap(sum + cursor + 2);
      sum := y.value;
      var to := Wrap(sum + from);
      BehindBehind(ranges, [Range(from, to)], DecodeRanges(to, y.rest, tail));
      ranges := ranges + [Range(from, to)];
      cursor, left := to, y.rest;
    }
    assert ranges + [] == ranges;
    return Got(ranges, left);
  }
}
