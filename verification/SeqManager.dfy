/** The RTMFP receive-sequence bookkeeping of `rtmfp/seq_manager.h`.

    The code keeps the cumulative sequence number `csn`, the numbers accepted
    above it, the numbers missing below the greatest one, and a running sum; it
    decides "no gap left" by comparing the sum with a triangular number. Here
    that incremental state is compared with the plain set of numbers covered. */
module SeqManager {
  import opened IntegerSets

  const MAX_GAP := 0x1_0000
  const MAX_CSN := 0xFFFF_FFFF
  const MAX_MISSING := 8192
  const U64 := 0x1_0000_0000_0000_0000

  datatype Result = InOrder | Duplicate | GapClosed | ProducesGap | GapStillPresent

  datatype Seqs = Seqs(csn: nat, sum: nat, sequences: set<nat>, missing: set<nat>)

  const EMPTY := Seqs(0, 0, {}, {})

  // ---- add_seq ----------------------------------------------------------------

  predicate Refused(s: Seqs, val: nat) {
    || val <= s.csn
    || val - s.csn > MAX_GAP
    || val > MAX_CSN
    || val in s.sequences
    || |s.missing| + (val - s.csn) > MAX_MISSING
  }

  /** What the sum would be if nothing were missing (`sum_n_elements`). */
  function Target(s: Seqs): nat {
    Triangle(s.csn + |s.sequences| + 1)
  }

  function UpdateCsn(s: Seqs, val: nat): Seqs {
    if s.sequences != {} then s.(csn := MaxOf(s.sequences), sequences := {})
    else s.(csn := val)
  }

  /** Let csn run through the pending numbers that follow it directly. */
  function Drain(csn: nat, pending: set<nat>): (nat, set<nat>)
    decreases |pending|
  {
    if csn + 1 in pending then Drain(csn + 1, pending - {csn + 1}) else (csn, pending)
  }

  function Interval(lo: nat, hi: nat): (s: set<nat>)
    ensures forall x :: x in s <==> lo <= x < hi
  {
    if lo >= hi then {} else Interval(lo, hi - 1) + {hi - 1}
  }

  datatype Added = Added(s: Seqs, result: Result)

  function AddSeq(s: Seqs, val: nat): Added {
    if Refused(s, val) then Added(s, Duplicate)
    else if val in s.missing then FillHole(s, val)
    else Extend(s, val)
  }

  function FillHole(s: Seqs, val: nat): Added {
    var t := s.(missing := s.missing - {val}, sum := s.sum + val);
    if t.sum == Target(t) then Added(UpdateCsn(t, val), GapClosed)
    else if val == s.csn + 1 then
      var (csn, pending) := Drain(s.csn + 1, s.sequences);
      Added(t.(csn := csn, sequences := pending), GapStillPresent)
    else
      Added(t.(sequences := s.sequences + {val}), GapStillPresent)
  }

  function Extend(s: Seqs, val: nat): Added {
    var t := s.(sum := s.sum + val);
    if t.sum == Target(t) then Added(UpdateCsn(t, val), InOrder)
    else
      Added(t.(sequences := s.sequences + {val},
               missing := s.missing + (Interval(s.csn + 1, val) - s.sequences)), ProducesGap)
  }

  // ---- add_sequences_until ------------------------------------------------------

  predicate Forwards(s: Seqs, val: nat) {
    s.csn < val <= MAX_CSN && val - s.csn <= MAX_GAP
  }

  function Above(s: set<nat>, n: nat): set<nat> {
    set x | x in s && x > n
  }

  /** The peer moved its forward sequence number: everything up to `val` counts
      as covered. The sum also takes in the numbers still missing. */
  function AddSequencesUntil(s: Seqs, val: nat): Seqs {
    if !Forwards(s, val) then s
    else
      var pending := Above(s.sequences, val);
      var (csn, left) := Drain(val, pending);
      var missing := Above(s.missing, csn);
      Seqs(csn, Triangle(val) + Sum(pending) + Sum(missing), left, missing)
  }

  // ---- the invariant --------------------------------------------------------------

  /** How far one forward can inflate the sum. */
  const MAX_EXCESS := 8192 * 0xFFFF_FFFF

  /** csn, the pending numbers and the missing numbers, as they follow from the
      set `covered` of numbers received or forwarded over. */
  predicate Shape(s: Seqs, covered: set<nat>) {
    && Positive(covered)
    && (forall x | x in covered :: x <= MAX_CSN)
    && Upto(s.csn) <= covered
    && s.sequences == covered - Upto(s.csn)
    && s.missing == Upto(MaxOf(covered)) - covered
    && (forall x | x in s.sequences :: x <= s.csn + MAX_MISSING)
    && |s.missing| <= MAX_MISSING
  }

  predicate Honest(s: Seqs, covered: set<nat>) {
    s.sum == Sum(covered)
  }

  /** What holds in every reachable state. */
  predicate Safe(s: Seqs, covered: set<nat>) {
    && Shape(s, covered)
    && Sum(covered) <= s.sum <= Sum(covered) + MAX_EXCESS
    && (Honest(s, covered) ==> s.csn + 1 !in covered)
  }

  /** The bookkeeping is a faithful summary of the covered set: csn is the
      largest n with 1..n covered, and the sum is the sum. */
  predicate Exact(s: Seqs, covered: set<nat>) {
    Safe(s, covered) && Honest(s, covered)
  }

  lemma CsnIsLargest(s: Seqs, covered: set<nat>, n: nat)
    requires Exact(s, covered)
    ensures Upto(n) <= covered <==> n <= s.csn
  {
    assert s.csn + 1 in Upto(n) <==> n > s.csn;
    assert n <= s.csn ==> Upto(n) <= Upto(s.csn);
  }

  lemma CountCovered(s: Seqs, covered: set<nat>)
    requires Shape(s, covered)
    ensures |covered| == s.csn + |s.sequences|
  {
    UptoSize(s.csn);
    assert covered == Upto(s.csn) + s.sequences;
  }

  /** The gap test fires exactly when the sum is honest and, with `val`, nothing
      below the greatest number is missing. */
  lemma GapTest(s: Seqs, covered: set<nat>, val: nat)
    requires Safe(s, covered) && val >= 1 && val !in covered
    ensures s.sum + val == Target(s) <==> Honest(s, covered) && covered + {val} == Upto(|covered| + 1)
  {
    hide Sum, Triangle, Shape;
    CountCovered(s, covered);
    SumAdd(covered, val);
    assert |covered + {val}| == |covered| + 1;
    assert Positive(covered) by {
      ShapePositive(s, covered);
    }
    TriangularSum(covered + {val});
  }

  lemma ShapePositive(s: Seqs, covered: set<nat>)
    requires Shape(s, covered)
    ensures Positive(covered)
  {
  }

  lemma IntervalSize(lo: nat, hi: nat)
    requires lo <= hi
    ensures |Interval(lo, hi)| == hi - lo
  {
  }

  lemma {:induction false} Drains(csn: nat, pending: set<nat>, covered: set<nat>)
    requires Upto(csn) <= covered && pending == covered - Upto(csn)
    ensures var (c, p) := Drain(csn, pending);
            c >= csn && Upto(c) <= covered && p == covered - Upto(c) && c + 1 !in covered
    decreases |pending|
  {
    hide Upto;
    var (c, p) := Drain(csn, pending);
    if csn + 1 !in pending {
      assert c == csn && p == pending;
    } else {
      NextUpto(csn, pending, covered);
      Drains(csn + 1, pending - {csn + 1}, covered);
    }
  }

  lemma NextUpto(csn: nat, pending: set<nat>, covered: set<nat>)
    requires Upto(csn) <= covered && pending == covered - Upto(csn) && csn + 1 in pending
    ensures Upto(csn + 1) <= covered && pending - {csn + 1} == covered - Upto(csn + 1)
  {
    assert Upto(csn + 1) == Upto(csn) + {csn + 1};
  }

  lemma MaxOfAdded(s: set<nat>, x: nat)
    ensures MaxOf(s + {x}) == if x > MaxOf(s) then x else MaxOf(s)
  {
    assert MaxOf(s + {x}) in s + {x};
    assert x in s + {x} && (s != {} ==> MaxOf(s) in s + {x});
  }

  lemma NothingMissing(s: Seqs, covered: set<nat>)
    requires Shape(s, covered)
    ensures s.missing == {} <==> covered == Upto(|covered|)
  {
    hide Sum, MaxOf, Upto;
    UptoSize(MaxOf(covered));
    if s.missing == {} {
      assert covered == Upto(MaxOf(covered));
    }
  }

  /** Whether the caller is told that no gap remains. */
  predicate Closes(r: Result) {
    r == InOrder || r == GapClosed
  }

  /** The test fired: csn jumps over everything and nothing is missing. */
  lemma ClosedStep(s: Seqs, covered: set<nat>, val: nat)
    requires Safe(s, covered) && !Refused(s, val) && s.sum + val == Target(s)
    ensures var s' := AddSeq(s, val).s; Exact(s', covered + {val}) && s'.missing == {}
  {
    hide Sum, Triangle, MaxOf, Upto, AddSeq, Target, Shape;
    ClosedState(s, val);
    assert val !in covered by {
      NotCovered(s, covered, val);
    }
    GapTest(s, covered, val);
    SumAdd(covered, val);
    CountCovered(s, covered);
    ClosedCsn(s, covered, val, |covered| + 1);
    ClosedShape(AddSeq(s, val).s, |covered| + 1);
  }

  lemma ClosedState(s: Seqs, val: nat)
    requires !Refused(s, val) && s.sum + val == Target(s)
    ensures AddSeq(s, val).s == UpdateCsn(s.(missing := s.missing - {val}, sum := s.sum + val), val)
  {
    hide MaxOf, Triangle, UpdateCsn, Drain, Interval;
    assert val !in s.missing ==> s.missing - {val} == s.missing;
  }

  lemma ClosedShape(s: Seqs, n: nat)
    requires s.csn == n <= MAX_CSN && s.sequences == {} && s.missing == {}
    ensures Shape(s, Upto(n)) && n + 1 !in Upto(n)
  {
    hide Upto, MaxOf;
  }

  lemma ClosedCsn(s: Seqs, covered: set<nat>, val: nat, n: nat)
    requires Shape(s, covered) && val !in covered && s.csn + 1 !in covered && val > s.csn
    requires covered + {val} == Upto(n) && n == s.csn + |s.sequences| + 1
    ensures if s.sequences != {} then MaxOf(s.sequences) == n else val == n
    ensures s.missing <= {val}
    ensures val <= MAX_CSN ==> n <= MAX_CSN
  {
    hide MaxOf, Upto;
    assert n in covered + {val};
    assert s.csn + 1 in covered + {val};
    assert val == s.csn + 1;
    if s.sequences != {} {
      assert |s.sequences| > 0 && n in covered + {val};
      assert n in s.sequences;
      assert MaxOf(s.sequences) in covered + {val};
    }
    forall x | x in s.missing
      ensures x == val
    {
      assert x <= MaxOf(covered);
      if covered != {} {
        assert MaxOf(covered) in Upto(n);
      }
    }
  }

  /** A hole filled away from csn: the number waits. */
  lemma FilledAbove(s: Seqs, covered: set<nat>, val: nat)
    requires Shape(s, covered) && !Refused(s, val) && val in s.missing && val != s.csn + 1
    ensures Shape(s.(missing := s.missing - {val}, sequences := s.sequences + {val}), covered + {val})
  {
    hide MaxOf, Upto;
    MaxOfAdded(covered, val);
  }

  /** The hole at csn filled: csn follows as far as it can. */
  lemma FilledNext(s: Seqs, covered: set<nat>, val: nat)
    requires Shape(s, covered) && !Refused(s, val) && val in s.missing && val == s.csn + 1
    ensures var (csn, pending) := Drain(val, s.sequences);
            && Shape(s.(missing := s.missing - {val}, csn := csn, sequences := pending), covered + {val})
            && csn + 1 !in covered + {val}
  {
    hide MaxOf, Upto, Drain, Sum;
    var a := covered + {val};
    assert MaxOf(a) == MaxOf(covered) by {
      MaxOfAdded(covered, val);
    }
    assert Upto(val) == Upto(s.csn) + {val};
    assert s.sequences == a - Upto(val);
    Drains(val, s.sequences, a);
    var (csn, pending) := Drain(val, s.sequences);
    assert pending <= s.sequences;
  }

  lemma FilledShape(s: Seqs, covered: set<nat>, val: nat)
    requires Shape(s, covered) && !Refused(s, val) && val in s.missing && s.sum + val != Target(s)
    ensures Shape(AddSeq(s, val).s, covered + {val})
    ensures s.csn + 1 !in covered ==> AddSeq(s, val).s.csn + 1 !in covered + {val}
  {
    hide Triangle, UpdateCsn, Extend, Drain, Shape, MaxOf, Upto;
    if val == s.csn + 1 {
      FilledNext(s, covered, val);
      ShapeIgnoresSum(s.(missing := s.missing - {val}, csn := Drain(val, s.sequences).0, sequences := Drain(val, s.sequences).1),
                      s.sum + val, covered + {val});
    } else {
      FilledAbove(s, covered, val);
      ShapeIgnoresSum(s.(missing := s.missing - {val}, sequences := s.sequences + {val}), s.sum + val, covered + {val});
    }
  }

  lemma ShapeIgnoresSum(s: Seqs, sum: nat, covered: set<nat>)
    requires Shape(s, covered)
    ensures Shape(s.(sum := sum), covered)
  {
  }

  /** A number beyond everything seen opens the holes before it. */
  lemma BeyondAbove(s: Seqs, covered: set<nat>, val: nat, missing: set<nat>)
    requires Shape(s, covered) && !Refused(s, val) && val > MaxOf(covered)
    requires missing == Upto(val) - (covered + {val}) && |missing| <= MAX_MISSING
    ensures Shape(s.(sequences := s.sequences + {val}, missing := missing), covered + {val})
  {
    hide MaxOf, Upto;
    MaxOfAdded(covered, val);
  }

  lemma HoleCount(s: Seqs, covered: set<nat>, val: nat)
    requires Shape(s, covered) && !Refused(s, val) && val !in s.missing
    ensures val > MaxOf(covered)
    ensures var missing := s.missing + (Interval(s.csn + 1, val) - s.sequences);
            missing == Upto(val) - (covered + {val}) && |missing| <= MAX_MISSING
  {
    hide MaxOf, Upto, Interval, Shape;
    var holes := Interval(s.csn + 1, val) - s.sequences;
    assert |holes| <= val - s.csn - 1 by {
      IntervalSize(s.csn + 1, val);
      SubsetSize(holes, Interval(s.csn + 1, val));
    }
    UnionSize(s.missing, holes);
    BeyondMax(s, covered, val);
    HolesOpened(s.csn, s.sequences, covered, MaxOf(covered), val);
  }

  lemma BeyondMax(s: Seqs, covered: set<nat>, val: nat)
    requires Shape(s, covered) && !Refused(s, val) && val !in s.missing
    ensures val > MaxOf(covered)
    ensures Upto(s.csn) <= covered && s.sequences == covered - Upto(s.csn) && s.missing == Upto(MaxOf(covered)) - covered
  {
    hide MaxOf, Upto;
  }

  lemma UnionSize<T>(a: set<T>, b: set<T>)
    ensures |a + b| <= |a| + |b|
  {
    assert a + b == a + (b - a);
    SubsetSize(b - a, b);
  }

  lemma BeyondShape(s: Seqs, covered: set<nat>, val: nat)
    requires Shape(s, covered) && !Refused(s, val) && val !in s.missing && s.sum + val != Target(s)
    ensures Shape(AddSeq(s, val).s, covered + {val})
    ensures AddSeq(s, val).s.csn == s.csn
  {
    hide AddSeq, Target, Upto, Interval, Shape, MaxOf;
    var missing := s.missing + (Interval(s.csn + 1, val) - s.sequences);
    BeyondState(s, val);
    HoleCount(s, covered, val);
    BeyondAbove(s, covered, val, missing);
    ShapeIgnoresSum(s.(sequences := s.sequences + {val}, missing := missing), s.sum + val, covered + {val});
  }

  lemma BeyondState(s: Seqs, val: nat)
    requires !Refused(s, val) && val !in s.missing && s.sum + val != Target(s)
    ensures AddSeq(s, val).s == Seqs(s.csn, s.sum + val, s.sequences + {val},
                                     s.missing + (Interval(s.csn + 1, val) - s.sequences))
  {
    hide Triangle, Interval, FillHole, UpdateCsn;
  }

  lemma HolesOpened(csn: nat, pending: set<nat>, covered: set<nat>, top: nat, val: nat)
    requires Upto(csn) <= covered && pending == covered - Upto(csn)
    requires val > csn && val > top && forall x | x in covered :: x <= top
    ensures (Upto(top) - covered) + (Interval(csn + 1, val) - pending) == Upto(val) - (covered + {val})
  {
    hide Upto, Interval;
  }

  lemma OpenShape(s: Seqs, covered: set<nat>, val: nat)
    requires Safe(s, covered) && !Refused(s, val) && s.sum + val != Target(s)
    ensures Shape(AddSeq(s, val).s, covered + {val})
    ensures Honest(s, covered) ==> AddSeq(s, val).s.csn + 1 !in covered + {val}
  {
    hide Sum, Shape, AddSeq, Target;
    if val in s.missing {
      FilledShape(s, covered, val);
    } else {
      BeyondShape(s, covered, val);
      NotCovered(s, covered, val);
      GapTest(s, covered, val);
      if val == s.csn + 1 {
        NoneBetween(s, covered, val);
      }
    }
  }

  lemma OpenStep(s: Seqs, covered: set<nat>, val: nat)
    requires Safe(s, covered) && !Refused(s, val) && s.sum + val != Target(s)
    ensures var s' := AddSeq(s, val).s;
            && Safe(s', covered + {val})
            && (Honest(s, covered) ==> s'.missing != {})
  {
    hide Sum, Shape, AddSeq, Target;
    var a := covered + {val};
    assert val !in covered by {
      NotCovered(s, covered, val);
    }
    SumAdd(covered, val);
    ResultOf(s, val);
    OpenShape(s, covered, val);
    assert |a| == |covered| + 1;
    NothingMissing(AddSeq(s, val).s, a);
    GapTest(s, covered, val);
  }

  lemma NotCovered(s: Seqs, covered: set<nat>, val: nat)
    requires Shape(s, covered) && !Refused(s, val)
    ensures val !in covered
  {
  }

  /** The next number in order, when it is not a recorded hole, completes 1..val. */
  lemma NoneBetween(s: Seqs, covered: set<nat>, val: nat)
    requires Shape(s, covered) && val == s.csn + 1 && val !in covered && val !in s.missing
    ensures covered + {val} == Upto(|covered| + 1)
  {
    hide MaxOf, Upto, Shape;
    NothingAbove(s, covered);
    UptoSize(s.csn);
    assert Upto(s.csn) + {val} == Upto(val);
  }

  lemma NothingAbove(s: Seqs, covered: set<nat>)
    requires Shape(s, covered) && s.csn + 1 !in covered && s.csn + 1 !in s.missing
    ensures covered == Upto(s.csn)
  {
    hide MaxOf, Upto;
    assert s.csn + 1 !in Upto(MaxOf(covered));
    assert forall x | x in covered :: 1 <= x <= MaxOf(covered) <= s.csn;
  }

  /** Every call: a refused number changes nothing, an accepted one is new and is
      covered from now on. While the sum is honest it stays so, and the result
      says precisely whether a gap remains. */
  lemma AddSeqStep(s: Seqs, covered: set<nat>, val: nat)
    requires Safe(s, covered)
    ensures var Added(s', r) := AddSeq(s, val);
            if r == Duplicate then s' == s
            else
              && val !in covered && 1 <= val <= MAX_CSN
              && Safe(s', covered + {val})
              && s'.sum - Sum(covered + {val}) == s.sum - Sum(covered)
              && (Closes(r) ==> s'.missing == {})
              && (Honest(s, covered) ==> (Closes(r) <==> s'.missing == {}))
              && (r == GapClosed || r == GapStillPresent <==> val in s.missing)
  {
    hide Sum, Safe, AddSeq, Target;
    ResultOf(s, val);
    if !Refused(s, val) {
      assert val !in covered by {
        SafeShape(s, covered);
        NotCovered(s, covered, val);
      }
      SumAdd(covered, val);
      if s.sum + val == Target(s) {
        ClosedStep(s, covered, val);
      } else {
        OpenStep(s, covered, val);
      }
    }
  }

  lemma SafeShape(s: Seqs, covered: set<nat>)
    requires Safe(s, covered)
    ensures Shape(s, covered)
  {
  }

  lemma ResultOf(s: Seqs, val: nat)
    ensures var Added(s', r) := AddSeq(s, val);
            if Refused(s, val) then s' == s && r == Duplicate
            else
              && r == (if s.sum + val == Target(s) then (if val in s.missing then GapClosed else InOrder)
                       else if val in s.missing then GapStillPresent else ProducesGap)
              && s'.sum == s.sum + val
  {
  }

  // ---- forwarding -------------------------------------------------------------------

  lemma MaxOfUnion(a: set<nat>, b: set<nat>)
    ensures MaxOf(a + b) == if MaxOf(a) > MaxOf(b) then MaxOf(a) else MaxOf(b)
  {
    assert a + b != {} ==> MaxOf(a + b) in a + b;
    assert (a != {} ==> MaxOf(a) in a + b) && (b != {} ==> MaxOf(b) in a + b);
  }

  lemma MaxOfUpto(n: nat)
    ensures MaxOf(Upto(n)) == n
  {
    hide MaxOf, Upto;
    if n > 0 {
      assert n in Upto(n);
      assert MaxOf(Upto(n)) in Upto(n);
    }
  }

  /** The numbers still missing after a forward are the old ones above csn. */
  lemma ForwardMissing(s: Seqs, covered: set<nat>, val: nat, csn: nat)
    requires Shape(s, covered) && val >= 1 && csn >= val
    requires Upto(csn) <= covered + Upto(val)
    ensures Above(s.missing, csn) == Upto(MaxOf(covered + Upto(val))) - (covered + Upto(val))
  {
    hide MaxOf, Upto;
    MaxOfUnion(covered, Upto(val));
    MaxOfUpto(val);
  }

  lemma ForwardShape(s: Seqs, covered: set<nat>, val: nat)
    requires Shape(s, covered) && Forwards(s, val)
    ensures var s' := AddSequencesUntil(s, val);
            Shape(s', covered + Upto(val)) && s'.csn + 1 !in covered + Upto(val) && s'.csn >= val
  {
    hide Sum, Triangle, MaxOf, Upto, Drain;
    var a := covered + Upto(val);
    var pending := Above(s.sequences, val);
    assert pending == a - Upto(val);
    Drains(val, pending, a);
    var (csn, left) := Drain(val, pending);
    ForwardMissing(s, covered, val, csn);
    SubsetSize(Above(s.missing, csn), s.missing);
    assert left <= s.sequences;
  }

  /** A forward covers everything up to `val`; afterwards the sum exceeds the
      covered numbers by exactly the numbers still missing. */
  lemma ForwardStep(s: Seqs, covered: set<nat>, val: nat)
    requires Safe(s, covered) && Forwards(s, val)
    ensures var s' := AddSequencesUntil(s, val);
            && Safe(s', covered + Upto(val))
            && s'.sum == Sum(covered + Upto(val)) + Sum(s'.missing)
            && s'.csn >= val && s'.csn + 1 !in covered + Upto(val)
            && (Honest(s', covered + Upto(val)) <==> s'.missing == {})
  {
    hide Sum, Triangle, MaxOf, Upto, Drain, Shape;
    var a := covered + Upto(val);
    var s' := AddSequencesUntil(s, val);
    ForwardShape(s, covered, val);
    ForwardSum(s, covered, val);
    MissingFacts(s', a);
    SumBound(s'.missing, MAX_CSN);
    assert |s'.missing| * MAX_CSN <= MAX_EXCESS;
    SumZero(s'.missing);
  }

  lemma ForwardSum(s: Seqs, covered: set<nat>, val: nat)
    requires Shape(s, covered) && Forwards(s, val)
    ensures Triangle(val) + Sum(Above(s.sequences, val)) == Sum(covered + Upto(val))
  {
    hide Sum, Triangle, MaxOf, Upto;
    var pending := Above(s.sequences, val);
    assert covered + Upto(val) == Upto(val) + pending;
    SumUpto(val);
    SumDisjoint(Upto(val), pending);
  }

  lemma MissingFacts(s: Seqs, covered: set<nat>)
    requires Shape(s, covered)
    ensures |s.missing| <= MAX_MISSING && 0 !in s.missing && forall x | x in s.missing :: x <= MAX_CSN
  {
    hide MaxOf, Upto;
  }

  lemma SumZero(s: set<nat>)
    requires 0 !in s
    ensures Sum(s) == 0 <==> s == {}
  {
    if s != {} {
      SumRemove(s, MaxOf(s));
    }
  }

  // ---- runs -----------------------------------------------------------------------------

  datatype Op = Add(n: nat) | Forward(n: nat)

  /** The bookkeeping beside the plain set it summarises. */
  datatype Track = Track(s: Seqs, covered: set<nat>)

  const START := Track(EMPTY, {})

  function Apply(t: Track, op: Op): Track {
    match op
    case Add(n) =>
      var Added(s, r) := AddSeq(t.s, n);
      Track(s, if r == Duplicate then t.covered else t.covered + {n})
    case Forward(n) =>
      Track(AddSequencesUntil(t.s, n), if Forwards(t.s, n) then t.covered + Upto(n) else t.covered)
  }

  function RunOps(t: Track, ops: seq<Op>): Track
    decreases |ops|
  {
    if ops == [] then t else RunOps(Apply(t, ops[0]), ops[1..])
  }

  /** One step, whatever it is: safe, and whether the sum is honest afterwards is
      decided by the last forward — honest exactly if it left nothing missing. */
  lemma ApplyStep(t: Track, op: Op)
    requires Safe(t.s, t.covered)
    ensures var u := Apply(t, op);
            && Safe(u.s, u.covered)
            && (Honest(u.s, u.covered) <==>
                  if op.Forward? && Forwards(t.s, op.n) then u.s.missing == {} else Honest(t.s, t.covered))
  {
    hide Safe, AddSeq, AddSequencesUntil, Sum;
    match op {
      case Add(n) => AddSeqStep(t.s, t.covered, n);
      case Forward(n) =>
        if Forwards(t.s, n) {
          ForwardStep(t.s, t.covered, n);
        } else {
          assert AddSequencesUntil(t.s, n) == t.s by {
            NoForward(t.s, n);
          }
        }
    }
  }

  lemma NoForward(s: Seqs, n: nat)
    requires !Forwards(s, n)
    ensures AddSequencesUntil(s, n) == s
  {
  }

  /** Over every run mixing receipts and forwards: csn never covers a number
      that was neither received nor forwarded over, the missing numbers are the
      holes below the greatest one, and both sets stay within 8192. */
  lemma {:induction false} EveryRunSafe(t: Track, ops: seq<Op>)
    requires Safe(t.s, t.covered)
    ensures var u := RunOps(t, ops);
            && Safe(u.s, u.covered)
            && Upto(u.s.csn) <= u.covered
            && u.s.missing == Upto(MaxOf(u.covered)) - u.covered
            && |u.s.missing| <= MAX_MISSING && |u.s.sequences| <= MAX_MISSING
    decreases |ops|
  {
    hide Apply, Sum, MaxOf, Upto;
    if ops != [] {
      ApplyStep(t, ops[0]);
      EveryRunSafe(Apply(t, ops[0]), ops[1..]);
    } else {
      PendingSize(t.s, t.covered);
    }
  }

  lemma PendingSize(s: Seqs, covered: set<nat>)
    requires Shape(s, covered)
    ensures |s.sequences| <= MAX_MISSING
  {
    hide MaxOf, Upto, Interval;
    var window := Interval(s.csn + 1, s.csn + MAX_MISSING + 1);
    IntervalSize(s.csn + 1, s.csn + MAX_MISSING + 1);
    SubsetSize(s.sequences, window);
  }

  predicate AddsOnly(ops: seq<Op>) {
    forall op | op in ops :: op.Add?
  }

  /** Over every run of receipts alone the bookkeeping is exact. */
  lemma {:induction false} AddRunExact(t: Track, ops: seq<Op>)
    requires Exact(t.s, t.covered) && AddsOnly(ops)
    ensures var u := RunOps(t, ops); Exact(u.s, u.covered)
    decreases |ops|
  {
    hide Safe, Apply, Honest;
    if ops == [] {
    } else {
      assert ops[0].Add?;
      ApplyStep(t, ops[0]);
      AddRunExact(Apply(t, ops[0]), ops[1..]);
    }
  }

  /** Everything received above `val` is received without a hole. */
  predicate NoHolesAbove(covered: set<nat>, val: nat) {
    forall x | val < x <= MaxOf(covered) :: x in covered
  }

  lemma ForwardLeavesNone(s: Seqs, covered: set<nat>, val: nat)
    requires Safe(s, covered) && Forwards(s, val)
    ensures AddSequencesUntil(s, val).missing == {} <==> NoHolesAbove(covered, val)
  {
    hide Sum, AddSequencesUntil, MaxOf, Upto;
    ForwardShape(s, covered, val);
    MaxOfUnion(covered, Upto(val));
    MaxOfUpto(val);
    var a := covered + Upto(val);
    var missing := AddSequencesUntil(s, val).missing;
    assert missing == Upto(MaxOf(a)) - a;
    if NoHolesAbove(covered, val) {
      assert forall x | x in Upto(MaxOf(a)) :: x in a;
    } else {
      var x :| val < x <= MaxOf(covered) && x !in covered;
      assert x in Upto(MaxOf(a)) && x !in a;
    }
  }

  /** Whether the last forward that moved csn was over no hole it left behind; `clean`
      if there was none. */
  predicate LastForwardClean(t: Track, ops: seq<Op>, clean: bool)
    decreases |ops|
  {
    if ops == [] then clean
    else
      LastForwardClean(Apply(t, ops[0]), ops[1..],
                       if ops[0].Forward? && Forwards(t.s, ops[0].n) then NoHolesAbove(t.covered, ops[0].n) else clean)
  }

  /** Over every run mixing receipts and forwards the bookkeeping is exact if and only
      if the last effective forward found everything above its value received without
      a hole — a condition on what had been received before it. */
  lemma {:induction false} ExactAfterForwards(t: Track, ops: seq<Op>)
    requires Safe(t.s, t.covered)
    ensures var u := RunOps(t, ops);
            Exact(u.s, u.covered) <==> LastForwardClean(t, ops, Exact(t.s, t.covered))
    decreases |ops|
  {
    hide Safe, Apply, Honest, AddSequencesUntil, MaxOf, NoHolesAbove;
    if ops == [] {
    } else {
      var op := ops[0];
      ApplyStep(t, op);
      if op.Forward? && Forwards(t.s, op.n) {
        ForwardLeavesNone(t.s, t.covered, op.n);
        ForwardedState(t, op.n);
      }
      ExactAfterForwards(Apply(t, op), ops[1..]);
    }
  }

  lemma ForwardedState(t: Track, n: nat)
    ensures Apply(t, Forward(n)).s == AddSequencesUntil(t.s, n)
  {
  }

  lemma StartExact()
    ensures Exact(START.s, START.covered)
  {
  }

  /** The gap test is exact: after any run of receipts, csn is the largest n with
      1..n received, the pending numbers are those received above it, the missing
      ones the complement below the greatest — and the next accepted number is
      reported in order or gap-closing exactly when no gap remains after it. */
  lemma TriangularSumTestIsExact(ops: seq<Op>, val: nat)
    requires AddsOnly(ops)
    ensures var u := RunOps(START, ops);
            var Added(s', r) := AddSeq(u.s, val);
            && (forall n: nat :: Upto(n) <= u.covered <==> n <= u.s.csn)
            && u.s.sequences == u.covered - Upto(u.s.csn)
            && u.s.missing == Upto(MaxOf(u.covered)) - u.covered
            && (Closes(r) <==> r != Duplicate && s'.missing == {})
  {
    StartExact();
    AddRunExact(START, ops);
    var u := RunOps(START, ops);
    forall n: nat
      ensures Upto(n) <= u.covered <==> n <= u.s.csn
    {
      CsnIsLargest(u.s, u.covered, n);
    }
    AddSeqStep(u.s, u.covered, val);
    ResultOf(u.s, val);
  }

  // ---- 64-bit arithmetic -------------------------------------------------------------------

  lemma CoveredSize(covered: set<nat>)
    requires Positive(covered) && forall x | x in covered :: x <= MAX_CSN
    ensures |covered| <= MAX_CSN && Sum(covered) <= Triangle(MAX_CSN)
  {
    hide Sum, Triangle, Upto;
    assert covered <= Upto(MAX_CSN);
    UptoSize(MAX_CSN);
    SubsetSize(covered, Upto(MAX_CSN));
    SumMonotone(covered, Upto(MAX_CSN));
    SumUpto(MAX_CSN);
  }

  /** No sum and no triangular product leaves 64 bits, in any reachable state and
      for any number that is then accepted. */
  lemma NoOverflow(s: Seqs, covered: set<nat>, val: nat)
    requires Safe(s, covered)
    ensures s.sum < U64
    ensures !Refused(s, val) ==>
              var n := s.csn + |s.sequences| + 1; s.sum + val < U64 && n * (n + 1) < U64
    ensures Forwards(s, val) ==> val * (val + 1) < U64
  {
    hide Sum, Upto, MaxOf;
    CoveredSize(covered);
    assert Triangle(MAX_CSN) == 0xFFFF_FFFF * 0x1_0000_0000 / 2;
    if !Refused(s, val) {
      NotCovered(s, covered, val);
      CountCovered(s, covered);
      CoveredSize(covered + {val});
      SumAdd(covered, val);
      assert |covered + {val}| == |covered| + 1;
      Product(|covered| + 1);
    }
    if Forwards(s, val) {
      Product(val);
    }
  }

  lemma Product(n: nat)
    requires n <= MAX_CSN
    ensures n * (n + 1) < U64
  {
    Scale(n, MAX_CSN, n + 1);
    Scale(n + 1, MAX_CSN + 1, MAX_CSN);
  }

  lemma Scale(a: nat, b: nat, c: nat)
    requires a <= b
    ensures a * c <= b * c
  {
  }

  // ---- after a forward that leaves numbers missing ---------------------------------------

  /** Once the sum is inflated no receipt is ever reported as closing the gap. */
  lemma InflatedNeverCloses(s: Seqs, covered: set<nat>, val: nat)
    requires Safe(s, covered) && !Honest(s, covered)
    ensures !Closes(AddSeq(s, val).result)
  {
    hide Sum, Shape, Target;
    ResultOf(s, val);
    if !Refused(s, val) {
      NotCovered(s, covered, val);
      GapTest(s, covered, val);
    }
  }

  /** ... and the next number in order, with no gap before it, does not move csn. */
  lemma InflatedStalls(s: Seqs, covered: set<nat>)
    requires Safe(s, covered) && !Honest(s, covered) && s.missing == {} && !Refused(s, s.csn + 1)
    ensures var Added(s', r) := AddSeq(s, s.csn + 1);
            r == ProducesGap && s'.csn == s.csn && s'.csn + 1 in s'.sequences
  {
    hide Sum, MaxOf, Triangle, Safe, Honest, FillHole;
    InflatedNeverCloses(s, covered, s.csn + 1);
    ResultOf(s, s.csn + 1);
  }

  /** Receipts alone never free it: csn stays where it is. */
  lemma {:induction false} StalledForGood(t: Track, ops: seq<Op>)
    requires Safe(t.s, t.covered) && !Honest(t.s, t.covered) && t.s.csn + 1 in t.s.sequences && AddsOnly(ops)
    ensures RunOps(t, ops).s.csn == t.s.csn
    decreases |ops|
  {
    hide Sum, Safe, Honest, AddSeq, AddSequencesUntil;
    if ops == [] {
    } else {
      assert ops[0].Add?;
      var n := ops[0].n;
      ApplyStep(t, ops[0]);
      InflatedNeverCloses(t.s, t.covered, n);
      assert Apply(t, ops[0]).s.csn == t.s.csn && t.s.csn + 1 in Apply(t, ops[0]).s.sequences by {
        SafeShape(t.s, t.covered);
        StalledStep(t.s, t.covered, n);
      }
      StalledForGood(Apply(t, ops[0]), ops[1..]);
    }
  }

  lemma StalledStep(s: Seqs, covered: set<nat>, val: nat)
    requires Shape(s, covered) && s.csn + 1 in s.sequences && !Closes(AddSeq(s, val).result)
    ensures var s' := AddSeq(s, val).s; s'.csn == s.csn && s'.csn + 1 in s'.sequences
  {
    hide Triangle, UpdateCsn, MaxOf, Upto, Interval, Drain, Shape, Target;
    PendingNotMissing(s, covered, s.csn + 1);
    ResultOf(s, val);
  }

  lemma PendingNotMissing(s: Seqs, covered: set<nat>, x: nat)
    requires Shape(s, covered) && x in s.sequences
    ensures x !in s.missing
  {
    hide MaxOf, Upto;
  }

  /** A run that reaches the stall: 3 arrives, the peer forwards over 1, then 2
      and 4 arrive. All of 1..4 is covered, and csn is 3. */
  lemma StallExample()
    ensures var t := RunOps(START, [Add(3), Forward(1), Add(2), Add(4)]);
            t.s.csn == 3 && Upto(4) <= t.covered && !Honest(t.s, t.covered)
  {
    hide Apply, Sum, Upto;
    StallStart();
    StallForward();
    StallFill();
    StallNext();
    assert [Add(3), Forward(1), Add(2), Add(4)][1..] == [Forward(1), Add(2), Add(4)];
    assert [Forward(1), Add(2), Add(4)][1..] == [Add(2), Add(4)];
    assert [Add(2), Add(4)][1..] == [Add(4)];
    assert Upto(4) == {1, 2, 3, 4};
    SumUpto(4);
    assert Triangle(4) == 10;
  }

  lemma StallStart()
    ensures Apply(START, Add(3)) == Track(Seqs(0, 3, {3}, {1, 2}), {3})
  {
    hide MaxOf, AddSeq, Interval, Triangle;
    assert Interval(1, 3) == {1, 2};
    assert Target(EMPTY) == 1 by { FirstTriangle(); }
    BeyondState(EMPTY, 3);
    ResultOf(EMPTY, 3);
  }

  lemma FirstTriangle()
    ensures Triangle(1) == 1
  {
  }

  lemma StallForward()
    ensures Apply(Track(Seqs(0, 3, {3}, {1, 2}), {3}), Forward(1)) == Track(Seqs(1, 6, {3}, {2}), {1, 3})
  {
    hide MaxOf, Sum, Drain;
    assert Above({3}, 1) == {3} && Above({1, 2}, 1) == {2} && Triangle(1) == 1;
    SingletonSum(3);
    SingletonSum(2);
    assert Drain(1, {3}) == (1, {3}) by {
      DrainStops(1, {3});
    }
    assert Upto(1) == {1};
  }

  lemma SingletonSum(n: nat)
    ensures Sum({n}) == n
  {
    SumRemove({n}, n);
    assert {n} - {n} == {};
  }

  lemma DrainStops(csn: nat, pending: set<nat>)
    requires csn + 1 !in pending
    ensures Drain(csn, pending) == (csn, pending)
  {
  }

  lemma StallFill()
    ensures Apply(Track(Seqs(1, 6, {3}, {2}), {1, 3}), Add(2)) == Track(Seqs(3, 8, {}, {}), {1, 2, 3})
  {
    hide MaxOf, Drain;
    assert {3} - {3} == {} && {2} - {2} == {};
    assert Triangle(3) == 6;
    assert Drain(2, {3}) == (3, {}) by {
      DrainTakes(2, {3});
      DrainStops(3, {});
    }
  }

  lemma DrainTakes(csn: nat, pending: set<nat>)
    requires csn + 1 in pending
    ensures Drain(csn, pending) == Drain(csn + 1, pending - {csn + 1})
  {
  }

  lemma StallNext()
    ensures var t := Apply(Track(Seqs(3, 8, {}, {}), {1, 2, 3}), Add(4));
            t.s.csn == 3 && t.s.sum == 12 && t.covered == {1, 2, 3, 4}
  {
    hide MaxOf;
    assert Triangle(4) == 10;
  }

  // ---- the object ------------------------------------------------------------------------------

  class SequenceManager {
    var csn: nat
    var sum: nat
    var sequences: set<nat>
    var missing: set<nat>
    ghost var covered: set<nat>

    ghost predicate Valid()
      reads this
    {
      Safe(State(), covered)
    }

    function State(): Seqs
      reads this
    {
      Seqs(csn, sum, sequences, missing)
    }

    constructor ()
      ensures Valid() && Track(State(), covered) == START
    {
      csn, sum, sequences, missing, covered := 0, 0, {}, {}, {};
    }

    /** `add_seq` */
    method Insert(val: nat) returns (result: Result)
      requires Valid()
      modifies this
      ensures Valid() && Track(State(), covered) == Apply(old(Track(State(), covered)), Add(val))
      ensures result == AddSeq(old(State()), val).result
    {
      hide FillHole, Extend, Safe;
      AddSeqStep(State(), covered, val);
      ResultOf(State(), val);
      SafePending(State(), covered);
      if val <= csn || val - csn > MAX_GAP || val > MAX_CSN || val in sequences {
        return Duplicate;
      }
      if |missing| + (val - csn) > MAX_MISSING {
        return Duplicate;
      }
      covered := covered + {val};
      if val in missing {
        result := Fill(val);
      } else {
        result := Append(val);
      }
    }

    method Fill(val: nat) returns (result: Result)
      requires val !in sequences && forall x | x in sequences :: x > csn
      modifies this`csn, this`sum, this`sequences, this`missing
      ensures Added(State(), result) == FillHole(old(State()), val)
    {
      hide Triangle, MaxOf, Drain;
      missing := missing - {val};
      sum := sum + val;
      if sum == SumNElements() {
        Close(val);
        return GapClosed;
      }
      if val == csn + 1 {
        csn := csn + 1;
        DrainPending();
      } else {
        sequences := sequences + {val};
      }
      return GapStillPresent;
    }

    method Append(val: nat) returns (result: Result)
      requires val > csn
      modifies this`csn, this`sum, this`sequences, this`missing
      ensures Added(State(), result) == Extend(old(State()), val)
    {
      hide Triangle, MaxOf, Interval;
      sum := sum + val;
      if sum == SumNElements() {
        Close(val);
        return InOrder;
      }
      OpenHoles(val);
      sequences := sequences + {val};
      return ProducesGap;
    }

    function SumNElements(): nat
      reads this
    {
      Target(State())
    }

    /** `update_csn` */
    method Close(val: nat)
      modifies this`csn, this`sequences
      ensures State() == UpdateCsn(old(State()), val)
    {
      if sequences != {} {
        csn := MaxOf(sequences);
        sequences := {};
      } else {
        csn := val;
      }
    }

    method DrainPending()
      requires forall x | x in sequences :: x > csn
      modifies this`csn, this`sequences
      ensures (csn, sequences) == old(Drain(csn, sequences))
    {
      while sequences != {} && MinOf(sequences) == csn + 1
        invariant Drain(csn, sequences) == old(Drain(csn, sequences))
        invariant forall x | x in sequences :: x > csn
        decreases |sequences|
      {
        csn, sequences := csn + 1, sequences - {csn + 1};
      }
    }

    method OpenHoles(val: nat)
      requires val > csn
      modifies this`missing
      ensures missing == old(missing) + (Interval(csn + 1, val) - sequences)
    {
      for i := csn + 1 to val
        invariant missing == old(missing) + (Interval(csn + 1, i) - sequences)
      {
        if i !in sequences {
          missing := missing + {i};
        }
      }
    }

    /** `add_sequences_until` */
    method InsertUntil(val: nat)
      requires Valid()
      modifies this
      ensures Valid() && Track(State(), covered) == Apply(old(Track(State(), covered)), Forward(val))
    {
      hide Triangle, MaxOf, Safe, Drain, Sum, Upto;
      ApplyStep(Track(State(), covered), Forward(val));
      if val > csn {
        if val - csn > MAX_GAP || val > MAX_CSN {
          return;
        }
        covered := covered + Upto(val);
        csn := val;
        sum := Triangle(csn);
        DropBelow();
        SumPending();
        DropMissing();
        SumMissing();
      }
    }

    method DropBelow()
      modifies this`sequences
      ensures sequences == Above(old(sequences), csn)
    {
      while sequences != {} && MinOf(sequences) <= csn
        invariant sequences <= old(sequences)
        invariant Above(sequences, csn) == Above(old(sequences), csn)
        decreases |sequences|
      {
        sequences := sequences - {MinOf(sequences)};
      }
      assert Above(sequences, csn) == sequences;
    }

    /** Adds every pending number to the sum, letting csn run through those that
        follow it directly. */
    method SumPending()
      requires forall x | x in sequences :: x > csn
      modifies this`csn, this`sequences, this`sum
      ensures (csn, sequences) == old(Drain(csn, sequences))
      ensures sum == old(sum) + Sum(old(sequences))
    {
      hide Sum;
      var todo := sequences;
      while todo != {}
        invariant todo <= sequences && (todo == sequences || csn + 1 !in sequences)
        invariant forall x | x in sequences :: x > csn
        invariant Drain(csn, sequences) == old(Drain(csn, sequences))
        invariant sum + Sum(todo) == old(sum) + Sum(old(sequences))
        decreases |todo|
      {
        var i := MinOf(todo);
        SumRemove(todo, i);
        sum := sum + i;
        todo := todo - {i};
        if i == csn + 1 {
          csn := csn + 1;
          sequences := sequences - {i};
        }
      }
      assert Sum({}) == 0 by {
        SumZero({});
      }
    }

    method DropMissing()
      modifies this`missing
      ensures missing == Above(old(missing), csn)
    {
      while missing != {} && MinOf(missing) <= csn
        invariant missing <= old(missing)
        invariant Above(missing, csn) == Above(old(missing), csn)
        decreases |missing|
      {
        missing := missing - {MinOf(missing)};
      }
      assert Above(missing, csn) == missing;
    }

    method SumMissing()
      modifies this`sum
      ensures sum == old(sum) + Sum(missing)
    {
      hide Sum;
      var todo := missing;
      while todo != {}
        invariant sum + Sum(todo) == old(sum) + Sum(missing)
        decreases |todo|
      {
        var i := MinOf(todo);
        SumRemove(todo, i);
        sum := sum + i;
        todo := todo - {i};
      }
      assert Sum({}) == 0 by {
        SumZero({});
      }
    }
  }

  /** Pending numbers lie above csn. */
  lemma SafePending(s: Seqs, covered: set<nat>)
    requires Safe(s, covered)
    ensures forall x | x in s.sequences :: x > s.csn
  {
    hide Sum, MaxOf, Upto;
  }
}
