/** One RTMFP flow (`rtmfp/flow.cpp`): a sender cuts messages into fragments, a
    receiver accepts them in any order, with losses and duplicates, and hands out
    complete messages in order.

    The theorems are about reliable data flows: no fragment is abandoned and the
    forward sequence number never passes a fragment the receiver lacks. */
module Flow {
  import opened Bytes
  import opened IntegerSets
  import opened SeqManager
  import opened FragmentStore
  import RangeAck

  const MAX_BUFFERED_FRAGMENTS := 8192
  const MAX_BUFFERED_BYTES := 16 * 1024 * 1024
  const MAX_SESSION_BYTES := 32 * 1024 * 1024
  const FRAGMENT_SIZE := 1160

  // ---- sending ------------------------------------------------------------------

  /** `add_and_fragment_data`, from sequence number `sn`: one whole fragment, or
      a begin, middles and an end. */
  function Pieces(data: seq<byte>, sn: nat, first: bool): (f: seq<Fragment>)
    ensures |f| >= 1
    decreases |data|
  {
    if |data| <= FRAGMENT_SIZE then
      [Fragment(sn, data, if first then Whole else End, false)]
    else
      [Fragment(sn, data[..FRAGMENT_SIZE], if first then Begin else Middle, false)]
      + Pieces(data[FRAGMENT_SIZE..], sn + 1, false)
  }

  /** Every fragment of a list of messages, numbered from `sn`. */
  function Sent(msgs: seq<seq<byte>>, sn: nat): seq<Fragment>
    decreases |msgs|
  {
    if msgs == [] then []
    else
      var f := Pieces(msgs[0], sn, true);
      f + Sent(msgs[1..], sn + |f|)
  }

  function Joined(f: seq<Fragment>): seq<byte> {
    if f == [] then [] else f[0].data + Joined(f[1..])
  }

  /** A message's fragments carry it, cut nowhere else than at the marks. */
  lemma PiecesCarry(data: seq<byte>, sn: nat, first: bool)
    ensures var f := Pieces(data, sn, first);
            Joined(f) == data && Numbered(f, sn) && Marked(f, first)
  {
    PiecesJoin(data, sn, first);
    PiecesMarks(data, sn, first);
  }

  predicate Numbered(f: seq<Fragment>, sn: nat) {
    forall i | 0 <= i < |f| :: f[i].sn == sn + i
  }

  lemma NumberedBehind(f: seq<Fragment>, g: seq<Fragment>, sn: nat)
    requires Numbered(f, sn) && Numbered(g, sn + |f|)
    ensures Numbered(f + g, sn)
  {
  }

  predicate Marked(f: seq<Fragment>, first: bool) {
    && |f| >= 1
    && (forall i | 0 < i < |f| - 1 :: f[i].control == Middle)
    && (|f| == 1 ==> f[0].control == if first then Whole else End)
    && (|f| > 1 ==> f[0].control == (if first then Begin else Middle) && f[|f| - 1].control == End)
  }

  lemma {:induction false} PiecesJoin(data: seq<byte>, sn: nat, first: bool)
    ensures var f := Pieces(data, sn, first); Joined(f) == data && Numbered(f, sn)
    decreases |data|
  {
    var f := Pieces(data, sn, first);
    if |data| > FRAGMENT_SIZE {
      PiecesJoin(data[FRAGMENT_SIZE..], sn + 1, false);
      assert f[1..] == Pieces(data[FRAGMENT_SIZE..], sn + 1, false);
      assert data[..FRAGMENT_SIZE] + data[FRAGMENT_SIZE..] == data;
    } else {
      assert f[1..] == [];
    }
  }

  lemma {:induction false} PiecesMarks(data: seq<byte>, sn: nat, first: bool)
    ensures Marked(Pieces(data, sn, first), first)
    decreases |data|
  {
    var f := Pieces(data, sn, first);
    if |data| <= FRAGMENT_SIZE {
    } else {
      PiecesMarks(data[FRAGMENT_SIZE..], sn + 1, false);
      var g := Pieces(data[FRAGMENT_SIZE..], sn + 1, false);
      assert f == [f[0]] + g;
      assert forall i | 0 < i < |f| :: f[i] == g[i - 1];
    }
  }

  lemma {:induction false} SentNumbers(msgs: seq<seq<byte>>, sn: nat)
    ensures Numbered(Sent(msgs, sn), sn)
    decreases |msgs|
  {
    hide Pieces, Numbered;
    if msgs != [] {
      var p := Pieces(msgs[0], sn, true);
      PiecesCarry(msgs[0], sn, true);
      SentNumbers(msgs[1..], sn + |p|);
      NumberedBehind(p, Sent(msgs[1..], sn + |p|), sn);
    } else {
      NumberedNone(sn);
    }
  }

  lemma NumberedNone(sn: nat)
    ensures Numbered([], sn)
  {
  }

  /** `add_fragment` on a sending flow: past the backlog caps the new fragment is
      refused and what is queued stays. */
  function Queue(q: Receiver, f: Fragment, sharedBytes: nat): (Receiver, Result) {
    if OverCap(q.fragments, sharedBytes, f) then (q, Duplicate)
    else
      var Added(s, result) := AddSeq(q.s, f.sn);
      (q.(s := s, fragments := if result == Duplicate then q.fragments else q.fragments[f.sn := f]), result)
  }

  function QueueAll(q: Receiver, f: seq<Fragment>): Receiver
    decreases |f|
  {
    if f == [] then q else QueueAll(Queue(q, f[0], 0).0, f[1..])
  }

  // ---- receiving -----------------------------------------------------------------

  datatype Receiver = Receiver(s: Seqs, fragments: Fragments, rejected: bool)

  const OPEN := Receiver(EMPTY, map[], false)

  predicate OverCap(fragments: Fragments, sharedBytes: nat, f: Fragment) {
    || |fragments| >= MAX_BUFFERED_FRAGMENTS
    || Held(fragments) + |f.data| > MAX_BUFFERED_BYTES
    || sharedBytes + |f.data| > MAX_SESSION_BYTES
  }

  /** `add_fragment` on a receiving flow: over a cap the flow is rejected and
      what it buffered is freed; otherwise the sequence manager decides. */
  function AddFragment(r: Receiver, f: Fragment, sharedBytes: nat): (Receiver, Result) {
    if OverCap(r.fragments, sharedBytes, f) then
      (r.(fragments := map[], rejected := true), Duplicate)
    else
      var Added(s, result) := AddSeq(r.s, f.sn);
      (r.(s := s, fragments := if result == Duplicate then r.fragments else r.fragments[f.sn := f]), result)
  }

  datatype Scan = Incomplete | Complete(last: nat) | Broken(next: nat)

  /** From a begin fragment at `k`, look along the buffered fragments up to csn. */
  function FindEnd(m: Fragments, csn: nat, k: nat): Scan
    decreases |Above(m.Keys, k)|
  {
    var later := Above(m.Keys, k);
    if later == {} then Incomplete
    else
      var j := MinOf(later);
      if j > csn then Incomplete
      else if m[j].control == End then Complete(j)
      else if m[j].control == Middle then
        LaterShrinks(m.Keys, k, j);
        FindEnd(m, csn, j)
      else Broken(j)
  }

  lemma LaterShrinks(s: set<nat>, k: nat, j: nat)
    requires j in Above(s, k)
    ensures |Above(s, j)| < |Above(s, k)|
  {
    assert Above(s, j) <= Above(s, k) - {j};
    SubsetSize(Above(s, j), Above(s, k) - {j});
  }

  function Span(m: Fragments, from: nat, to: nat): set<nat> {
    set k | k in m && from <= k < to
  }

  /** The data of the buffered fragments from `k` to `last`, in order. */
  function Assemble(m: Fragments, k: nat, last: nat): seq<byte>
    decreases last + 1 - k
  {
    if k > last then []
    else (if k in m then m[k].data else []) + Assemble(m, k + 1, last)
  }

  datatype Option<T> = None | Some(value: T)

  datatype Ready = Ready(r: Receiver, message: Option<seq<byte>>, fragmented: bool)

  /** `message_data`: the next complete message at the front of the buffer, if
      csn has passed it. A whole fragment stays until it is removed; a fragmented
      message leaves the buffer as it is assembled. */
  function MessageData(r: Receiver): Ready
    decreases |r.fragments|
  {
    var m := r.fragments;
    if m == map[] || MinOf(m.Keys) > r.s.csn then Ready(r, None, false)
    else
      var k := MinOf(m.Keys);
      match m[k].control
      case Whole => Ready(r, Some(m[k].data), false)
      case End => Shorter(m, k); MessageData(r.(fragments := m - {k}))
      case Middle => Shorter(m, k); MessageData(r.(fragments := m - {k}))
      case Begin =>
        match FindEnd(m, r.s.csn, k)
        case Incomplete => Ready(r, None, false)
        case Complete(last) => Ready(r.(fragments := m - Span(m, k, last + 1)), Some(Assemble(m, k, last)), true)
        case Broken(next) => Ready(r.(fragments := m - Span(m, k, next)), None, false)
  }

  /** `remove_last_message` */
  function RemoveLastMessage(x: Ready): Receiver {
    if x.fragmented || x.r.fragments == map[] then x.r
    else x.r.(fragments := x.r.fragments - {MinOf(x.r.fragments.Keys)})
  }

  /** One turn of the session's delivery loop. */
  function Take(r: Receiver): (Receiver, Option<seq<byte>>) {
    var x := MessageData(r);
    if x.message.None? then (x.r, None) else (RemoveLastMessage(x), x.message)
  }

  // ---- ordered reliable delivery ----------------------------------------------------

  /** A receiver at work: what it has covered, what it has handed out, and how
      many fragments that used up. */
  datatype Delivery = Delivery(r: Receiver, covered: set<nat>, delivered: seq<seq<byte>>, used: nat)

  const IDLE := Delivery(OPEN, {}, [], 0)

  predicate Buffered(all: seq<Fragment>, d: Delivery) {
    if d.r.rejected then d.r.fragments == map[]
    else
      && d.r.fragments.Keys == d.covered - Upto(d.used)
      && forall k | k in d.r.fragments :: 1 <= k <= |all| && d.r.fragments[k] == all[k - 1]
  }

  predicate Prefix(msgs: seq<seq<byte>>, d: Delivery) {
    && |d.delivered| <= |msgs| && d.delivered == msgs[..|d.delivered|]
    && d.used <= |Sent(msgs, 1)|
    && Sent(msgs, 1)[d.used..] == Sent(msgs[|d.delivered|..], d.used + 1)
  }

  predicate OnTrack(msgs: seq<seq<byte>>, d: Delivery) {
    && Exact(d.r.s, d.covered)
    && d.covered <= Upto(|Sent(msgs, 1)|)
    && d.used <= d.r.s.csn
    && Prefix(msgs, d)
    && Buffered(Sent(msgs, 1), d)
  }

  datatype Step = Arrive(i: nat, sharedBytes: nat) | Drain

  /** The network delivers some fragment (a lost one simply never arrives, a
      duplicate arrives twice), or the session asks for the next message. */
  function Apply(all: seq<Fragment>, d: Delivery, step: Step): Delivery {
    match step
    case Arrive(i, sharedBytes) =>
      if d.r.rejected || i >= |all| then d
      else
        var (r, result) := AddFragment(d.r, all[i], sharedBytes);
        d.(r := r, covered := if result == Duplicate then d.covered else d.covered + {all[i].sn})
    case Drain =>
      var (r, m) := Take(d.r);
      if m.None? then d.(r := r)
      else d.(r := r, delivered := d.delivered + [m.value], used := d.used + |Pieces(m.value, d.used + 1, true)|)
  }

  lemma ArriveStep(msgs: seq<seq<byte>>, d: Delivery, i: nat, sharedBytes: nat)
    requires OnTrack(msgs, d)
    ensures OnTrack(msgs, Apply(Sent(msgs, 1), d, Arrive(i, sharedBytes)))
  {
    hide Safe, Honest, Sent, Upto, AddSeq, Prefix, OverCap;
    var all := Sent(msgs, 1);
    var d' := Apply(all, d, Arrive(i, sharedBytes));
    PrefixSame(msgs, d, d');
    if !d.r.rejected && i < |all| && !OverCap(d.r.fragments, sharedBytes, all[i]) {
      SentNumbers(msgs, 1);
      AddSeqStep(d.r.s, d.covered, i + 1);
      if AddSeq(d.r.s, i + 1).result != Duplicate {
        HonestStep(d.r.s, d.covered, i + 1);
        CsnGrows(d.r.s, d.covered, i + 1);
        NotUsed(d, i + 1);
        BufferedMore(all, d, i, AddSeq(d.r.s, i + 1).s);
      }
    }
  }

  lemma BufferedMore(all: seq<Fragment>, d: Delivery, i: nat, s: Seqs)
    requires Buffered(all, d) && !d.r.rejected && i < |all| && i + 1 !in Upto(d.used)
    ensures Buffered(all, d.(r := d.r.(s := s, fragments := d.r.fragments[i + 1 := all[i]]), covered := d.covered + {i + 1}))
  {
    hide Upto;
    assert d.r.fragments[i + 1 := all[i]].Keys == d.covered + {i + 1} - Upto(d.used);
  }

  lemma PrefixSame(msgs: seq<seq<byte>>, d: Delivery, d': Delivery)
    requires Prefix(msgs, d) && d'.delivered == d.delivered && d'.used == d.used
    ensures Prefix(msgs, d')
  {
  }

  lemma HonestStep(s: Seqs, covered: set<nat>, n: nat)
    requires Exact(s, covered) && AddSeq(s, n).result != Duplicate
    ensures Exact(AddSeq(s, n).s, covered + {n})
  {
    hide Sum, Shape;
    AddSeqStep(s, covered, n);
  }

  lemma CsnGrows(s: Seqs, covered: set<nat>, n: nat)
    requires Exact(s, covered) && AddSeq(s, n).result != Duplicate
    ensures AddSeq(s, n).s.csn >= s.csn
  {
    hide AddSeq, Upto;
    HonestStep(s, covered, n);
    CsnIsLargest(s, covered, s.csn);
    CsnIsLargest(AddSeq(s, n).s, covered + {n}, s.csn);
  }

  /** A new number lies beyond the fragments already handed out. */
  lemma NotUsed(d: Delivery, n: nat)
    requires Exact(d.r.s, d.covered) && d.used <= d.r.s.csn && n !in d.covered && n >= 1
    ensures n !in Upto(d.used)
  {
    hide Upto, Sum, MaxOf;
    assert Upto(d.r.s.csn) <= d.covered;
  }

  // ---- handing out the next message ------------------------------------------------

  /** The fragments of the next message, where they stand in the whole stream. */
  lemma NextPieces(msgs: seq<seq<byte>>, d: Delivery)
    requires Prefix(msgs, d) && |d.delivered| < |msgs|
    ensures var all, p := Sent(msgs, 1), Pieces(msgs[|d.delivered|], d.used + 1, true);
            && d.used + |p| <= |all|
            && (forall i | 0 <= i < |p| :: all[d.used + i] == p[i])
            && all[d.used + |p|..] == Sent(msgs[|d.delivered| + 1..], d.used + |p| + 1)
  {
    var all, n := Sent(msgs, 1), |d.delivered|;
    var rest := msgs[n..];
    var p := Pieces(rest[0], d.used + 1, true);
    assert rest[1..] == msgs[n + 1..];
    assert all[d.used..] == p + Sent(rest[1..], d.used + 1 + |p|);
    assert forall i | 0 <= i < |p| :: all[d.used + i] == all[d.used..][i];
    assert all[d.used + |p|..] == all[d.used..][|p|..];
  }

  /** The buffer as the reassembly loop sees it: from `used` on, every fragment
      up to csn is there. */
  predicate Front(m: Fragments, used: nat, csn: nat, p: seq<Fragment>) {
    && (forall k | k in m :: k > used)
    && (forall k | used < k <= csn :: k in m)
    && (forall k | k in m && k <= used + |p| :: m[k] == p[k - used - 1])
  }

  lemma NextBuffered(m: Fragments, used: nat, csn: nat, p: seq<Fragment>, k: nat)
    requires Front(m, used, csn, p) && k >= used
    ensures k < csn ==> k + 1 in Above(m.Keys, k) && MinOf(Above(m.Keys, k)) == k + 1
    ensures k >= csn ==> Above(m.Keys, k) == {} || MinOf(Above(m.Keys, k)) > csn
  {
    hide MinOf;
    var later := Above(m.Keys, k);
    if k < csn {
      assert k + 1 in later;
    }
  }

  lemma {:induction false} FindsEnd(m: Fragments, used: nat, csn: nat, p: seq<Fragment>, k: nat)
    requires Front(m, used, csn, p) && used < k < used + |p| && k <= csn
    requires |p| > 1 && Marked(p, true)
    ensures FindEnd(m, csn, k) == if used + |p| <= csn then Complete(used + |p|) else Incomplete
    decreases used + |p| - k
  {
    hide MinOf, Above;
    NextBuffered(m, used, csn, p, k);
    if k >= csn {
    } else {
      assert k + 1 in m by {
        assert k + 1 in Above(m.Keys, k);
        AboveIn(m.Keys, k, k + 1);
      }
      assert m[k + 1] == p[k - used];
      if k + 1 < used + |p| {
        FindsEnd(m, used, csn, p, k + 1);
      }
    }
  }

  lemma AboveIn(s: set<nat>, k: nat, x: nat)
    requires x in Above(s, k)
    ensures x in s
  {
  }

  lemma {:induction false} Assembles(m: Fragments, used: nat, csn: nat, p: seq<Fragment>, k: nat)
    requires Front(m, used, csn, p) && used < k <= used + |p| + 1 && used + |p| <= csn
    ensures Assemble(m, k, used + |p|) == Joined(p[k - used - 1..])
    decreases used + |p| + 1 - k
  {
    if k > used + |p| {
    } else {
      Assembles(m, used, csn, p, k + 1);
      var rest := p[k - used - 1..];
      assert rest[0] == m[k] && rest[1..] == p[k - used..];
    }
  }

  /** Taking from the front: the next message as soon as csn has passed its last
      fragment, nothing before. */
  lemma TakesNext(r: Receiver, used: nat, data: seq<byte>)
    requires var p := Pieces(data, used + 1, true); Front(r.fragments, used, r.s.csn, p)
    requires used <= r.s.csn
    ensures var p := Pieces(data, used + 1, true);
            if used + |p| <= r.s.csn
            then Take(r) == (r.(fragments := r.fragments - Span(r.fragments, used + 1, used + |p| + 1)), Some(data))
            else Take(r) == (r, None)
  {
    hide Pieces, MinOf, FindEnd, Assemble;
    var p, m, csn := Pieces(data, used + 1, true), r.fragments, r.s.csn;
    PiecesCarry(data, used + 1, true);
    NextBuffered(m, used, csn, p, used);
    assert Above(m.Keys, used) == m.Keys;
    if used < csn {
      assert m[used + 1] == p[0];
      if |p| == 1 {
        assert Joined(p) == p[0].data + Joined(p[1..]);
        assert p[0].data + [] == p[0].data;
        assert Span(m, used + 1, used + 2) == {used + 1};
      } else {
        FindsEnd(m, used, csn, p, used + 1);
        if used + |p| <= csn {
          Assembles(m, used, csn, p, used + 1);
          assert p[0..] == p;
        }
      }
    }
  }

  lemma TakesNothing(r: Receiver)
    requires r.fragments == map[] || MinOf(r.fragments.Keys) > r.s.csn
    ensures Take(r) == (r, None)
  {
  }

  lemma InFront(msgs: seq<seq<byte>>, d: Delivery)
    requires OnTrack(msgs, d) && !d.r.rejected && |d.delivered| < |msgs|
    ensures Front(d.r.fragments, d.used, d.r.s.csn, Pieces(msgs[|d.delivered|], d.used + 1, true))
  {
    hide Pieces, Sent, Sum, MaxOf;
    NextPieces(msgs, d);
    assert Upto(d.r.s.csn) <= d.covered;
    forall k | d.used < k <= d.r.s.csn
      ensures k in d.r.fragments
    {
      assert k in Upto(d.r.s.csn) && k !in Upto(d.used);
    }
  }

  lemma DrainStep(msgs: seq<seq<byte>>, d: Delivery)
    requires OnTrack(msgs, d)
    ensures OnTrack(msgs, Apply(Sent(msgs, 1), d, Drain))
    ensures !d.r.rejected && d.covered == Upto(|Sent(msgs, 1)|) && Take(d.r).1.None? ==> d.delivered == msgs
  {
    hide Safe, Honest, Sent, Pieces, Front, Take;
    var all := Sent(msgs, 1);
    NothingToTake(msgs, d);
    if |d.delivered| == |msgs| {
      assert msgs[..|msgs|] == msgs;
    } else if !d.r.rejected {
      var data := msgs[|d.delivered|];
      var p := Pieces(data, d.used + 1, true);
      InFront(msgs, d);
      TakesNext(d.r, d.used, data);
      NextPieces(msgs, d);
      if d.used + |p| <= d.r.s.csn {
        Advance(msgs, d, p);
      } else if d.covered == Upto(|all|) {
        CsnCovers(d.r.s, d.covered, |all|);
      }
    }
  }

  /** A rejected flow, or one that has handed out everything, is empty. */
  lemma NothingToTake(msgs: seq<seq<byte>>, d: Delivery)
    requires OnTrack(msgs, d)
    ensures |d.delivered| <= |msgs|
    ensures d.r.rejected || |d.delivered| == |msgs| ==> Take(d.r) == (d.r, None)
  {
    hide Exact, Sent, Take, Upto;
    if d.r.rejected {
      TakesNothing(d.r);
    } else if |d.delivered| == |msgs| {
      assert msgs[|msgs|..] == [];
      NoneSent(d.used + 1);
      AllUsed(Sent(msgs, 1), d);
      TakesNothing(d.r);
    }
  }

  lemma CsnCovers(s: Seqs, covered: set<nat>, n: nat)
    requires Exact(s, covered) && covered == Upto(n)
    ensures s.csn == n
  {
    CsnIsLargest(s, covered, n);
    CsnIsLargest(s, covered, n + 1);
    hide Upto;
    assert n + 1 in Upto(n + 1);
    CsnIsLargest(s, covered, s.csn);
  }

  lemma NoneSent(sn: nat)
    ensures Sent([], sn) == []
  {
  }

  lemma AllUsed(all: seq<Fragment>, d: Delivery)
    requires Buffered(all, d) && !d.r.rejected && d.used == |all|
    ensures d.r.fragments == map[]
  {
    assert forall k | k in d.r.fragments :: k in Upto(d.used);
    assert d.r.fragments.Keys == {};
  }

  /** Handing out the message keeps the bookkeeping of the rest. */
  lemma Advance(msgs: seq<seq<byte>>, d: Delivery, p: seq<Fragment>)
    requires OnTrack(msgs, d) && !d.r.rejected && |d.delivered| < |msgs|
    requires p == Pieces(msgs[|d.delivered|], d.used + 1, true)
    requires d.used + |p| <= d.r.s.csn
    ensures OnTrack(msgs, d.(r := d.r.(fragments := d.r.fragments - Span(d.r.fragments, d.used + 1, d.used + |p| + 1)),
                             delivered := d.delivered + [msgs[|d.delivered|]], used := d.used + |p|))
  {
    hide Safe, Honest, Sent, Pieces;
    var m := d.r.fragments;
    var m' := m - Span(m, d.used + 1, d.used + |p| + 1);
    NextPieces(msgs, d);
    assert msgs[..|d.delivered| + 1] == d.delivered + [msgs[|d.delivered|]];
    assert m'.Keys == d.covered - Upto(d.used + |p|);
  }

  function RunSteps(all: seq<Fragment>, d: Delivery, steps: seq<Step>): Delivery
    decreases |steps|
  {
    if steps == [] then d else RunSteps(all, Apply(all, d, steps[0]), steps[1..])
  }

  lemma {:induction false} EveryRunOnTrack(msgs: seq<seq<byte>>, d: Delivery, steps: seq<Step>)
    requires OnTrack(msgs, d)
    ensures OnTrack(msgs, RunSteps(Sent(msgs, 1), d, steps))
    decreases |steps|
  {
    hide OnTrack, Apply, Sent;
    if steps == [] {
    } else {
      var d' := Apply(Sent(msgs, 1), d, steps[0]);
      match steps[0] {
        case Arrive(i, sharedBytes) => ArriveStep(msgs, d, i, sharedBytes);
        case Drain => DrainStep(msgs, d);
      }
      EveryRunOnTrack(msgs, d', steps[1..]);
    }
  }

  lemma IdleOnTrack(msgs: seq<seq<byte>>)
    ensures OnTrack(msgs, IDLE)
  {
    StartExact();
    assert msgs[0..] == msgs && Sent(msgs, 1)[0..] == Sent(msgs, 1);
  }

  /** Ask for messages until there is none. */
  function DrainAll(all: seq<Fragment>, d: Delivery): Delivery
    decreases |d.r.fragments|
  {
    var d' := Apply(all, d, Drain);
    if Take(d.r).1.None? || |d'.r.fragments| >= |d.r.fragments| then d' else DrainAll(all, d')
  }

  /** Ordered reliable delivery: whatever the network loses, reorders or repeats,
      the messages handed out are always a prefix of the messages sent. */
  lemma DeliversPrefix(msgs: seq<seq<byte>>, steps: seq<Step>)
    ensures RunSteps(Sent(msgs, 1), IDLE, steps).delivered <= msgs
  {
    IdleOnTrack(msgs);
    EveryRunOnTrack(msgs, IDLE, steps);
  }

  lemma TakeShrinks(msgs: seq<seq<byte>>, d: Delivery)
    requires OnTrack(msgs, d) && Take(d.r).1.Some?
    ensures |Take(d.r).0.fragments| < |d.r.fragments|
  {
    hide Exact, Sent, Pieces, Front, Take, Span, Upto, Buffered, Prefix;
    NothingToTake(msgs, d);
    if !d.r.rejected && |d.delivered| < |msgs| {
      var p := Pieces(msgs[|d.delivered|], d.used + 1, true);
      InFront(msgs, d);
      TakesNext(d.r, d.used, msgs[|d.delivered|]);
      FrontKey(d.r.fragments, d.used, d.r.s.csn, p);
      SpanShrinks(d.r.fragments, d.used + 1, d.used + |p| + 1);
    }
  }

  lemma SpanShrinks(m: Fragments, k: nat, to: nat)
    requires k in m && k < to
    ensures |m - Span(m, k, to)| < |m|
  {
    var m' := m - Span(m, k, to);
    assert m'.Keys <= m.Keys - {k};
    SubsetSize(m'.Keys, m.Keys - {k});
  }

  lemma FrontKey(m: Fragments, used: nat, csn: nat, p: seq<Fragment>)
    requires Front(m, used, csn, p) && used < csn
    ensures used + 1 in m
  {
  }

  /** ... and once every fragment has been accepted, draining hands out all of it. */
  lemma {:induction false} DeliversAll(msgs: seq<seq<byte>>, d: Delivery)
    requires OnTrack(msgs, d) && !d.r.rejected && d.covered == Upto(|Sent(msgs, 1)|)
    ensures DrainAll(Sent(msgs, 1), d).delivered == msgs
    decreases |d.r.fragments|
  {
    hide OnTrack, Take, Sent, Upto;
    var all := Sent(msgs, 1);
    DrainStep(msgs, d);
    var d' := Apply(all, d, Drain);
    if Take(d.r).1.None? {
    } else {
      TakeShrinks(msgs, d);
      TakeKeeps(d.r);
      DeliversAll(msgs, d');
    }
  }

  lemma TakeKeeps(r: Receiver)
    ensures Take(r).0.rejected == r.rejected && Take(r).0.s == r.s
  {
    DataKeeps(r);
  }

  lemma DataKeeps(r: Receiver)
    ensures MessageData(r).r.rejected == r.rejected && MessageData(r).r.s == r.s
    decreases |r.fragments|
  {
  }

  // ---- acknowledged fragments ----------------------------------------------------------

  /** `ack_fragments_until`: only fragments in flight are taken as delivered. */
  function AckUntil(m: Fragments, n: nat): Fragments {
    map k | k in m && !(k <= n && m[k].inFlight) :: m[k]
  }

  /** `ack_fragments_for_range` */
  function AckRange(m: Fragments, r: RangeAck.Range): Fragments {
    map k | k in m && !(r.from <= k <= r.to) :: m[k]
  }

  function AckRanges(m: Fragments, ranges: seq<RangeAck.Range>): Fragments
    decreases |ranges|
  {
    if ranges == [] then m else AckRanges(AckRange(m, ranges[0]), ranges[1..])
  }

  lemma {:induction false} AckRangesKeys(m: Fragments, ranges: seq<RangeAck.Range>)
    ensures AckRanges(m, ranges) == m - RangeAck.Numbers(ranges)
    decreases |ranges|
  {
    if ranges == [] {
      assert m - {} == m;
    } else {
      AckRangesKeys(AckRange(m, ranges[0]), ranges[1..]);
      assert AckRange(m, ranges[0]) == m - Interval(ranges[0].from, ranges[0].to + 1);
    }
  }

  /** The sender applies the receiver's acknowledgement: it forgets only
      fragments the receiver holds, forgets every fragment in flight that the
      acknowledgement covers, and leaves the rest as they were. Unless csn is
      stalled, that is every fragment in flight that the receiver holds. */
  lemma AckForgetsOnlyHeld(s: Seqs, covered: set<nat>, m: Fragments)
    requires Safe(s, covered) && 0 !in m
    ensures var a := RangeAck.GetRangeAck(s);
            var m' := AckRanges(AckUntil(m, a.cumulative), RangeAck.Absolute(a.cumulative, a.pairs));
            && m'.Keys <= m.Keys && (forall k | k in m' :: m'[k] == m[k])
            && (forall k | k in m && k !in m' :: k in covered)
            && (forall k | k in m && m[k].inFlight && k in RangeAck.Acknowledged(a) :: k !in m')
            && (s.missing != {} || s.csn + 1 !in covered ==>
                  forall k | k in m && m[k].inFlight && k in covered :: k !in m')
  {
    hide Sum, Shape, RangeAck.Numbers, RangeAck.Absolute, RangeAck.GetRangeAck;
    RangeAck.AckIsExact(s, covered);
    var a := RangeAck.GetRangeAck(s);
    AckRangesKeys(AckUntil(m, a.cumulative), RangeAck.Absolute(a.cumulative, a.pairs));
  }
}
