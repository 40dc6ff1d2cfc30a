/** The sending half of a reliable flow (`flow::add_and_fragment_data` and
    `flow::add_fragment` of `rtmfp/flow.cpp`): when every fragment of every message
    is queued, and what is lost when not. The source does not look at what
    `add_fragment` returns, so a refused fragment is lost with its number spent. */
module FlowSender {
  import opened Bytes
  import opened IntegerSets
  import opened SeqManager
  import opened FragmentStore
  import opened Flow

  /** A sender that has queued 1..sn-1 without loss; acknowledged ones may be gone. */
  predicate InOrderAt(q: Receiver, sn: nat) {
    && 1 <= sn && q.s == Seqs(sn - 1, Triangle(sn - 1), {}, {})
    && forall k | k in q.fragments :: k < sn
  }

  function Weight(f: seq<Fragment>): nat {
    if f == [] then 0 else |f[0].data| + Weight(f[1..])
  }

  /** The caps, and the largest sequence number, leave room for all of them. */
  predicate RoomFor(q: Receiver, f: seq<Fragment>, sn: nat) {
    && |q.fragments| + |f| <= MAX_BUFFERED_FRAGMENTS
    && Held(q.fragments) + Weight(f) <= MAX_BUFFERED_BYTES
    && sn + |f| <= MAX_CSN + 1
  }

  predicate Queued(q: Receiver, f: seq<Fragment>) {
    forall i | 0 <= i < |f| :: f[i].sn in q.fragments && q.fragments[f[i].sn] == f[i]
  }

  /** Whether the first of the fragments is taken. */
  predicate Takes(q: Receiver, f: Fragment) {
    !OverCap(q.fragments, 0, f) && f.sn <= MAX_CSN
  }

  /** The next fragment in order: queued, or refused with nothing changed. */
  lemma QueueOne(q: Receiver, f: Fragment)
    requires InOrderAt(q, f.sn)
    ensures Takes(q, f) ==>
              var q' := Queue(q, f, 0).0;
              && InOrderAt(q', f.sn + 1) && q'.fragments == q.fragments[f.sn := f]
              && |q'.fragments| == |q.fragments| + 1 && Held(q'.fragments) == Held(q.fragments) + |f.data|
    ensures !Takes(q, f) ==> Queue(q, f, 0).0 == q
  {
    hide Held, AddSeq, Triangle;
    if f.sn <= MAX_CSN {
      NextInOrder(f.sn);
    } else {
      TooLarge(q.s, f.sn);
    }
    if Takes(q, f) {
      HeldWith(q.fragments, f.sn, f);
      assert q.fragments - {f.sn} == q.fragments;
      assert q.fragments[f.sn := f].Keys == q.fragments.Keys + {f.sn};
    }
  }

  lemma NextInOrder(sn: nat)
    requires 1 <= sn <= MAX_CSN
    ensures AddSeq(Seqs(sn - 1, Triangle(sn - 1), {}, {}), sn) == Added(Seqs(sn, Triangle(sn), {}, {}), InOrder)
  {
    hide Triangle, MaxOf;
    TriangleStep(sn - 1);
  }

  lemma TooLarge(s: Seqs, val: nat)
    requires val > MAX_CSN
    ensures AddSeq(s, val) == Added(s, Duplicate)
  {
  }

  /** Queueing adds no fragment but those given, and replaces none before them. */
  lemma {:induction false} QueueAllKeys(q: Receiver, f: seq<Fragment>, sn: nat)
    requires Numbered(f, sn)
    ensures forall k | k < sn :: k in QueueAll(q, f).fragments <==> k in q.fragments
    ensures forall k | k < sn && k in q.fragments :: QueueAll(q, f).fragments[k] == q.fragments[k]
    ensures forall k | k in QueueAll(q, f).fragments :: k in q.fragments || sn <= k < sn + |f|
    decreases |f|
  {
    hide Held, AddSeq;
    if f == [] {
    } else {
      assert f[0].sn == sn;
      QueueAllKeys(Queue(q, f[0], 0).0, f[1..], sn + 1);
    }
  }

  /** Every fragment of a message is queued, in order, if and only if there is room;
      past a cap at least one is missing. */
  lemma {:induction false} QueuesExactly(q: Receiver, f: seq<Fragment>, sn: nat)
    requires InOrderAt(q, sn) && Numbered(f, sn)
    requires |q.fragments| <= MAX_BUFFERED_FRAGMENTS && Held(q.fragments) <= MAX_BUFFERED_BYTES && sn <= MAX_CSN + 1
    ensures Queued(QueueAll(q, f), f) <==> RoomFor(q, f, sn)
    ensures RoomFor(q, f, sn) ==>
              && InOrderAt(QueueAll(q, f), sn + |f|)
              && |QueueAll(q, f).fragments| == |q.fragments| + |f|
              && Held(QueueAll(q, f).fragments) == Held(q.fragments) + Weight(f)
    decreases |f|
  {
    hide Held, Queue, InOrderAt, Takes;
    if f == [] {
    } else {
      var q', rest := Queue(q, f[0], 0).0, f[1..];
      assert f[0].sn == sn;
      QueueOne(q, f[0]);
      if RoomFor(q, f, sn) {
        TakesWithRoom(q, f, sn);
      }
      QueueAllKeys(q', rest, sn + 1);
      if Takes(q, f[0]) {
        TakenRange(q, f[0]);
        QueuesExactly(q', rest, sn + 1);
        QueuedFirst(QueueAll(q', rest), f);
      } else {
        NotYet(q, sn);
        assert f[0].sn !in QueueAll(q, f).fragments;
      }
    }
  }

  lemma NotYet(q: Receiver, sn: nat)
    requires InOrderAt(q, sn)
    ensures sn !in q.fragments
  {
  }

  lemma TakenRange(q: Receiver, f: Fragment)
    requires Takes(q, f)
    ensures |q.fragments| < MAX_BUFFERED_FRAGMENTS && Held(q.fragments) + |f.data| <= MAX_BUFFERED_BYTES && f.sn <= MAX_CSN
  {
  }

  lemma TakesWithRoom(q: Receiver, f: seq<Fragment>, sn: nat)
    requires f != [] && f[0].sn == sn && RoomFor(q, f, sn)
    ensures Takes(q, f[0])
  {
  }

  lemma QueuedFirst(q: Receiver, f: seq<Fragment>)
    requires f != []
    ensures Queued(q, f) <==> f[0].sn in q.fragments && q.fragments[f[0].sn] == f[0] && Queued(q, f[1..])
  {
    assert forall i | 0 <= i < |f| - 1 :: f[1..][i] == f[i + 1];
    if Queued(q, f[1..]) && f[0].sn in q.fragments && q.fragments[f[0].sn] == f[0] {
      forall i | 0 <= i < |f|
        ensures f[i].sn in q.fragments && q.fragments[f[i].sn] == f[i]
      {
        if i > 0 {
          assert f[1..][i - 1] == f[i];
        }
      }
    }
  }

  /** An in-order sender within its caps. */
  predicate Sending(q: Receiver, sn: nat) {
    && InOrderAt(q, sn) && sn <= MAX_CSN + 1
    && |q.fragments| <= MAX_BUFFERED_FRAGMENTS && Held(q.fragments) <= MAX_BUFFERED_BYTES
  }

  /** One message: all of it is queued if and only if there is room for all of it. */
  lemma PiecesQueued(q: Receiver, data: seq<byte>, sn: nat)
    ensures var f := Pieces(data, sn, true);
            Sending(q, sn) ==>
              && (Queued(QueueAll(q, f), f) <==> RoomFor(q, f, sn))
              && (RoomFor(q, f, sn) ==> Sending(QueueAll(q, f), sn + |f|))
  {
    hide Pieces, QueueAll, Held, Queued, InOrderAt;
    PiecesCarry(data, sn, true);
    if Sending(q, sn) {
      QueuesExactly(q, Pieces(data, sn, true), sn);
    }
  }

  // ---- whole messages --------------------------------------------------------------------

  /** Sending the messages one after another. */
  function QueueMessages(q: Receiver, msgs: seq<seq<byte>>, sn: nat): Receiver
    decreases |msgs|
  {
    if msgs == [] then q
    else
      var f := Pieces(msgs[0], sn, true);
      QueueMessages(QueueAll(q, f), msgs[1..], sn + |f|)
  }

  lemma {:induction false} QueueAllThen(q: Receiver, f: seq<Fragment>, g: seq<Fragment>)
    ensures QueueAll(q, f + g) == QueueAll(QueueAll(q, f), g)
    decreases |f|
  {
    hide Queue;
    if f == [] {
      assert f + g == g;
    } else {
      assert (f + g)[0] == f[0] && (f + g)[1..] == f[1..] + g;
      QueueAllThen(Queue(q, f[0], 0).0, f[1..], g);
    }
  }

  lemma {:induction false} MessagesAreSent(q: Receiver, msgs: seq<seq<byte>>, sn: nat)
    ensures QueueMessages(q, msgs, sn) == QueueAll(q, Sent(msgs, sn))
    decreases |msgs|
  {
    hide Queue, Pieces;
    if msgs == [] {
    } else {
      var f := Pieces(msgs[0], sn, true);
      MessagesAreSent(QueueAll(q, f), msgs[1..], sn + |f|);
      QueueAllThen(q, f, Sent(msgs[1..], sn + |f|));
    }
  }

  function Length(msgs: seq<seq<byte>>): nat {
    if msgs == [] then 0 else |msgs[0]| + Length(msgs[1..])
  }

  lemma {:induction false} WeightIsData(f: seq<Fragment>)
    ensures Weight(f) == |Joined(f)|
  {
    if f == [] {
    } else {
      WeightIsData(f[1..]);
    }
  }

  lemma {:induction false} WeightBehind(f: seq<Fragment>, g: seq<Fragment>)
    ensures Weight(f + g) == Weight(f) + Weight(g)
  {
    if f == [] {
      assert f + g == g;
    } else {
      assert (f + g)[0] == f[0] && (f + g)[1..] == f[1..] + g;
      WeightBehind(f[1..], g);
    }
  }

  lemma {:induction false} SentWeight(msgs: seq<seq<byte>>, sn: nat)
    ensures Weight(Sent(msgs, sn)) == Length(msgs) && |Sent(msgs, sn)| >= |msgs|
    decreases |msgs|
  {
    hide Pieces;
    if msgs == [] {
    } else {
      var f := Pieces(msgs[0], sn, true);
      PiecesCarry(msgs[0], sn, true);
      WeightIsData(f);
      SentWeight(msgs[1..], sn + |f|);
      WeightBehind(f, Sent(msgs[1..], sn + |f|));
    }
  }

  /** From a fresh sending flow: the queue holds exactly the fragments the delivery
      theorems draw from if and only if there are at most 8192 of them and at most
      16 MiB of data. */
  lemma SendingFills(msgs: seq<seq<byte>>)
    ensures var q, all := QueueMessages(OPEN, msgs, 1), Sent(msgs, 1);
            && (Queued(q, all) <==> |all| <= MAX_BUFFERED_FRAGMENTS && Length(msgs) <= MAX_BUFFERED_BYTES)
            && (forall k | k in q.fragments :: 1 <= k <= |all|)
            && (Queued(q, all) ==> |q.fragments| == |all| && InOrderAt(q, |all| + 1))
  {
    hide Queue, Pieces, Sent, QueueMessages, QueueAll, Held, Weight, Numbered, Queued, InOrderAt;
    var all := Sent(msgs, 1);
    MessagesAreSent(OPEN, msgs, 1);
    SentNumbers(msgs, 1);
    SentWeight(msgs, 1);
    FreshInOrder();
    QueuesExactly(OPEN, all, 1);
    QueueAllKeys(OPEN, all, 1);
  }

  lemma FreshInOrder()
    ensures InOrderAt(OPEN, 1) && Held(OPEN.fragments) == 0
  {
  }

  /** One message too many: with nothing acknowledged in between, one of 8193 messages
      is lost before it reaches the network. */
  lemma OverfullExample(msgs: seq<seq<byte>>)
    requires |msgs| == MAX_BUFFERED_FRAGMENTS + 1
    ensures !Queued(QueueMessages(OPEN, msgs, 1), Sent(msgs, 1))
  {
    hide QueueMessages, Queued;
    SendingFills(msgs);
    SentWeight(msgs, 1);
  }
}
