/** The tunnelled transport's request sequencing (`rtmpt_manager.cpp`): bodies
    posted over HTTP may arrive out of order, are stashed within two caps, and
    reach the session in sequence. Each request is one atomic step on a live
    session. */
module Rtmpt {
  import opened Bytes
  import opened IntegerSets

  const MAX_OUT_OF_ORDER: nat := 64
  const MAX_OUT_OF_ORDER_BYTES: nat := 4 * 1024 * 1024
  const WRAP: nat := 0x1_0000_0000

  type Bodies = map<nat, seq<byte>>

  /** One session's sequencing state, and every byte handed to the session. */
  datatype Tunnel = Tunnel(sequence: nat, stash: Bodies, stashBytes: nat, session: seq<byte>)

  const FRESH := Tunnel(0, map[], 0, [])

  /** The 32-bit increment. */
  function Next(sequence: nat): nat {
    (sequence + 1) % WRAP
  }

  datatype Drained = Drained(sequence: nat, stash: Bodies, bytes: seq<byte>)

  /** The loop of `advance_sequence`: the contiguous stashed bodies. */
  function Drain(sequence: nat, stash: Bodies): Drained
    decreases |stash|
  {
    if sequence !in stash then Drained(sequence, stash, [])
    else
      Shorter(stash, sequence);
      var d := Drain(Next(sequence), stash - {sequence});
      d.(bytes := stash[sequence] + d.bytes)
  }

  datatype Request = Send(seqno: nat, body: seq<byte>) | Idle(seqno: nat)

  /** `validate`, of a live session and the right address. */
  predicate Validate(t: Tunnel, r: Request) {
    t.sequence <= r.seqno
  }

  predicate Stashable(t: Tunnel, r: Request) {
    && r.Send?
    && |t.stash| < MAX_OUT_OF_ORDER
    && t.stashBytes + |r.body| <= MAX_OUT_OF_ORDER_BYTES
    && r.seqno !in t.stash
  }

  /** What an in-order request hands to the session: its own body, then what it releases. */
  function InOrder(t: Tunnel, body: seq<byte>): Tunnel {
    var d := Drain(Next(t.sequence), t.stash);
    Tunnel(d.sequence, d.stash, if t.stashBytes >= |d.bytes| then t.stashBytes - |d.bytes| else 0,
           t.session + body + d.bytes)
  }

  /** `handle_data` for a body, `serialize_result` for a poll. */
  function Handle(t: Tunnel, r: Request): Tunnel {
    if r.seqno == t.sequence then InOrder(t, if r.Send? then r.body else [])
    else if Stashable(t, r) then
      t.(stash := t.stash[r.seqno := r.body], stashBytes := t.stashBytes + |r.body|)
    else t
  }

  // ---- the reference: which body each number was accepted with ---------------------

  datatype Track = Track(t: Tunnel, accepted: Bodies)

  const START := Track(FRESH, map[])

  function Receive(tr: Track, r: Request): Track {
    Track(Handle(tr.t, r),
          if r.seqno == tr.t.sequence then tr.accepted[r.seqno := if r.Send? then r.body else []]
          else if Stashable(tr.t, r) && r.seqno > tr.t.sequence then tr.accepted[r.seqno := r.body]
          else tr.accepted)
  }

  function RunAll(tr: Track, requests: seq<Request>): Track
    decreases |requests|
  {
    if requests == [] then tr else RunAll(Receive(tr, requests[0]), requests[1..])
  }

  /** The bodies accepted for 0..n-1, in order. */
  function InSequence(accepted: Bodies, n: nat): seq<byte> {
    if n == 0 then []
    else InSequence(accepted, n - 1) + if n - 1 in accepted then accepted[n - 1] else []
  }

  /** The bytes a stash holds. */
  function Stashed(m: Bodies): nat
    decreases |m|
  {
    if m == map[] then 0
    else
      var k := MinOf(m.Keys);
      Shorter(m, k);
      |m[k]| + Stashed(m - {k})
  }

  lemma {:induction false} StashedWithout(m: Bodies, k: nat)
    requires k in m
    ensures Stashed(m) == |m[k]| + Stashed(m - {k})
    decreases |m|
  {
    var first := MinOf(m.Keys);
    if k == first {
    } else {
      Shorter(m, first);
      StashedWithout(m - {first}, k);
      var t := m - {k};
      assert first in t.Keys && MinOf(t.Keys) == first by {
        assert t.Keys <= m.Keys;
      }
      assert t - {first} == m - {first} - {k};
    }
  }

  /** Everything below `sequence` is accepted; from there on the accepted bodies are
      exactly the stashed ones. A stale stash entry stands for nothing. */
  predicate Pending(accepted: Bodies, sequence: nat, stash: Bodies) {
    && (forall k | 0 <= k < sequence :: k in accepted)
    && (forall k | k in accepted && sequence <= k :: k in stash)
    && (forall k | k in stash && sequence <= k :: k in accepted && accepted[k] == stash[k])
  }

  predicate Caps(t: Tunnel) {
    && t.stashBytes == Stashed(t.stash)
    && |t.stash| <= MAX_OUT_OF_ORDER && t.stashBytes <= MAX_OUT_OF_ORDER_BYTES
  }

  /** After at most `n` requests. */
  predicate Sound(tr: Track, n: nat) {
    && Pending(tr.accepted, tr.t.sequence, tr.t.stash)
    && tr.t.session == InSequence(tr.accepted, tr.t.sequence)
    && tr.t.sequence !in tr.t.stash
    && Caps(tr.t)
    && tr.t.sequence + |tr.t.stash| <= n
  }

  lemma PendingStep(accepted: Bodies, sequence: nat, stash: Bodies)
    requires Pending(accepted, sequence, stash) && sequence in stash
    ensures Pending(accepted, sequence + 1, stash - {sequence})
    ensures InSequence(accepted, sequence + 1) == InSequence(accepted, sequence) + stash[sequence]
  {
  }

  lemma DrainStep(sequence: nat, stash: Bodies)
    requires sequence in stash ==> sequence + 1 < WRAP
    ensures sequence !in stash ==> Drain(sequence, stash) == Drained(sequence, stash, [])
    ensures sequence in stash ==>
              var d := Drain(sequence + 1, stash - {sequence});
              Drain(sequence, stash) == d.(bytes := stash[sequence] + d.bytes)
  {
  }

  /** Draining takes out of the stash exactly the bytes and the entries it delivers. */
  lemma {:induction false} DrainCounts(sequence: nat, stash: Bodies)
    requires sequence + |stash| < WRAP
    ensures var d := Drain(sequence, stash);
            && d.sequence + |d.stash| == sequence + |stash|
            && Stashed(stash) == |d.bytes| + Stashed(d.stash)
    decreases |stash|
  {
    hide Stashed, Drain;
    if sequence !in stash {
    } else {
      Shorter(stash, sequence);
      StashedWithout(stash, sequence);
      DrainCounts(sequence + 1, stash - {sequence});
    }
    DrainStep(sequence, stash);
  }

  /** Draining delivers in sequence and stops at the first number missing. */
  lemma {:induction false} DrainDelivers(accepted: Bodies, sequence: nat, stash: Bodies)
    requires Pending(accepted, sequence, stash) && sequence + |stash| < WRAP
    ensures var d := Drain(sequence, stash);
            && sequence <= d.sequence && d.sequence !in d.stash
            && Pending(accepted, d.sequence, d.stash)
            && InSequence(accepted, d.sequence) == InSequence(accepted, sequence) + d.bytes
    decreases |stash|
  {
    hide Pending, InSequence, Drain;
    if sequence !in stash {
    } else {
      Shorter(stash, sequence);
      PendingStep(accepted, sequence, stash);
      DrainDelivers(accepted, sequence + 1, stash - {sequence});
      var d := Drain(sequence + 1, stash - {sequence});
      assert InSequence(accepted, sequence) + (stash[sequence] + d.bytes)
          == InSequence(accepted, sequence) + stash[sequence] + d.bytes;
    }
    DrainStep(sequence, stash);
  }

  /** The in-sequence bytes do not depend on what is accepted above them. */
  lemma {:induction false} InSequenceBelow(accepted: Bodies, k: nat, body: seq<byte>, n: nat)
    requires n <= k
    ensures InSequence(accepted[k := body], n) == InSequence(accepted, n)
  {
    if n <= 0 {
    } else {
      InSequenceBelow(accepted, k, body, n - 1);
    }
  }

  lemma AcceptNext(accepted: Bodies, sequence: nat, stash: Bodies, body: seq<byte>)
    requires Pending(accepted, sequence, stash) && sequence !in stash
    ensures var accepted' := accepted[sequence := body];
            && Pending(accepted', sequence + 1, stash)
            && InSequence(accepted', sequence + 1) == InSequence(accepted, sequence) + body
  {
    InSequenceBelow(accepted, sequence, body, sequence);
  }

  lemma InOrderSound(tr: Track, r: Request, n: nat)
    requires Sound(tr, n) && n + 1 < WRAP && r.seqno == tr.t.sequence
    ensures Sound(Receive(tr, r), n + 1)
  {
    hide Stashed, Drain, Pending, InSequence;
    var body := if r.Send? then r.body else [];
    var accepted := tr.accepted[r.seqno := body];
    AcceptNext(tr.accepted, r.seqno, tr.t.stash, body);
    assert Next(r.seqno) == r.seqno + 1;
    DrainDelivers(accepted, r.seqno + 1, tr.t.stash);
    DrainCounts(r.seqno + 1, tr.t.stash);
  }

  lemma StashSound(tr: Track, r: Request, n: nat)
    requires Sound(tr, n) && r.seqno != tr.t.sequence && Stashable(tr.t, r)
    ensures Sound(Receive(tr, r), n + 1)
  {
    hide Stashed;
    var stash := tr.t.stash[r.seqno := r.body];
    StashedWithout(stash, r.seqno);
    Shorter(stash, r.seqno);
    assert stash - {r.seqno} == tr.t.stash;
    if r.seqno > tr.t.sequence {
      InSequenceBelow(tr.accepted, r.seqno, r.body, tr.t.sequence);
    }
  }

  /** One request, whatever number it carries — a stale one included. */
  lemma ReceiveSound(tr: Track, r: Request, n: nat)
    requires Sound(tr, n) && n + 1 < WRAP
    ensures Sound(Receive(tr, r), n + 1)
    ensures forall k | k in tr.accepted :: k in Receive(tr, r).accepted && Receive(tr, r).accepted[k] == tr.accepted[k]
  {
    hide Stashed, Drain, InSequence;
    if r.seqno == tr.t.sequence {
      InOrderSound(tr, r, n);
    } else if Stashable(tr.t, r) {
      StashSound(tr, r, n);
    }
  }

  /** In order, exactly once: over every run of fewer than 2^32 requests the session
      has been handed the accepted bodies below `sequence`, each once and in order;
      a body once accepted for a number is never replaced; the byte count is the
      stash's and both caps hold. */
  lemma {:induction false} InOrderExactlyOnce(tr: Track, requests: seq<Request>, n: nat)
    requires Sound(tr, n) && n + |requests| < WRAP
    ensures var u := RunAll(tr, requests);
            && Sound(u, n + |requests|)
            && forall k | k in tr.accepted :: k in u.accepted && u.accepted[k] == tr.accepted[k]
    decreases |requests|
  {
    hide Sound, Receive;
    if requests == [] {
    } else {
      ReceiveSound(tr, requests[0], n);
      InOrderExactlyOnce(Receive(tr, requests[0]), requests[1..], n + 1);
    }
  }

  lemma StartSound()
    ensures Sound(START, 0)
  {
  }

  // ---- validated requests ------------------------------------------------------------

  /** No entry of the stash is stale. */
  predicate NoneStale(t: Tunnel) {
    Above(t.stash, t.sequence)
  }

  predicate Above(stash: Bodies, sequence: nat) {
    forall k | k in stash :: k > sequence
  }

  /** A session fed only what `validate` lets through keeps no stale entry, so no
      slot of the stash is ever lost. */
  lemma ValidatedKeepsNoStale(tr: Track, r: Request, n: nat)
    requires Sound(tr, n) && n + 1 < WRAP && NoneStale(tr.t) && Validate(tr.t, r)
    ensures NoneStale(Handle(tr.t, r))
  {
    if r.seqno == tr.t.sequence {
      DrainKeepsNoStale(Next(r.seqno), tr.t.stash);
    }
  }

  lemma {:induction false} DrainKeepsNoStale(sequence: nat, stash: Bodies)
    requires sequence + |stash| < WRAP && forall k | k in stash :: k >= sequence
    ensures Above(Drain(sequence, stash).stash, Drain(sequence, stash).sequence)
    decreases |stash|
  {
    if sequence !in stash {
    } else {
      Shorter(stash, sequence);
      DrainKeepsNoStale(Next(sequence), stash - {sequence});
    }
  }

  // ---- any order of arrival --------------------------------------------------------------

  function Total(requests: seq<Request>): nat {
    if requests == [] then 0 else (if requests[0].Send? then |requests[0].body| else 0) + Total(requests[1..])
  }

  /** Bodies for distinct numbers not seen before. */
  predicate Distinct(requests: seq<Request>, seen: set<nat>) {
    && (forall i | 0 <= i < |requests| :: requests[i].Send? && requests[i].seqno !in seen)
    && (forall i, j | 0 <= i < j < |requests| :: requests[i].seqno != requests[j].seqno)
  }

  /** While the caps leave room, every body is accepted as sent. */
  lemma {:induction false} AllAccepted(tr: Track, requests: seq<Request>, n: nat)
    requires Sound(tr, n) && NoneStale(tr.t) && Distinct(requests, tr.accepted.Keys)
    requires n + |requests| <= MAX_OUT_OF_ORDER && tr.t.stashBytes + Total(requests) <= MAX_OUT_OF_ORDER_BYTES
    ensures var u := RunAll(tr, requests);
            && Sound(u, n + |requests|)
            && (forall i | 0 <= i < |requests| ::
                  requests[i].seqno in u.accepted && u.accepted[requests[i].seqno] == requests[i].body)
    decreases |requests|
  {
    hide Sound, Caps, Stashed, Drain, InSequence;
    if requests == [] {
    } else {
      var r := requests[0];
      assert requests[0].Send?;
      OneAccepted(tr, r, n);
      var tr' := Receive(tr, r);
      RestDistinct(tr, requests, n);
      AllAccepted(tr', requests[1..], n + 1);
      InOrderExactlyOnce(tr', requests[1..], n + 1);
      var u := RunAll(tr, requests);
      forall i | 0 <= i < |requests|
        ensures requests[i].seqno in u.accepted && u.accepted[requests[i].seqno] == requests[i].body
      {
        if i > 0 {
          assert requests[i] == requests[1..][i - 1];
        }
      }
    }
  }

  lemma OneAccepted(tr: Track, r: Request, n: nat)
    requires Sound(tr, n) && NoneStale(tr.t) && n < MAX_OUT_OF_ORDER
    requires r.Send? && r.seqno !in tr.accepted && tr.t.stashBytes + |r.body| <= MAX_OUT_OF_ORDER_BYTES
    ensures var tr' := Receive(tr, r);
            && Sound(tr', n + 1) && NoneStale(tr'.t)
            && tr'.accepted == tr.accepted[r.seqno := r.body]
            && tr'.t.stashBytes <= tr.t.stashBytes + |r.body|
  {
    hide Stashed, Drain, InSequence;
    ReceiveSound(tr, r, n);
    assert r.seqno >= tr.t.sequence;
    ValidatedKeepsNoStale(tr, r, n);
  }

  lemma RestDistinct(tr: Track, requests: seq<Request>, n: nat)
    requires requests != [] && Distinct(requests, tr.accepted.Keys)
    ensures Distinct(requests[1..], tr.accepted.Keys + {requests[0].seqno})
  {
  }

  /** Bodies 0..n-1 posted in any order, at most 64 of them and at most 4 MiB, all
      reach the session in sequence. */
  lemma AnyOrderDelivers(requests: seq<Request>, bodies: seq<seq<byte>>)
    requires |requests| == |bodies| <= MAX_OUT_OF_ORDER && Total(requests) <= MAX_OUT_OF_ORDER_BYTES
    requires Distinct(requests, {})
    requires forall i | 0 <= i < |requests| ::
               requests[i].seqno < |bodies| && requests[i].body == bodies[requests[i].seqno]
    ensures RunAll(START, requests).t.session == Flat(bodies) && RunAll(START, requests).t.stash == map[]
  {
    StartSound();
    AllAccepted(START, requests, 0);
    var u := RunAll(START, requests);
    forall k | 0 <= k < |bodies|
      ensures k in u.accepted && u.accepted[k] == bodies[k]
    {
      Everyone(requests, |bodies|, k);
      var i :| 0 <= i < |requests| && requests[i].seqno == k;
    }
    assert u.t.sequence == |bodies|;
    InSequenceIsFlat(u.accepted, bodies, |bodies|);
    assert bodies[..|bodies|] == bodies;
  }

  function Flat(bodies: seq<seq<byte>>): seq<byte> {
    if bodies == [] then [] else Flat(bodies[..|bodies| - 1]) + bodies[|bodies| - 1]
  }

  lemma {:induction false} InSequenceIsFlat(accepted: Bodies, bodies: seq<seq<byte>>, n: nat)
    requires n <= |bodies| && forall k | 0 <= k < n :: k in accepted && accepted[k] == bodies[k]
    ensures InSequence(accepted, n) == Flat(bodies[..n])
  {
    if n <= 0 {
    } else {
      InSequenceIsFlat(accepted, bodies, n - 1);
      assert bodies[..n][..n - 1] == bodies[..n - 1];
    }
  }

  /** The numbers carried, each plus one. */
  function Numbers(requests: seq<Request>): set<nat> {
    if requests == [] then {} else Numbers(requests[1..]) + {requests[0].seqno + 1}
  }

  lemma {:induction false} NumbersMembers(requests: seq<Request>, k: nat)
    ensures k + 1 in Numbers(requests) <==> exists i :: 0 <= i < |requests| && requests[i].seqno == k
    ensures 0 !in Numbers(requests)
    decreases |requests|
  {
    if requests == [] {
    } else {
      NumbersMembers(requests[1..], k);
      assert forall i | 0 <= i < |requests| - 1 :: requests[1..][i] == requests[i + 1];
      if i :| 0 <= i < |requests| && requests[i].seqno == k && i > 0 {
        assert requests[1..][i - 1].seqno == k;
      }
    }
  }

  lemma {:induction false} NumbersSize(requests: seq<Request>)
    requires Distinct(requests, {})
    ensures |Numbers(requests)| == |requests|
    decreases |requests|
  {
    if requests == [] {
    } else {
      assert Distinct(requests[1..], {});
      NumbersSize(requests[1..]);
      NumbersMembers(requests[1..], requests[0].seqno);
    }
  }

  /** n distinct numbers below n are all of them. */
  lemma Everyone(requests: seq<Request>, n: nat, k: nat)
    requires |requests| == n && Distinct(requests, {}) && k < n
    requires forall i | 0 <= i < n :: requests[i].seqno < n
    ensures exists i :: 0 <= i < n && requests[i].seqno == k
  {
    NumbersSize(requests);
    UptoSize(n);
    forall x | x in Numbers(requests)
      ensures x in Upto(n)
    {
      NumbersMembers(requests, if x > 0 then x - 1 else 0);
    }
    SubsetSize(Numbers(requests), Upto(n));
    NumbersMembers(requests, k);
  }

  // ---- in place ---------------------------------------------------------------------------

  class SessionData {
    var sequence: nat
    var stash: Bodies
    var stashBytes: nat
    var session: seq<byte>

    function State(): Tunnel
      reads this
    {
      Tunnel(sequence, stash, stashBytes, session)
    }

    constructor ()
      ensures State() == FRESH
    {
      sequence, stash, stashBytes, session := 0, map[], 0, [];
    }

    /** `advance_sequence`: appends what the request releases to `body`. */
    method AdvanceSequence(seqno: nat, body: seq<byte>) returns (inOrder: bool, input: seq<byte>)
      requires stashBytes == Stashed(stash)
      modifies `sequence, `stash, `stashBytes
      ensures inOrder <==> old(sequence) == seqno
      ensures inOrder ==>
                var d := Drain(Next(seqno), old(stash));
                && input == body + d.bytes && sequence == d.sequence && stash == d.stash
                && stashBytes == old(stashBytes) - |d.bytes| == Stashed(stash)
      ensures !inOrder ==> input == body && State() == old(State())
    {
      hide Stashed;
      input := body;
      if sequence != seqno {
        return false, input;
      }
      sequence := Next(sequence);
      while sequence in stash
        invariant stashBytes == Stashed(stash)
        invariant var d, e := Drain(Next(seqno), old(stash)), Drain(sequence, stash);
                  && body + d.bytes == input + e.bytes
                  && d.sequence == e.sequence && d.stash == e.stash
        invariant old(stashBytes) - stashBytes == |input| - |body|
        decreases |stash|
      {
        Shorter(stash, sequence);
        StashedWithout(stash, sequence);
        input := input + stash[sequence];
        stashBytes := stashBytes - |stash[sequence]|;
        stash := stash - {sequence};
        sequence := Next(sequence);
      }
      return true, input;
    }

    method HandleData(seqno: nat, body: seq<byte>, ghost tr: Track, ghost n: nat)
      requires Sound(tr, n) && n + 1 < WRAP && State() == tr.t
      modifies this
      ensures State() == Receive(tr, Send(seqno, body)).t && Sound(Receive(tr, Send(seqno, body)), n + 1)
    {
      hide Stashed, Drain, Pending, InSequence;
      ReceiveSound(tr, Send(seqno, body), n);
      var inOrder, input := AdvanceSequence(seqno, body);
      if inOrder {
        session := session + input;
        assert session == tr.t.session + body + Drain(Next(seqno), tr.t.stash).bytes;
      } else {
        if |stash| < MAX_OUT_OF_ORDER && stashBytes + |input| <= MAX_OUT_OF_ORDER_BYTES && seqno !in stash {
          stash := stash[seqno := input];
          stashBytes := stashBytes + |input|;
        }
      }
    }

    method SerializeResult(seqno: nat, ghost tr: Track, ghost n: nat)
      requires Sound(tr, n) && n + 1 < WRAP && State() == tr.t
      modifies this
      ensures State() == Receive(tr, Idle(seqno)).t && Sound(Receive(tr, Idle(seqno)), n + 1)
    {
      hide Stashed, Drain, Pending, InSequence;
      ReceiveSound(tr, Idle(seqno), n);
      var inOrder, drained := AdvanceSequence(seqno, []);
      if drained != [] {
        session := session + drained;
      }
      assert inOrder ==> session == tr.t.session + [] + Drain(Next(seqno), tr.t.stash).bytes;
    }
  }
}
