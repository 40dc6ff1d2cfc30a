/** The receiving flows of one session and the reassembly bytes they share
    (`rtmfp/session.cpp` opens and closes the flows, `rtmfp/flow.cpp` buffers). */
module FlowSession {
  import opened IntegerSets
  import opened FragmentStore
  import Flow

  /** `total` is the shared counter, kept by charging and releasing. */
  datatype Session = Session(flows: map<nat, Flow.Receiver>, total: int)

  const NEW := Session(map[], 0)

  function HeldBy(flows: map<nat, Flow.Receiver>): nat
    decreases |flows|
  {
    if flows == map[] then 0
    else
      var id := MinOf(flows.Keys);
      Shorter(flows, id);
      Held(flows[id].fragments) + HeldBy(flows - {id})
  }

  lemma {:induction false} HeldByWithout(flows: map<nat, Flow.Receiver>, id: nat)
    requires id in flows
    ensures HeldBy(flows) == Held(flows[id].fragments) + HeldBy(flows - {id})
    decreases |flows|
  {
    hide Held;
    var first := MinOf(flows.Keys);
    if id == first {
    } else {
      Shorter(flows, first);
      HeldByWithout(flows - {first}, id);
      var t := flows - {id};
      assert first in t.Keys && MinOf(t.Keys) == first by {
        assert t.Keys <= flows.Keys;
      }
      assert t - {first} == flows - {first} - {id};
    }
  }

  lemma HeldByWith(flows: map<nat, Flow.Receiver>, id: nat, r: Flow.Receiver)
    ensures HeldBy(flows[id := r]) == Held(r.fragments) + HeldBy(flows - {id})
  {
    hide Held, HeldBy;
    HeldByWithout(flows[id := r], id);
    assert flows[id := r] - {id} == flows - {id};
  }

  datatype Op =
    | OpenFlow(id: nat)
    | Receive(id: nat, f: Fragment)
    | Deliver(id: nat)
    | DropUntil(id: nat, sn: nat)
    | CloseFlow(id: nat)

  /** Replacing one flow charges or releases the difference in bytes it holds. */
  function Replace(s: Session, id: nat, r: Flow.Receiver): Session
    requires id in s.flows
  {
    Session(s.flows[id := r], s.total - Held(s.flows[id].fragments) + Held(r.fragments))
  }

  /** `remove_fragments_until_seq` */
  function DropFragments(m: Fragments, sn: nat): Fragments {
    m - (set k | k in m && k <= sn)
  }

  function Apply(s: Session, op: Op): Session {
    if op.OpenFlow? then
      if op.id in s.flows then s else s.(flows := s.flows[op.id := Flow.OPEN])
    else if op.id !in s.flows then s
    else
      var r := s.flows[op.id];
      match op
      case Receive(id, f) =>
        if r.rejected then s else Replace(s, id, Flow.AddFragment(r, f, if s.total >= 0 then s.total else 0).0)
      case Deliver(id) => Replace(s, id, Flow.Take(r).0)
      case DropUntil(id, sn) => Replace(s, id, r.(fragments := DropFragments(r.fragments, sn)))
      case CloseFlow(id) => Session(s.flows - {id}, s.total - Held(r.fragments))
      case OpenFlow(_) => s
  }

  /** The counter is the bytes actually held; no flow holds more than 16 MiB and
      the session no more than 32 MiB. */
  predicate Conserved(s: Session) {
    && s.total == HeldBy(s.flows)
    && s.total <= Flow.MAX_SESSION_BYTES
    && forall id | id in s.flows :: Held(s.flows[id].fragments) <= Flow.MAX_BUFFERED_BYTES
  }

  lemma ReplaceKeeps(s: Session, id: nat, r: Flow.Receiver)
    requires Conserved(s) && id in s.flows
    requires Held(r.fragments) <= Flow.MAX_BUFFERED_BYTES
    requires s.total - Held(s.flows[id].fragments) + Held(r.fragments) <= Flow.MAX_SESSION_BYTES
    ensures Conserved(Replace(s, id, r))
  {
    hide Held, HeldBy;
    HeldByWithout(s.flows, id);
    HeldByWith(s.flows, id, r);
  }

  lemma ReceiveFits(r: Flow.Receiver, f: Fragment, total: nat)
    requires Held(r.fragments) <= Flow.MAX_BUFFERED_BYTES && total <= Flow.MAX_SESSION_BYTES
    ensures var r' := Flow.AddFragment(r, f, total).0;
            && Held(r'.fragments) <= Flow.MAX_BUFFERED_BYTES
            && total - Held(r.fragments) + Held(r'.fragments) <= Flow.MAX_SESSION_BYTES
  {
    HeldNone();
    HeldWith(r.fragments, f.sn, f);
    HeldShrinks(r.fragments, {f.sn});
    hide Held;
  }

  lemma HeldNone()
    ensures Held(map[]) == 0
  {
  }

  lemma {:induction false} TakeReleases(r: Flow.Receiver)
    ensures Held(Flow.Take(r).0.fragments) <= Held(r.fragments)
  {
    hide Held, Flow.MessageData;
    DataReleases(r);
    var x := Flow.MessageData(r);
    HeldShrinks(x.r.fragments, {if x.r.fragments == map[] then 0 else MinOf(x.r.fragments.Keys)});
  }

  lemma {:induction false} DataReleases(r: Flow.Receiver)
    ensures Held(Flow.MessageData(r).r.fragments) <= Held(r.fragments)
    decreases |r.fragments|
  {
    hide Held, Flow.FindEnd, Flow.Assemble;
    var m := r.fragments;
    if m == map[] || MinOf(m.Keys) > r.s.csn {
    } else {
      var k := MinOf(m.Keys);
      Shorter(m, k);
      HeldShrinks(m, {k});
      if m[k].control == End || m[k].control == Middle {
        DataReleases(r.(fragments := m - {k}));
      } else if m[k].control == Begin {
        var scan := Flow.FindEnd(m, r.s.csn, k);
        HeldShrinks(m, Flow.Span(m, k, if scan.Complete? then scan.last + 1 else if scan.Broken? then scan.next else 0));
      }
    }
  }

  lemma ApplyConserves(s: Session, op: Op)
    requires Conserved(s)
    ensures Conserved(Apply(s, op))
  {
    hide Held, HeldBy, Flow.Take, Flow.AddFragment;
    if op.OpenFlow? {
      if op.id !in s.flows {
        HeldByWith(s.flows, op.id, Flow.OPEN);
        HeldNone();
        assert s.flows - {op.id} == s.flows;
      }
    } else if op.id in s.flows {
      var r := s.flows[op.id];
      match op {
        case Receive(id, f) =>
          if !r.rejected {
            ReceiveFits(r, f, s.total);
            ReplaceKeeps(s, id, Flow.AddFragment(r, f, s.total).0);
          }
        case Deliver(id) =>
          TakeReleases(r);
          ReplaceKeeps(s, id, Flow.Take(r).0);
        case DropUntil(id, sn) =>
          HeldShrinks(r.fragments, set k | k in r.fragments && k <= sn);
          ReplaceKeeps(s, id, r.(fragments := DropFragments(r.fragments, sn)));
        case CloseFlow(id) =>
          HeldByWithout(s.flows, id);
        case OpenFlow(_) =>
      }
    }
  }

  function RunOps(s: Session, ops: seq<Op>): Session
    decreases |ops|
  {
    if ops == [] then s else RunOps(Apply(s, ops[0]), ops[1..])
  }

  /** Whatever the peer sends on however many flows, the shared counter is the
      sum of what the flows hold, and both reassembly limits hold throughout. */
  lemma {:induction false} BytesConserved(s: Session, ops: seq<Op>)
    requires Conserved(s)
    ensures Conserved(RunOps(s, ops))
    decreases |ops|
  {
    hide Conserved, Apply;
    if ops == [] {
    } else {
      ApplyConserves(s, ops[0]);
      BytesConserved(Apply(s, ops[0]), ops[1..]);
    }
  }
}
