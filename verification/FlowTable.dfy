/** A session's receiving flows as objects that share one byte counter: each operation
    on one flow is proved to be the step `FlowSession.Apply` describes, so the counter
    every store charges and releases on its own is the sum over all of them. */
module FlowTable {
  import opened Bytes
  import opened IntegerSets
  import opened FragmentStore
  import opened FlowObject
  import opened FlowSession
  import SeqManager
  import Flow

  /** The objects of one flow are its own. */
  predicate Apart(a: FlowBuffer, b: FlowBuffer) {
    a != b && a.store != b.store && a.manager != b.manager
  }

  class Table {
    const total: Total
    var flows: map<nat, FlowBuffer>

    constructor ()
      ensures Valid() && State() == NEW && fresh(total) && Repr() == {}
    {
      total := new Total();
      flows := map[];
    }

    ghost function Repr(): set<object>
      reads this
    {
      (set id | id in flows :: flows[id] as object) + (set id | id in flows :: flows[id].store as object)
      + (set id | id in flows :: flows[id].manager as object)
    }

    ghost predicate Separate()
      reads this
    {
      && (forall id | id in flows :: flows[id].store.shared == total && !flows[id].sender)
      && (forall a, b | a in flows && b in flows && a != b :: Apart(flows[a], flows[b]))
    }

    ghost predicate Sound()
      reads this, Repr()
    {
      forall id | id in flows :: flows[id].store.Valid() && flows[id].manager.Valid()
    }

    ghost function Flows(): map<nat, Flow.Receiver>
      reads this, Repr()
    {
      map id | id in flows :: flows[id].Receiving()
    }

    ghost predicate Valid()
      reads this, total, Repr()
    {
      Separate() && Sound() && Conserved(State())
    }

    ghost function State(): Session
      reads this, total, Repr()
    {
      Session(Flows(), total.n)
    }

    /** The counter covers any one flow. */
    lemma CoversOne(id: nat)
      requires Valid() && id in flows
      ensures flows[id].Valid()
    {
      hide Held, HeldBy;
      HeldByWithout(Flows(), id);
    }

    /** One flow has moved on, keeping to its own objects and leaving the others'
        share of the counter alone: that is a `Replace`. */
    twostate lemma OneMoved(id: nat)
      requires old(Valid()) && id in flows && flows == old(flows)
      requires forall d | d in flows && d != id :: Still(flows[d])
      requires flows[id].Valid() && flows[id].store.Others() == old(flows[id].store.Others())
      ensures Separate() && Sound() && State() == Replace(old(State()), id, flows[id].Receiving())
    {
      hide Held, HeldBy, Conserved, FlowBuffer.Receiving, SeqManager.Safe, Apart, Still;
      forall d | d in flows && d != id
        ensures flows[d].Receiving() == old(flows[d].Receiving()) && flows[d].store.Valid() && flows[d].manager.Valid()
      {
        StillSame(flows[d]);
      }
      assert Flows() == old(Flows())[id := flows[id].Receiving()];
      BytesOf(flows[id]);
    }

    twostate lemma BytesOf(f: FlowBuffer)
      requires f.Valid() && old(f.store.Valid()) && f.store.shared == total
      requires f.store.Others() == old(f.store.Others())
      ensures total.n == old(total.n) - Held(old(f.Receiving()).fragments) + Held(f.Receiving().fragments)
    {
      hide Held, SeqManager.Safe;
    }

    /** A new flow joins with nothing charged. */
    twostate lemma OneJoined(id: nat, new f: FlowBuffer)
      requires old(Valid()) && id !in old(flows) && flows == old(flows)[id := f] && total.n == old(total.n)
      requires fresh(f) && fresh(f.store) && fresh(f.manager) && f.Valid() && f.store.shared == total && !f.sender
      requires forall d | d in old(flows) :: Still(flows[d])
      ensures Separate() && Sound() && Flows() == old(Flows())[id := f.Receiving()]
    {
      hide Held, HeldBy, Conserved, FlowBuffer.Receiving, SeqManager.Safe, Still;
      forall d | d in old(flows)
        ensures flows[d].Receiving() == old(flows[d].Receiving()) && flows[d].store.Valid() && flows[d].manager.Valid()
        ensures Apart(flows[d], f) && Apart(f, flows[d])
      {
        StillSame(flows[d]);
      }
    }

    /** `create_receiving_flow` */
    method Open(id: nat)
      requires Valid()
      modifies this`flows
      ensures Valid() && State() == Apply(old(State()), OpenFlow(id)) && fresh(Repr() - old(Repr()))
    {
      hide Held, HeldBy, Conserved, SeqManager.Safe, FlowBuffer.Receiving, Flows, Separate, Sound;
      ApplyConserves(State(), OpenFlow(id));
      Listed(id);
      if id !in flows {
        var f := new FlowBuffer(false, total);
        flows := flows[id := f];
        OneJoined(id, f);
      }
    }

    lemma Listed(id: nat)
      ensures id in Flows() <==> id in flows
      ensures id in flows ==> Flows()[id] == flows[id].Receiving()
    {
      hide FlowBuffer.Receiving;
    }

    /** The flow's own `add_fragment`: the other flows are untouched. */
    method AddTo(id: nat, flow: FlowBuffer, f: Fragment)
      requires Separate() && id in flows && flow == flows[id] && flow.Valid()
      modifies total, flow`rejected, flow.store, flow.manager
      ensures forall d | d in flows && d != id :: Still(flows[d])
      ensures flows[id].Valid() && flows[id].store.Others() == old(flows[id].store.Others())
      ensures flows[id].Receiving() == Flow.AddFragment(old(flows[id].Receiving()), f, old(total.n)).0
    {
      hide Held, Flow.AddFragment, SeqManager.Safe;
      var _ := flows[id].AddFragment(f);
      forall d | d in flows && d != id
        ensures Still(flows[d])
      {
        assert Apart(flows[d], flows[id]);
      }
    }

    /** `add_fragment`, unless the flow was rejected */
    method ReceiveOn(id: nat, f: Fragment)
      requires Valid()
      modifies total, Repr()
      ensures flows == old(flows) && Valid() && State() == Apply(old(State()), Receive(id, f))
    {
      hide Held, HeldBy, Conserved, Replace, Flow.AddFragment, SeqManager.Safe, FlowBuffer.Receiving, FlowBuffer.Valid,
           Flows, Separate, Sound, Still, Store.Others;
      ApplyConserves(State(), Receive(id, f));
      Listed(id);
      if id !in flows {
        return;
      }
      RejectedIs(flows[id]);
      if !flows[id].rejected {
        CoversOne(id);
        AddTo(id, flows[id], f);
        OneMoved(id);
      }
    }

    /** The flow's own `message_data` and `remove_last_message`. */
    method TakeFrom(id: nat, flow: FlowBuffer) returns (message: Flow.Option<seq<byte>>)
      requires Separate() && id in flows && flow == flows[id] && flow.Valid()
      modifies total, flow`fragmented, flow.store
      ensures forall d | d in flows && d != id :: Still(flows[d])
      ensures flows[id].Valid() && flows[id].store.Others() == old(flows[id].store.Others())
      ensures (flows[id].Receiving(), message) == Flow.Take(old(flows[id].Receiving()))
    {
      hide Held, SeqManager.Safe, Flow.MessageData;
      ReadyFront(flows[id].Receiving());
      message := flows[id].MessageData();
      if message.Some? {
        flows[id].RemoveLastMessage();
      }
      forall d | d in flows && d != id
        ensures Still(flows[d])
      {
        assert Apart(flows[d], flows[id]);
      }
    }

    /** One turn of the delivery loop */
    method DeliverFrom(id: nat) returns (message: Flow.Option<seq<byte>>)
      requires Valid()
      modifies total, Repr()
      ensures flows == old(flows) && Valid() && State() == Apply(old(State()), Deliver(id))
      ensures message == if id in flows then Flow.Take(old(State()).flows[id]).1 else Flow.None
    {
      hide Held, HeldBy, Conserved, Replace, Flow.Take, SeqManager.Safe, FlowBuffer.Receiving, FlowBuffer.Valid,
           Flows, Separate, Sound, Still, Store.Others;
      ApplyConserves(State(), Deliver(id));
      Listed(id);
      if id !in flows {
        return Flow.None;
      }
      CoversOne(id);
      message := TakeFrom(id, flows[id]);
      OneMoved(id);
    }

    /** The flow's own `remove_fragments_until_seq`. */
    method DropFrom(id: nat, sn: nat)
      requires Separate() && id in flows && flows[id].Valid()
      modifies total, flows[id].store
      ensures forall d | d in flows && d != id :: Still(flows[d])
      ensures flows[id].Valid() && flows[id].store.Others() == old(flows[id].store.Others())
      ensures var r := old(flows[id].Receiving());
              flows[id].Receiving() == r.(fragments := DropFragments(r.fragments, sn))
    {
      hide Held, SeqManager.Safe;
      flows[id].store.EraseRange(0, sn + 1);
      forall d | d in flows && d != id
        ensures Still(flows[d])
      {
        assert Apart(flows[d], flows[id]);
      }
    }

    method DropOn(id: nat, sn: nat)
      requires Valid()
      modifies total, Repr()
      ensures flows == old(flows) && Valid() && State() == Apply(old(State()), DropUntil(id, sn))
    {
      hide Held, HeldBy, Conserved, Replace, SeqManager.Safe, FlowBuffer.Receiving, FlowBuffer.Valid,
           Flows, Separate, Sound, Still, Store.Others;
      ApplyConserves(State(), DropUntil(id, sn));
      Listed(id);
      if id in flows {
        CoversOne(id);
        DropFrom(id, sn);
        OneMoved(id);
      }
    }

    /** The flow is destroyed, and its store gives back what it holds. */
    method Close(id: nat)
      requires Valid()
      modifies this`flows, total, Repr()
      ensures Valid() && State() == Apply(old(State()), CloseFlow(id)) && Repr() <= old(Repr())
    {
      hide Held, HeldBy, Conserved, Replace, SeqManager.Safe, FlowBuffer.Receiving, FlowBuffer.Valid,
           Flows, Separate, Sound, Still, Store.Others;
      ApplyConserves(State(), CloseFlow(id));
      Listed(id);
      if id in flows {
        CoversOne(id);
        ClearOf(id);
        flows := flows - {id};
        OneGone(id);
      }
    }

    method ClearOf(id: nat)
      requires Separate() && id in flows && flows[id].Valid()
      modifies total, flows[id].store
      ensures forall d | d in flows && d != id :: Still(flows[d])
      ensures total.n == old(total.n) - Held(old(flows[id].Receiving()).fragments)
    {
      hide Held, SeqManager.Safe;
      HeldNone();
      flows[id].store.Clear();
      forall d | d in flows && d != id
        ensures Still(flows[d])
      {
        assert Apart(flows[d], flows[id]);
      }
    }

    twostate lemma OneGone(id: nat)
      requires old(Valid()) && id in old(flows) && flows == old(flows) - {id}
      requires forall d | d in flows :: Still(flows[d])
      ensures Separate() && Sound() && Flows() == old(Flows()) - {id}
    {
      hide Held, HeldBy, Conserved, FlowBuffer.Receiving, SeqManager.Safe, Still, Apart;
      forall d | d in flows
        ensures flows[d].Receiving() == old(flows[d].Receiving()) && flows[d].store.Valid() && flows[d].manager.Valid()
      {
        StillSame(flows[d]);
      }
    }
  }

  twostate predicate Still(f: FlowBuffer)
    reads f, f.store, f.manager
  {
    unchanged(f) && unchanged(f.store) && unchanged(f.manager)
  }

  twostate lemma StillSame(f: FlowBuffer)
    requires Still(f)
    ensures f.Receiving() == old(f.Receiving()) && f.store.Valid() == old(f.store.Valid())
    ensures f.manager.Valid() == old(f.manager.Valid())
  {
    hide Held, SeqManager.Safe;
  }

  lemma RejectedIs(f: FlowBuffer)
    ensures f.Receiving().rejected == f.rejected
  {
  }

  /** A message that was not reassembled is still at the front. */
  lemma {:induction false} ReadyFront(r: Flow.Receiver)
    ensures var x := Flow.MessageData(r); x.message.Some? && !x.fragmented ==> x.r.fragments != map[]
    decreases |r.fragments|
  {
    hide MinOf, Flow.FindEnd, Flow.Assemble;
    var m := r.fragments;
    if m == map[] || MinOf(m.Keys) > r.s.csn {
    } else {
      var k := MinOf(m.Keys);
      if m[k].control == End || m[k].control == Middle {
        Shorter(m, k);
        ReadyFront(r.(fragments := m - {k}));
      }
    }
  }
}
