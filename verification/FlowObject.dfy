/** The flow object itself: the operations of `rtmfp/flow.cpp` working in place
    on the fragment store and the sequence manager, each proved to do what its
    specification in `Flow` says. */
module FlowObject {
  import opened Bytes
  import opened IntegerSets
  import opened SeqManager
  import opened FragmentStore
  import Flow
  import FlowSender

  /** The copying loop of `create_message`. */
  method Copy(m: Fragments, from: nat, to: nat) returns (data: seq<byte>)
    requires from in m && to in m && from <= to
    ensures data == Flow.Assemble(m, from, to)
  {
    var i := from;
    data := m[i].data;
    while i < to
      invariant i in m && from <= i <= to
      invariant Flow.Assemble(m, from, to) == data + Flow.Assemble(m, i + 1, to)
    {
      var later := Above(m.Keys, i);
      assert to in later;
      var next := MinOf(later);
      assert forall x | x in m && x > i :: x in later;
      SkipAbsent(m, i + 1, next, to);
      i := next;
      data := data + m[i].data;
    }
  }

  class FlowBuffer {
    const store: Store
    const manager: SequenceManager
    const sender: bool
    var rejected: bool
    var nextSn: nat
    var fragmented: bool  // the message last handed out was reassembled

    constructor (sender: bool, shared: Total?)
      ensures Valid() && Receiving() == Flow.OPEN && nextSn == 1
      ensures this.sender == sender && store.shared == shared && fresh(store) && fresh(manager)
    {
      store := new Store(shared);
      manager := new SequenceManager();
      this.sender := sender;
      rejected, nextSn, fragmented := false, 1, false;
    }

    ghost predicate Valid()
      reads this, store, store.shared, manager
    {
      store.Charged() && manager.Valid()
    }

    ghost function Receiving(): Flow.Receiver
      reads this, store, manager
    {
      Flow.Receiver(manager.State(), store.fragments, rejected)
    }

    /** `add_fragment`: over a cap a sender refuses the new fragment, a receiver
        is rejected and frees what it holds. */
    method AddFragment(f: Fragment) returns (result: Result)
      requires Valid()
      modifies this`rejected, store, store.shared, manager
      ensures Valid()
      ensures (Receiving(), result) ==
              if sender then Flow.Queue(old(Receiving()), f, old(store.SharedBytes()))
              else Flow.AddFragment(old(Receiving()), f, old(store.SharedBytes()))
      ensures store.shared != null ==> store.Others() == old(store.Others())
    {
      hide AddSeq, Safe;
      if |store.fragments| >= Flow.MAX_BUFFERED_FRAGMENTS
        || store.bytes + |f.data| > Flow.MAX_BUFFERED_BYTES
        || store.SharedBytes() + |f.data| > Flow.MAX_SESSION_BYTES
      {
        if sender {
          return Duplicate;
        }
        store.Clear();
        rejected := true;
        return Duplicate;
      }
      result := manager.Insert(f.sn);
      if result != Duplicate {
        store.Assign(f.sn, f);
      }
    }

    /** The scan of `message_data` for the end of the message that begins at `k`. */
    method FindEnd(k: nat) returns (scan: Flow.Scan)
      ensures scan == Flow.FindEnd(store.fragments, manager.csn, k)
    {
      hide MinOf, Above;
      var m, j := store.fragments, k;
      while true
        invariant Flow.FindEnd(m, manager.csn, k) == Flow.FindEnd(m, manager.csn, j)
        decreases |Above(m.Keys, j)|
      {
        var later := Above(m.Keys, j);
        if later == {} || MinOf(later) > manager.csn {
          return Flow.Incomplete;
        }
        var next := MinOf(later);
        Flow.AboveIn(m.Keys, j, next);
        if m[next].control == End {
          return Flow.Complete(next);
        }
        if m[next].control != Middle {
          return Flow.Broken(next);
        }
        Flow.LaterShrinks(m.Keys, j, next);
        j := next;
      }
    }

    /** `create_message`: copy the fragments from `from` to `to` out in order and
        erase them. */
    method CreateMessage(from: nat, to: nat) returns (data: seq<byte>)
      requires Valid() && from in store.fragments && to in store.fragments && from <= to
      modifies store, store.shared
      ensures Valid()
      ensures data == Flow.Assemble(old(store.fragments), from, to)
      ensures store.fragments == old(store.fragments) - Flow.Span(old(store.fragments), from, to + 1)
      ensures store.shared != null ==> store.Others() == old(store.Others())
    {
      hide Flow.Assemble;
      data := Copy(store.fragments, from, to);
      store.EraseRange(from, to + 1);
    }

    /** The branch of `message_data` for a begin fragment at the front: a complete
        run is assembled, a run cut short by another message is dropped. */
    method TakeBegun(k: nat) returns (message: Flow.Option<seq<byte>>)
      requires Valid() && k in store.fragments
      modifies this`fragmented, store, store.shared
      ensures Valid()
      ensures store.shared != null ==> store.Others() == old(store.Others())
      ensures var scan := Flow.FindEnd(old(store.fragments), manager.csn, k);
              var m := old(store.fragments);
              if scan.Complete? then
                && message == Flow.Some(Flow.Assemble(m, k, scan.last)) && fragmented
                && store.fragments == m - Flow.Span(m, k, scan.last + 1)
              else
                && message == Flow.None && fragmented == old(fragmented)
                && store.fragments == if scan.Broken? then m - Flow.Span(m, k, scan.next) else m
    {
      hide Safe, Flow.FindEnd, Flow.Assemble;
      var scan := FindEnd(k);
      FoundLater(store.fragments, manager.csn, k);
      match scan {
        case Incomplete => return Flow.None;
        case Complete(last) =>
          var data := CreateMessage(k, last);
          fragmented := true;
          return Flow.Some(data);
        case Broken(next) =>
          store.EraseRange(k, next);
          return Flow.None;
      }
    }

    /** `message_data` */
    method MessageData() returns (message: Flow.Option<seq<byte>>)
      requires Valid()
      modifies this`fragmented, store, store.shared
      ensures Valid()
      ensures var x := Flow.MessageData(old(Receiving()));
              && Receiving() == x.r && message == x.message
              && fragmented == if message.None? then old(fragmented) else x.fragmented
      ensures store.shared != null ==> store.Others() == old(store.Others())
    {
      hide MinOf, Safe, Held, Flow.MessageData, Flow.FindEnd, Flow.Assemble, Flow.Span;
      while store.fragments != map[] && MinOf(store.fragments.Keys) <= manager.csn
        invariant Valid() && fragmented == old(fragmented) && rejected == old(rejected)
        invariant Flow.MessageData(Receiving()) == Flow.MessageData(old(Receiving()))
        invariant store.shared != null ==> store.Others() == old(store.Others())
        decreases |store.fragments|
      {
        var k := MinOf(store.fragments.Keys);
        var f := store.fragments[k];
        FrontOf(Receiving());
        if f.control == Whole {
          fragmented := false;
          return Flow.Some(f.data);
        }
        if f.control == Begin {
          message := TakeBegun(k);
          return;
        }
        Shorter(store.fragments, k);
        var _ := store.Erase(k);
      }
      NoFront(Receiving());
      return Flow.None;
    }

    /** `remove_last_message` */
    method RemoveLastMessage()
      requires Valid() && (!fragmented ==> store.fragments != map[])
      modifies this`fragmented, store, store.shared
      ensures Valid() && !fragmented
      ensures Receiving() == Flow.RemoveLastMessage(Flow.Ready(old(Receiving()), Flow.None, old(fragmented)))
      ensures store.shared != null ==> store.Others() == old(store.Others())
    {
      if !fragmented {
        var _ := store.Erase(MinOf(store.fragments.Keys));
      } else {
        fragmented := false;
      }
    }

    /** `add_and_fragment_data`, on a sending flow */
    method AddAndFragmentData(data: seq<byte>) returns (count: nat)
      requires Valid() && sender && store.shared == null
      requires |data| <= 0xFFFF * Flow.FRAGMENT_SIZE  // the count is a 16-bit field
      modifies this`rejected, this`nextSn, store, manager
      ensures Valid()
      ensures Receiving() == Flow.QueueAll(old(Receiving()), Flow.Pieces(data, old(nextSn), true))
      ensures nextSn == old(nextSn) + |Flow.Pieces(data, old(nextSn), true)| == old(nextSn) + count
      ensures var pieces := Flow.Pieces(data, old(nextSn), true);
              old(FlowSender.Sending(Receiving(), nextSn)) ==>
                (FlowSender.Queued(Receiving(), pieces) <==> FlowSender.RoomFor(old(Receiving()), pieces, old(nextSn)))
    {
      hide Safe, Held, Flow.Queue, Flow.QueueAll, Flow.Pieces, FlowSender.Sending, FlowSender.Queued, FlowSender.RoomFor;
      FlowSender.PiecesQueued(Receiving(), data, nextSn);
      count := 1;
      ghost var pieces := Flow.Pieces(data, nextSn, true);
      if |data| <= Flow.FRAGMENT_SIZE {
        var sn := nextSn;
        nextSn := nextSn + 1;
        var _ := AddFragment(Fragment(sn, data, Whole, false));
        OnePiece(data, sn);
        OneQueued(old(Receiving()), pieces);
      } else {
        count := (|data| + Flow.FRAGMENT_SIZE - 1) / Flow.FRAGMENT_SIZE;
        PieceCount(data, nextSn, true);
        var kind, size := Begin, Flow.FRAGMENT_SIZE;
        ghost var left := pieces;
        for i := 0 to count
          invariant Valid() && nextSn == old(nextSn) + i
          invariant left == pieces[i..] && |pieces| == count
          invariant Flow.QueueAll(old(Receiving()), pieces) == Flow.QueueAll(Receiving(), left)
          invariant i < count ==> kind == (if i == 0 then Begin else if i == count - 1 then End else Middle)
          invariant i < count ==> size == if i == count - 1 then |data| - i * Flow.FRAGMENT_SIZE else Flow.FRAGMENT_SIZE
        {
          PieceAt(data, old(nextSn), true, i);
          Flow.PiecesMarks(data, old(nextSn), true);
          QueueNext(Receiving(), left);
          var sn := nextSn;
          nextSn := nextSn + 1;
          var piece := data[i * Flow.FRAGMENT_SIZE..i * Flow.FRAGMENT_SIZE + size];
          var _ := AddFragment(Fragment(sn, piece, kind, false));
          left := left[1..];
          if i != count - 2 {
            kind := Middle;
          } else {
            kind := End;
            size := |data| - (i + 1) * Flow.FRAGMENT_SIZE;
          }
        }
        QueueNext(Receiving(), left);
      }
    }
  }

  /** What `Flow.MessageData` does with the fragment in front. */
  lemma FrontOf(r: Flow.Receiver)
    requires r.fragments != map[] && MinOf(r.fragments.Keys) <= r.s.csn
    ensures var m, k := r.fragments, MinOf(r.fragments.Keys);
            var scan := Flow.FindEnd(m, r.s.csn, k);
            Flow.MessageData(r) ==
            match m[k].control
            case Whole => Flow.Ready(r, Flow.Some(m[k].data), false)
            case End => Flow.MessageData(r.(fragments := m - {k}))
            case Middle => Flow.MessageData(r.(fragments := m - {k}))
            case Begin =>
              if scan.Complete? then
                Flow.Ready(r.(fragments := m - Flow.Span(m, k, scan.last + 1)), Flow.Some(Flow.Assemble(m, k, scan.last)), true)
              else Flow.Ready(r.(fragments := if scan.Broken? then m - Flow.Span(m, k, scan.next) else m), Flow.None, false)
  {
  }

  lemma NoFront(r: Flow.Receiver)
    requires r.fragments == map[] || MinOf(r.fragments.Keys) > r.s.csn
    ensures Flow.MessageData(r) == Flow.Ready(r, Flow.None, false)
  {
  }

  lemma SkipAbsent(m: Fragments, k: nat, next: nat, last: nat)
    requires k <= next && forall x | k <= x < next :: x !in m
    ensures next <= last ==> Flow.Assemble(m, k, last) == Flow.Assemble(m, next, last)
    decreases next - k
  {
    if k >= next || next > last {
    } else {
      SkipAbsent(m, k + 1, next, last);
      assert [] + Flow.Assemble(m, k + 1, last) == Flow.Assemble(m, k + 1, last);
    }
  }

  lemma {:induction false} FoundLater(m: Fragments, csn: nat, k: nat)
    ensures var f := Flow.FindEnd(m, csn, k); f.Complete? ==> f.last in m && f.last > k
    decreases |Above(m.Keys, k)|
  {
    hide MinOf;
    var later := Above(m.Keys, k);
    if later == {} {
    } else {
      var j := MinOf(later);
      if j <= csn && m[j].control == Middle {
        Flow.LaterShrinks(m.Keys, k, j);
        FoundLater(m, csn, j);
      }
    }
  }

  lemma OnePiece(data: seq<byte>, sn: nat)
    requires |data| <= Flow.FRAGMENT_SIZE
    ensures Flow.Pieces(data, sn, true) == [Fragment(sn, data, Whole, false)]
  {
  }

  lemma QueueNext(r: Flow.Receiver, f: seq<Fragment>)
    ensures f == [] ==> Flow.QueueAll(r, f) == r
    ensures f != [] ==> Flow.QueueAll(r, f) == Flow.QueueAll(Flow.Queue(r, f[0], 0).0, f[1..])
  {
  }

  lemma OneQueued(r: Flow.Receiver, f: seq<Fragment>)
    requires |f| == 1
    ensures Flow.QueueAll(r, f) == Flow.Queue(r, f[0], 0).0
  {
    assert f[1..] == [];
  }

  lemma {:induction false} PieceCount(data: seq<byte>, sn: nat, first: bool)
    requires |data| >= 1
    ensures |Flow.Pieces(data, sn, first)| == (|data| + Flow.FRAGMENT_SIZE - 1) / Flow.FRAGMENT_SIZE
    decreases |data|
  {
    if |data| <= Flow.FRAGMENT_SIZE {
    } else {
      PieceCount(data[Flow.FRAGMENT_SIZE..], sn + 1, false);
    }
  }

  lemma {:induction false} PieceAt(data: seq<byte>, sn: nat, first: bool, i: nat)
    requires |data| >= 1 && i < |Flow.Pieces(data, sn, first)|
    ensures var p := Flow.Pieces(data, sn, first);
            var at := i * Flow.FRAGMENT_SIZE;
            var size := if i == |p| - 1 then |data| - at else Flow.FRAGMENT_SIZE;
            && 0 <= size && at + size <= |data|
            && p[i].sn == sn + i && p[i].data == data[at..at + size] && !p[i].inFlight
    decreases |data|
  {
    if |data| <= Flow.FRAGMENT_SIZE || i <= 0 {
    } else {
      var tail := data[Flow.FRAGMENT_SIZE..];
      PieceAt(tail, sn + 1, false, i - 1);
      assert Flow.Pieces(data, sn, first)[i] == Flow.Pieces(tail, sn + 1, false)[i - 1];
    }
  }
}
