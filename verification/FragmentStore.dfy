/** The buffered fragments of a flow and their byte accounting (`fragment` and
    `fragment_store` of `rtmfp/flow.h`). A store counts its own bytes and charges
    a total shared by every receiving flow of the session. */
module FragmentStore {
  import opened Bytes
  import opened IntegerSets

  /** Fragment control, section 2.3.11 of RFC 7016. */
  datatype Control = Whole | Begin | End | Middle

  datatype Fragment = Fragment(sn: nat, data: seq<byte>, control: Control, inFlight: bool)

  type Fragments = map<nat, Fragment>

  /** The bytes a map of fragments holds. */
  function Held(m: Fragments): nat
    decreases |m|
  {
    if m == map[] then 0
    else
      var k := MinOf(m.Keys);
      Shorter(m, k);
      |m[k].data| + Held(m - {k})
  }

  lemma {:induction false} HeldWithout(m: Fragments, k: nat)
    requires k in m
    ensures Held(m) == |m[k].data| + Held(m - {k})
    decreases |m|
  {
    var first := MinOf(m.Keys);
    if k == first {
    } else {
      Shorter(m, first);
      HeldWithout(m - {first}, k);
      var t := m - {k};
      assert first in t.Keys && MinOf(t.Keys) == first by {
        assert t.Keys <= m.Keys;
      }
      assert t - {first} == m - {first} - {k};
    }
  }

  lemma HeldWith(m: Fragments, k: nat, f: Fragment)
    ensures Held(m[k := f]) == Held(m - {k}) + |f.data|
  {
    HeldWithout(m[k := f], k);
    assert m[k := f] - {k} == m - {k};
  }

  lemma {:induction false} HeldShrinks(m: Fragments, gone: set<nat>)
    ensures Held(m - gone) <= Held(m)
    decreases |m|
  {
    if m.Keys * gone != {} {
      var k :| k in m.Keys * gone;
      HeldWithout(m, k);
      Shorter(m, k);
      HeldShrinks(m - {k}, gone);
      assert m - {k} - gone == m - gone;
    } else {
      assert forall k | k in m :: k !in gone || k in m.Keys * gone;
      assert m - gone == m;
    }
  }

  // ---- in place -------------------------------------------------------------------

  class Total {
    var n: nat
    constructor ()
      ensures n == 0
    {
      n := 0;
    }
  }

  class Store {
    var fragments: Fragments
    var bytes: nat
    const shared: Total?

    constructor (shared: Total?)
      ensures Valid() && fragments == map[] && this.shared == shared
    {
      fragments, bytes := map[], 0;
      this.shared := shared;
    }

    /** The byte count cannot drift from the map it describes. */
    predicate Valid()
      reads this
    {
      bytes == Held(fragments)
    }

    /** The shared total includes this store's bytes. */
    predicate Charged()
      reads this, shared
    {
      Valid() && (shared != null ==> shared.n >= bytes)
    }

    function SharedBytes(): nat
      reads this, shared
    {
      if shared != null then shared.n else 0
    }

    /** What the other stores charge; no operation here touches it. */
    ghost function Others(): int
      reads this, shared
    {
      SharedBytes() - bytes
    }

    method Charge(n: nat)
      modifies this`bytes, shared
      ensures bytes == old(bytes) + n
      ensures shared != null ==> shared.n == old(shared.n) + n
    {
      bytes := bytes + n;
      if shared != null {
        shared.n := shared.n + n;
      }
    }

    method Release(n: nat)
      requires n <= bytes && (shared != null ==> n <= shared.n)
      modifies this`bytes, shared
      ensures bytes == old(bytes) - n
      ensures shared != null ==> shared.n == old(shared.n) - n
    {
      bytes := bytes - n;
      if shared != null {
        shared.n := shared.n - n;
      }
    }

    method Assign(k: nat, f: Fragment)
      requires Charged()
      modifies this, shared
      ensures Charged() && fragments == old(fragments)[k := f]
      ensures shared != null ==> Others() == old(Others())
    {
      HeldWith(fragments, k, f);
      if k in fragments {
        HeldWithout(fragments, k);
        Release(|fragments[k].data|);
      } else {
        assert fragments - {k} == fragments;
      }
      Charge(|f.data|);
      fragments := fragments[k := f];
    }

    method Erase(k: nat) returns (found: bool)
      requires Charged()
      modifies this, shared
      ensures Charged() && fragments == old(fragments) - {k}
      ensures found <==> k in old(fragments)
      ensures shared != null ==> Others() == old(Others())
    {
      if k !in fragments {
        assert fragments - {k} == fragments;
        return false;
      }
      HeldWithout(fragments, k);
      Release(|fragments[k].data|);
      fragments := fragments - {k};
      return true;
    }

    /** Erase the keys from `from` up to but not including `to`, in order. */
    method EraseRange(from: nat, to: nat)
      requires Charged()
      modifies this, shared
      ensures Charged()
      ensures fragments == old(fragments) - (set k | k in old(fragments) && from <= k < to)
      ensures shared != null ==> Others() == old(Others())
    {
      var todo := set k | k in fragments && from <= k < to;
      ghost var all := todo;
      while todo != {}
        invariant todo <= all && todo <= fragments.Keys
        invariant Charged()
        invariant fragments == old(fragments) - (all - todo)
        invariant shared != null ==> Others() == old(Others())
        decreases |todo|
      {
        var k := MinOf(todo);
        var _ := Erase(k);
        assert all - (todo - {k}) == (all - todo) + {k};
        todo := todo - {k};
      }
      assert all - {} == all;
    }

    method Clear()
      requires Charged()
      modifies this, shared
      ensures Charged() && fragments == map[]
      ensures shared != null ==> Others() == old(Others())
    {
      Release(bytes);
      fragments := map[];
    }
  }
}
