/** Exactly when an AMF0 value reads back: every strict array in it needs three
    bytes behind its count, because the reader wants seven behind the marker and
    otherwise returns an empty array without consuming the count. */
module AmfExact {
  import opened Bytes
  import opened OrderedKeys
  import opened U29
  import opened AmfValue
  import opened AmfReader
  import opened AmfGraph
  import opened AmfRoundTrip

  /** The read failed, or left a short stretch that starts inside the value. */
  predicate Stuck<T>(r: Out<T>, rest: seq<byte>) {
    r.Fail? || (|rest| < |r.rest| <= 6 && r.rest[0] == 0)
  }

  /** Such a stretch looks like a number cut short. */
  lemma TooShort(b: seq<byte>, s: State)
    requires 1 <= |b| <= 6 && b[0] == 0
    ensures Read0(b, s).Fail?
  {
  }

  lemma {:induction false} ItemsCost(v: Value, i: nat)
    requires v.Composite? && Fits(v, Zero) && i <= |v.children|
    ensures |Items(v, Zero, i)| >= |v.children| - i
    decreases |v.children| - i
  {
    if i >= |v.children| {
    } else {
      ItemsCost(v, i + 1);
    }
  }

  /** With fewer than three bytes behind the count, the count is left unread. */
  lemma CountLeft(v: Value, rest: seq<byte>, s: State)
    requires v.Composite? && v.kind.StrictArray0? && Fits(v, Zero) && |Items(v, Zero, 0)| + |rest| < 3
    ensures Stuck(Typed0(KindMarker(v.kind), Body(v, Zero) + rest, s), rest)
  {
    hide Items;
    StrictBody(v, rest);
    ItemsCost(v, 0);
    var n := |v.children|;
    assert n < 3;
    var b := Be32(n) + (Items(v, Zero, 0) + rest);
    assert b[0] == 0;
  }

  lemma {:induction false} StrictStuck(v: Value, rest: seq<byte>, s: State)
    requires Fits(v, Zero) && Inv(s) && Within(v, Zero, s) && !Room(v, |rest|)
    ensures Stuck(Read0(Write(v, Zero) + rest, s), rest)
    decreases v, 2
  {
    hide Inv, Typed0, Body, Items, HeightFrom, NodesFrom, StringsFrom, RoomFrom, Fits;
    var c := Charged(Deeper(s));
    DeeperKeeps(s);
    var b := Write(v, Zero) + rest;
    assert b[1..] == Body(v, Zero) + rest;
    if |Items(v, Zero, 0)| + |rest| < 3 {
      CountLeft(v, rest, c);
    } else {
      BodyStuck(v, rest, c);
    }
  }

  lemma {:induction false} BodyStuck(v: Value, rest: seq<byte>, s: State)
    requires v.Composite? && v.kind.StrictArray0? && Fits(v, Zero) && Paid(s) && WithinFrom(v, Zero, 0, s)
    requires |Items(v, Zero, 0)| + |rest| >= 3 && !RoomFrom(v, 0, |rest|)
    ensures Stuck(Typed0(KindMarker(v.kind), Body(v, Zero) + rest, s), rest)
    decreases v, 1
  {
    hide Inv, Grows, TablesKept, Fits, NodesFrom, StringsFrom, HeightFrom, Items, Items0, RoomFrom;
    StrictBody(v, rest);
    var n, items := |v.children|, Items(v, Zero, 0) + rest;
    assert Body(v, Zero) + rest == Be32(n) + items;
    ReadsBe32(n, items);
    RegisterKeeps0(s);
    ItemsStuck(v, 0, rest, Registered0(s), []);
  }

  lemma {:induction false} ItemsStuck(v: Value, i: nat, rest: seq<byte>, s: State, addrs: seq<nat>)
    requires v.Composite? && v.kind.StrictArray0? && Fits(v, Zero) && i <= |v.children| && Inv(s)
    requires WithinFrom(v, Zero, i, s) && !RoomFrom(v, i, |rest|)
    ensures Stuck(Items0(|v.children| - i, Items(v, Zero, i) + rest, s, addrs), rest)
    decreases v, 0, |v.children| - i
  {
    hide Inv, Grows, Fits, Denotes, Nodes, Strings, Height, NodesFrom, StringsFrom, HeightFrom, Write, Items, Read0,
         Items0, Fine, Room;
    var b := Items(v, Zero, i) + rest;
    Items0Unfolds(|v.children| - i, b, s, addrs);
    ItemsUnfold(v, Zero, i);
    var c := v.children[i];
    var tail := Items(v, Zero, i + 1) + rest;
    assert b == Write(c, Zero) + tail;
    MeasureStep(v, Zero, i);
    ChildFits(v, Zero, i);
    var r := Read0(b, s);
    if Room(c, |tail|) {
      RoundTripAny(c, Zero, tail, s);
      AnyKeeps(b, s, Zero);
      ItemsStuck(v, i + 1, rest, r.s, addrs + [r.value]);
    } else {
      StrictStuck(c, tail, s);
      if r.Ok? {
        Items0Unfolds(|v.children| - i - 1, r.rest, r.s, addrs + [r.value]);
        if i + 1 < |v.children| {
          TooShort(r.rest, r.s);
        } else {
          ItemsUnfold(v, Zero, i + 1);
        }
      }
    }
  }

  /** An AMF0 value within the budgets reads back, with what follows it left over, if
      and only if every strict array in it has its three bytes. */
  lemma RoundTripExactly(v: Value, rest: seq<byte>, s: State)
    requires Fits(v, Zero) && Inv(s) && Within(v, Zero, s)
    ensures Reads(v, Zero, Read0(Write(v, Zero) + rest, s), rest, s) <==> Room(v, |rest|)
  {
    hide Inv, Fits, Denotes, Room, Read0, Write;
    if Room(v, |rest|) {
      RoundTripAny(v, Zero, rest, s);
    } else {
      StrictStuck(v, rest, s);
    }
  }

  /** A value that holds no strict array, or has three bytes behind it, reads back. */
  lemma RoundTripWithRoom(v: Value, rest: seq<byte>, s: State)
    requires Fits(v, Zero) && Inv(s) && Within(v, Zero, s)
    requires |rest| >= 3 || !(v.Composite? && v.kind.StrictArray0?)
    ensures Reads(v, Zero, Read0(Write(v, Zero) + rest, s), rest, s)
  {
    if |rest| >= 3 {
      RoomEnough(v, |rest|);
    }
    RoundTripAny(v, Zero, rest, s);
  }

  /** An empty strict array at the end of the input: its count is left over. */
  lemma EmptyArrayExample()
    ensures var v := Composite(StrictArray0, [], []);
            && Fits(v, Zero) && Write(v, Zero) == [10, 0, 0, 0, 0]
            && Read0(Write(v, Zero), FRESH).Ok? && Read0(Write(v, Zero), FRESH).rest == [0, 0, 0, 0]
  {
    var v := Composite(StrictArray0, [], []);
    assert Items(v, Zero, 0) == [];
    assert Body(v, Zero) == Be32(0) + ([] + []);
    assert Write(v, Zero) == [10] + [0, 0, 0, 0];
    var b := Write(v, Zero);
    assert b[0] == 10 && b[1..] == [0, 0, 0, 0];
    var r := ReadStrictArray0([0, 0, 0, 0], Charged(Deeper(FRESH)));
    assert r.Ok? && r.rest == [0, 0, 0, 0];
    assert Typed0(10, [0, 0, 0, 0], Charged(Deeper(FRESH))) == r;
  }
}
