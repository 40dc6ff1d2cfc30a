/** The requester's side of a shared-object request of several events: what it is sent,
    what it then holds, and exactly when that is the server's map. It is taken to read
    what is sent to it before the answer of the call, in that order. */
module SharedRequester {
  import opened IntegerSets
  import opened OrderedKeys
  import opened SharedObjects
  import opened SharedRequests

  /** What a connection is sent, message after message. */
  function Own(pending: seq<Parcel>, c: nat): seq<Event> {
    if pending == [] then []
    else
      var p := pending[|pending| - 1];
      Own(pending[..|pending| - 1], c) + if p.to == c then p.events else []
  }

  /** The requester folds what it is sent; `acked` are the values of its accepted
      changes, in the order their Success events come. */
  function FoldOwn(copy: Properties, events: seq<Event>, acked: seq<Value>): Properties
    decreases |events|
  {
    if events == [] then copy
    else if events[0].Success? then
      if acked == [] then FoldOwn(copy, events[1..], acked)
      else FoldOwn(copy[events[0].property := acked[0]], events[1..], acked[1..])
    else FoldOwn(Fold(copy, [events[0]], NO_VALUE), events[1..], acked)
  }

  function Successes(trace: seq<Effect>): seq<Event> {
    if trace == [] then []
    else
      var e := trace[|trace| - 1];
      Successes(trace[..|trace| - 1]) + if e.Set? then [Success(e.property)] else []
  }

  function Acked(trace: seq<Effect>): seq<Value> {
    if trace == [] then []
    else
      var e := trace[|trace| - 1];
      Acked(trace[..|trace| - 1]) + if e.Set? then [e.value] else []
  }

  /** How many Success events a message list holds. */
  function Count(events: seq<Event>): nat {
    if events == [] then 0 else (if events[0].Success? then 1 else 0) + Count(events[1..])
  }

  lemma {:induction false} FoldOwnThen(copy: Properties, a: seq<Event>, b: seq<Event>, p: seq<Value>, q: seq<Value>)
    requires Count(a) == |p|
    ensures FoldOwn(copy, a + b, p + q) == FoldOwn(FoldOwn(copy, a, p), b, q)
    decreases |a|
  {
    hide Fold;
    if a == [] {
      assert a + b == b && p + q == q;
    } else {
      assert (a + b)[0] == a[0] && (a + b)[1..] == a[1..] + b;
      if a[0].Success? {
        assert (p + q)[0] == p[0] && (p + q)[1..] == p[1..] + q;
        FoldOwnThen(copy[a[0].property := p[0]], a[1..], b, p[1..], q);
      } else {
        FoldOwnThen(Fold(copy, [a[0]], NO_VALUE), a[1..], b, p, q);
      }
    }
  }

  lemma {:induction false} CountThen(a: seq<Event>, b: seq<Event>)
    ensures Count(a + b) == Count(a) + Count(b)
    decreases |a|
  {
    if a == [] {
      assert a + b == b;
    } else {
      assert (a + b)[0] == a[0] && (a + b)[1..] == a[1..] + b;
      CountThen(a[1..], b);
    }
  }

  /** The Success events with their values make exactly the changes. */
  lemma {:induction false} SuccessesFold(copy: Properties, trace: seq<Effect>)
    ensures FoldOwn(copy, Successes(trace), Acked(trace)) == Changed(copy, trace)
    ensures Count(Successes(trace)) == |Acked(trace)|
    decreases |trace|
  {
    if trace == [] {
    } else {
      var before, e := trace[..|trace| - 1], trace[|trace| - 1];
      SuccessesFold(copy, before);
      if e.Set? {
        CountThen(Successes(before), [Success(e.property)]);
        FoldOwnThen(copy, Successes(before), [Success(e.property)], Acked(before), [e.value]);
        assert [Success(e.property)][1..] == [] && [e.value][1..] == [];
      } else {
        assert Successes(before) + [] == Successes(before) && Acked(before) + [] == Acked(before);
      }
    }
  }

  /** The server's map is the changes without the properties last removed. */
  lemma {:induction false} AppliedIsChanged(values: Properties, trace: seq<Effect>)
    ensures Applied(values, trace) == Changed(values, trace) - Dropped(trace)
    decreases |trace|
  {
    if trace == [] {
    } else {
      AppliedIsChanged(values, trace[..|trace| - 1]);
    }
  }

  lemma GrownOwn(values: Properties, trace: seq<Effect>, e: Effect)
    ensures Changed(values, trace + [e])
         == if e.Set? then Changed(values, trace)[e.property := e.value] else Changed(values, trace)
    ensures Successes(trace + [e]) == Successes(trace) + if e.Set? then [Success(e.property)] else []
    ensures e.Set? ==> Dropped(trace + [e]) == Dropped(trace) - {e.property}
    ensures e.Del? ==> Dropped(trace + [e]) == Dropped(trace) + {e.property}
    ensures e.Sent? ==> Dropped(trace + [e]) == Dropped(trace)
  {
    assert (trace + [e])[..|trace + [e]| - 1] == trace;
  }

  lemma {:induction false} OwnThen(p: seq<Parcel>, q: seq<Parcel>, c: nat)
    ensures Own(p + q, c) == Own(p, c) + Own(q, c)
    decreases |q|
  {
    if q == [] {
      assert p + q == p;
    } else {
      assert (p + q)[..|p + q| - 1] == p + q[..|q| - 1];
      OwnThen(p, q[..|q| - 1], c);
    }
  }

  lemma OwnOne(p: seq<Parcel>, c: nat, events: seq<Event>)
    ensures Own(p + [Parcel(c, events)], c) == Own(p, c) + events
  {
    assert (p + [Parcel(c, events)])[..|p + [Parcel(c, events)]| - 1] == p;
  }

  lemma {:induction false} OthersAreNotOwn(clients: set<nat>, events: seq<Event>, c: nat)
    requires c !in clients
    ensures Own(Parcels(clients, events), c) == []
    decreases |clients|
  {
    if clients == {} {
    } else {
      var d := MinOf(clients);
      OthersAreNotOwn(clients - {d}, events, c);
      OwnThen([Parcel(d, events)], Parcels(clients - {d}, events), c);
    }
  }

  /** The loop's invariant for the requester, a member throughout: it has been sent, or
      is about to be, `first` and a Success for each change. */
  predicate Answering(r: Reply, c: nat, name: Key, relay: seq<Event>, values: Properties, first: seq<Event>) {
    && !r.released && Uses(r.m, c, name)
    && ValuesOf(r.m, name) == Applied(values, r.trace)
    && Own(r.pending, c) + r.ret == first + Successes(r.trace)
    && r.replacement == LastReply(r.trace, relay)
    && Dropped(r.trace) <= Changed(values, r.trace).Keys
  }

  lemma ToldAnswers(
      r: Reply, c: nat, name: Key, out: Outcome, e: Effect, relay: seq<Event>, values: Properties, first: seq<Event>,
      ret: seq<Event>, replacement: Replacement)
    requires Answering(r, c, name, relay, values, first)
    requires Uses(out.m, c, name) && out.m.objects[name].values == Effected(r.m.objects[name].values, e)
    requires e.Del? ==> e.property in r.m.objects[name].values
    requires ret == r.ret + (if e.Set? then [Success(e.property)] else [])
    requires replacement == ReplyAfter(r.replacement, e, relay)
    ensures Answering(Told(r, c, name, out, [Message(e, relay)], e).(ret := ret, replacement := replacement),
                      c, name, relay, values, first)
  {
    hide Parcels, Own, Applied, Changed, Dropped, Successes, LastReply;
    var others := Parcels(Members(r.m, name) - {c}, [Message(e, relay)]);
    OwnThen(r.pending, others, c);
    OthersAreNotOwn(Members(r.m, name) - {c}, [Message(e, relay)], c);
    Grown(values, r.trace, e, relay);
    GrownOwn(values, r.trace, e);
    AppliedIsChanged(values, r.trace);
    var tail := if e.Set? then [Success(e.property)] else [];
    assert Own(r.pending, c) + [] + (r.ret + tail) == (Own(r.pending, c) + r.ret) + tail;
    assert (first + Successes(r.trace)) + tail == first + (Successes(r.trace) + tail);
  }

  lemma FlushAnswers(r: Reply, c: nat, name: Key, relay: seq<Event>, values: Properties, first: seq<Event>)
    requires Answering(r, c, name, relay, values, first)
    ensures Answering(Flushed(r, c), c, name, relay, values, first)
  {
    hide Own, Applied, Changed, Dropped, Successes, LastReply;
    OwnOne(r.pending, c, r.ret);
  }

  lemma AskAnswers(r: Reply, c: nat, name: Key, a: Ask, relay: seq<Event>, values: Properties, first: seq<Event>)
    requires Answering(r, c, name, relay, values, first) && (relay == [Clear] || relay == [Relayed])
    requires !a.AskRelease? && (a.AskUse? ==> r.used)
    ensures Answering(HandleAsk(r, c, name, a, relay), c, name, relay, values, first)
    ensures HandleAsk(r, c, name, a, relay).used == r.used
  {
    hide Parcels, Own, Applied, Changed, Dropped, Successes, LastReply;
    match a {
      case AskChange(property, value) =>
        var q := Flushed(r, c);
        FlushAnswers(r, c, name, relay, values, first);
        var out := HandleChange(q.m, c, name, property, value);
        if out.reply != [] {
          ToldAnswers(q, c, name, out, Set(property, value), relay, values, first, q.ret + out.reply, q.replacement);
        }
      case AskRemove(property) =>
        var out := HandleRemove(r.m, c, name, property);
        if out.reply != [] {
          ToldAnswers(r, c, name, out, Del(property), relay, values, first, r.ret, Replaced(out.reply));
        }
      case AskSend =>
        ToldAnswers(r, c, name, HandleSend(r.m, c, name), Sent, relay, values, first, r.ret, Replaced(relay));
      case AskUse =>
      case AskClear =>
      case AskOther =>
    }
  }

  lemma {:induction false} AllAnswer(
      r: Reply, c: nat, name: Key, asks: seq<Ask>, relay: seq<Event>, values: Properties, first: seq<Event>)
    requires Answering(r, c, name, relay, values, first) && (relay == [Clear] || relay == [Relayed])
    requires AskRelease !in asks && (r.used || AskUse !in asks)
    ensures Answering(HandleAll(r, c, name, asks, relay), c, name, relay, values, first)
    decreases |asks|
  {
    hide HandleAsk, Own, Applied, Changed, Dropped, Successes, LastReply;
    if asks == [] {
    } else {
      AskAnswers(r, c, name, asks[0], relay, values, first);
      AllAnswer(HandleAsk(r, c, name, asks[0], relay), c, name, asks[1..], relay, values, first);
    }
  }

  /** All that the requester is sent, in order: `first`, the Success events and the
      reply that replaces the others, if any. */
  lemma OwnStream(r: Reply, c: nat, name: Key, relay: seq<Event>, values: Properties, first: seq<Event>)
    requires Answering(r, c, name, relay, values, first)
    ensures Own(Outgoing(r, c), c) + ResultOf(r)
         == first + Successes(r.trace) + if r.replacement.Replaced? then r.replacement.events else []
  {
    hide Own, Applied, Changed, Dropped, Successes, LastReply;
    OwnOne(r.pending, c, r.ret);
  }

  lemma {:induction false} ReplyShape(trace: seq<Effect>, relay: seq<Event>)
    requires relay == [Clear] || relay == [Relayed]
    ensures var reply := LastReply(trace, relay);
            reply.Replaced? ==> |reply.events| == 1 && (reply.events[0] in relay || reply.events[0].Removed?)
    decreases |trace|
  {
    if trace == [] {
    } else {
      ReplyShape(trace[..|trace| - 1], relay);
    }
  }

  /** The reply that replaces the others takes what `Lost` says. */
  lemma ReplyFolds(copy: Properties, trace: seq<Effect>, relay: seq<Event>)
    requires relay == [Clear] || relay == [Relayed]
    ensures var reply := LastReply(trace, relay);
            FoldOwn(copy, if reply.Replaced? then reply.events else [], []) == copy - Lost(copy, reply)
  {
    hide Fold, LastReply;
    ReplyShape(trace, relay);
    var reply := LastReply(trace, relay);
    if reply.Replaced? {
      var e := reply.events[0];
      assert reply.events == [e] && [e][1..] == [];
      FoldOne(copy, e, NO_VALUE);
    }
  }

  lemma StreamFolds(copy: Properties, first: seq<Event>, trace: seq<Effect>, relay: seq<Event>, values: Properties)
    requires Count(first) == 0 && FoldOwn(copy, first, []) == values && (relay == [Clear] || relay == [Relayed])
    ensures var reply := LastReply(trace, relay);
            var events := first + Successes(trace) + if reply.Replaced? then reply.events else [];
            FoldOwn(copy, events, Acked(trace)) == Changed(values, trace) - Lost(Changed(values, trace), reply)
  {
    hide FoldOwn, Successes, Acked, Count, LastReply, Changed;
    var reply := LastReply(trace, relay);
    var last := if reply.Replaced? then reply.events else [];
    CountThen(first, Successes(trace));
    SuccessesFold(values, trace);
    FoldOwnThen(copy, first, Successes(trace), [], Acked(trace));
    assert [] + Acked(trace) == Acked(trace) && Acked(trace) + [] == Acked(trace);
    FoldOwnThen(copy, first + Successes(trace), last, Acked(trace), []);
    ReplyFolds(Changed(values, trace), trace, relay);
  }

  lemma SameRemainder(changed: Properties, a: set<Key>, b: set<Key>)
    requires a <= changed.Keys && b <= changed.Keys
    ensures changed - a == changed - b <==> a == b
  {
    if changed - a == changed - b {
      assert forall k | k in changed :: k in a <==> k !in changed - a;
      assert forall k | k in changed :: k in b <==> k !in changed - b;
      assert a == b;
    }
  }

  // ---- replaying the effects ---------------------------------------------------------------

  function Touched(trace: seq<Effect>): set<Key> {
    if trace == [] then {}
    else
      var e := trace[|trace| - 1];
      Touched(trace[..|trace| - 1]) + if e.Sent? then {} else {e.property}
  }

  lemma {:induction false} OnlyTouched(values: Properties, trace: seq<Effect>)
    ensures Applied(values, trace) - Touched(trace) == values - Touched(trace)
    decreases |trace|
  {
    if trace == [] {
    } else {
      var before := trace[..|trace| - 1];
      OnlyTouched(values, before);
      assert forall k | k !in Touched(trace) ::
          (k in Applied(values, before) <==> k in Applied(values, before) - Touched(before))
          && (k in values <==> k in values - Touched(before));
    }
  }

  /** Maps that differ only where the effects go, or on `apart`, end alike outside it. */
  lemma {:induction false} SameOutcome(v: Properties, w: Properties, trace: seq<Effect>, apart: set<Key>)
    requires v - (Touched(trace) + apart) == w - (Touched(trace) + apart)
    ensures Applied(v, trace) - apart == Applied(w, trace) - apart
    decreases |trace|
  {
    if trace == [] {
      assert {} + apart == apart;
    } else {
      var before, e := trace[..|trace| - 1], trace[|trace| - 1];
      var wider := if e.Sent? then apart else apart + {e.property};
      assert Touched(before) + wider == Touched(trace) + apart;
      SameOutcome(v, w, before, wider);
      SameEffect(Applied(v, before), Applied(w, before), e, apart);
    }
  }

  lemma SameEffect(v: Properties, w: Properties, e: Effect, apart: set<Key>)
    requires var wider := if e.Sent? then apart else apart + {e.property}; v - wider == w - wider
    ensures Effected(v, e) - apart == Effected(w, e) - apart
  {
    var wider := if e.Sent? then apart else apart + {e.property};
    assert forall k | k !in wider :: (k in v <==> k in v - wider) && (k in w <==> k in w - wider);
    assert forall k | k in v && k !in wider :: v[k] == (v - wider)[k];
  }

  lemma {:induction false} AppliedThen(values: Properties, p: seq<Effect>, q: seq<Effect>)
    ensures Applied(values, p + q) == Applied(Applied(values, p), q)
    decreases |q|
  {
    hide Effected;
    if q == [] {
      assert p + q == p;
    } else {
      assert (p + q)[..|p + q| - 1] == p + q[..|q| - 1];
      AppliedThen(values, p, q[..|q| - 1]);
    }
  }

  /** Effects made once more on their own outcome change nothing. */
  lemma ReplayIsIdle(values: Properties, p: seq<Effect>, q: seq<Effect>)
    ensures Applied(Applied(values, p), p + q) == Applied(values, p + q)
  {
    hide Applied, Touched;
    var once := Applied(values, p);
    OnlyTouched(values, p);
    assert Touched(p) + {} == Touched(p);
    SameOutcome(once, values, p, {});
    assert Applied(once, p) - {} == Applied(once, p) && Applied(values, p) - {} == Applied(values, p);
    AppliedThen(once, p, q);
    AppliedThen(values, p, q);
  }

  // ---- the exact condition -------------------------------------------------------------------

  /** What the requester keeps once the last replacing reply has taken its share. */
  function Kept(basis: Properties, effects: seq<Effect>, relay: seq<Event>): Properties {
    Changed(basis, effects) - Lost(Changed(basis, effects), LastReply(effects, relay))
  }

  /** The properties that are gone are the ones that reply takes. */
  predicate Settled(basis: Properties, effects: seq<Effect>, relay: seq<Event>) {
    Dropped(effects) * Changed(basis, effects).Keys == Lost(Changed(basis, effects), LastReply(effects, relay))
  }

  /** What the requester holds after a request. */
  function Mine(copy: Properties, s: Reply, c: nat): Properties {
    FoldOwn(copy, Own(Outgoing(s, c), c) + ResultOf(s), Acked(s.trace))
  }

  lemma Concludes(
      s: Reply, c: nat, name: Key, relay: seq<Event>, values: Properties, first: seq<Event>, copy: Properties,
      basis: Properties)
    requires Answering(s, c, name, relay, values, first) && (relay == [Clear] || relay == [Relayed])
    requires Count(first) == 0 && FoldOwn(copy, first, []) == basis
    requires Applied(basis, s.trace) == Applied(values, s.trace)
    ensures Mine(copy, s, c) == Kept(basis, s.trace, relay)
    ensures Mine(copy, s, c) == ValuesOf(s.m, name) <==> Settled(basis, s.trace, relay)
  {
    hide Own, FoldOwn, Successes, Acked, Count, LastReply, Applied, Changed, Dropped, Outgoing, ResultOf;
    OwnStream(s, c, name, relay, values, first);
    StreamFolds(copy, first, s.trace, relay, basis);
    AppliedIsChanged(basis, s.trace);
    var changed := Changed(basis, s.trace);
    var gone := Dropped(s.trace) * changed.Keys;
    assert changed - Dropped(s.trace) == changed - gone;
    SameRemainder(changed, gone, Lost(changed, LastReply(s.trace, relay)));
  }

  lemma StartAnswers(r: Reply, c: nat, name: Key, relay: seq<Event>)
    requires !r.released && Uses(r.m, c, name) && r.trace == [] && r.replacement.Nothing?
    ensures Answering(r, c, name, relay, ValuesOf(r.m, name), Own(r.pending, c) + r.ret)
  {
    hide Own;
  }

  /** A member's request, of any length, without a use. */
  lemma MemberExactly(m: Manager, c: nat, name: Key, asks: seq<Ask>)
    requires Uses(m, c, name) && AskUse !in asks && AskRelease !in asks
    ensures var values, effects := ValuesOf(m, name), Effects(ValuesOf(m, name), asks);
            var s := HandleAll(Fresh(m), c, name, asks, Relay(asks));
            && Mine(values, s, c) == Kept(values, effects, Relay(asks))
            && (Mine(values, s, c) == ValuesOf(s.m, name) <==> Settled(values, effects, Relay(asks)))
  {
    hide HandleAll, Mine, Kept, Settled, Effects, Applied;
    var relay := Relay(asks);
    StartAnswers(Fresh(m), c, name, relay);
    NoneOwn(c);
    AllAnswer(Fresh(m), c, name, asks, relay, ValuesOf(m, name), []);
    TraceIs(m, c, name, asks, relay);
    Concludes(HandleAll(Fresh(m), c, name, asks, relay), c, name, relay, ValuesOf(m, name), [], ValuesOf(m, name),
              ValuesOf(m, name));
  }

  lemma NoneOwn(c: nat)
    ensures Own([], c) == []
  {
  }

  lemma {:induction false} NoSuccess(keys: seq<Key>, values: Properties, copy: Properties)
    requires forall k | k in keys :: k in values
    ensures Count(Changes(keys, values)) == 0
    ensures FoldOwn(copy, Changes(keys, values), []) == Fold(copy, Changes(keys, values), NO_VALUE)
    decreases |keys|
  {
    if keys == [] {
    } else {
      var events := Changes(keys, values);
      assert events[0] == Change(keys[0], values[keys[0]]) && events[1..] == Changes(keys[1..], values);
      FoldOne(copy, events[0], NO_VALUE);
      NoSuccess(keys[1..], values, copy[keys[0] := values[keys[0]]]);
    }
  }

  /** A Use reply, whatever was held before it, leaves the whole map. */
  lemma UseReplyFolds(copy: Properties, values: Properties)
    ensures Count(UseReply(values)) == 0 && FoldOwn(copy, UseReply(values), []) == values
  {
    var keys, reply := Sorted(values.Keys), UseReply(values);
    var changes := Changes(keys, values);
    assert reply[0] == UseSuccess && reply[1..] == [Clear] + changes && reply[1..][0] == Clear && reply[1..][1..] == changes;
    FoldOne(copy, UseSuccess, NO_VALUE);
    FoldOne(copy, Clear, NO_VALUE);
    NoSuccess(keys, values, map[]);
    FoldChanges(map[], keys, values);
  }

  lemma {:induction false} AllThen(r: Reply, c: nat, name: Key, p: seq<Ask>, q: seq<Ask>, relay: seq<Event>)
    ensures HandleAll(r, c, name, p + q, relay) == HandleAll(HandleAll(r, c, name, p, relay), c, name, q, relay)
    decreases |p|
  {
    hide HandleAsk;
    if p == [] || r.released {
      assert p == [] ==> p + q == q;
    } else {
      assert (p + q)[0] == p[0] && (p + q)[1..] == p[1..] + q;
      AllThen(HandleAsk(r, c, name, p[0], relay), c, name, p[1..], q, relay);
    }
  }

  lemma FirstAsk(r: Reply, c: nat, name: Key, asks: seq<Ask>, relay: seq<Event>)
    requires asks != [] && !r.released
    ensures HandleAll(r, c, name, asks, relay)
         == HandleAll(HandleAsk(r, c, name, asks[0], relay), c, name, asks[1..], relay)
  {
  }

  /** The first use of a request. */
  function UseAt(asks: seq<Ask>): (i: nat)
    ensures i <= |asks| && AskUse !in asks[..i]
    ensures i < |asks| ==> asks[i].AskUse?
    ensures i < |asks| <==> AskUse in asks
    decreases |asks|
  {
    if asks == [] || asks[0].AskUse? then 0
    else
      var i := UseAt(asks[1..]);
      assert asks[..i + 1] == [asks[0]] + asks[1..][..i];
      1 + i
  }

  /** Short of 64 events no reply is flushed, so all of them are still to be sent. */
  lemma {:induction false} NothingFlushed(r: Reply, c: nat, name: Key, asks: seq<Ask>, relay: seq<Event>)
    requires Own(r.pending, c) == [] && |r.ret| + |asks| <= MAX_EVENTS
    requires AskUse !in asks && AskRelease !in asks
    ensures Own(HandleAll(r, c, name, asks, relay).pending, c) == []
    ensures HandleAll(r, c, name, asks, relay).used == r.used
    decreases |asks|
  {
    hide HandleAsk, Own;
    if asks == [] || r.released {
    } else {
      StillWaiting(r, c, name, asks[0], relay);
      NothingFlushed(HandleAsk(r, c, name, asks[0], relay), c, name, asks[1..], relay);
    }
  }

  lemma StillWaiting(r: Reply, c: nat, name: Key, a: Ask, relay: seq<Event>)
    requires Own(r.pending, c) == [] && |r.ret| < MAX_EVENTS && !a.AskUse? && !a.AskRelease?
    ensures var r' := HandleAsk(r, c, name, a, relay);
            Own(r'.pending, c) == [] && |r'.ret| <= |r.ret| + 1 && r'.used == r.used
  {
    hide Own, Parcels, Versioned;
    var others := Members(r.m, name) - {c};
    var message := match a {
      case AskChange(property, value) => [Change(property, value)]
      case AskRemove(property) => [Removed(property)]
      case _ => relay
    };
    OwnThen(r.pending, Parcels(others, message), c);
    OthersAreNotOwn(others, message, c);
  }

  lemma MemberTakes(m: Manager, c: nat, name: Key)
    requires Uses(m, c, name)
    ensures HandleUse(m, c, name).reply != []
  {
    hide UseReply;
  }

  /** The use reply goes before the Success events still to be sent. */
  lemma UseAnswers(r: Reply, c: nat, name: Key, relay: seq<Event>, values: Properties)
    requires Answering(r, c, name, relay, values, []) && Own(r.pending, c) == [] && !r.used
    ensures var r' := HandleAsk(r, c, name, AskUse, relay);
            && Answering(r', c, name, relay, values, UseReply(ValuesOf(r.m, name)))
            && r'.used && r'.trace == r.trace && ValuesOf(r'.m, name) == ValuesOf(r.m, name)
  {
    hide Own, HandleUse, UseReply, Applied, Changed, Dropped, Successes, LastReply;
    UseOutcome(r.m, c, name);
    MemberTakes(r.m, c, name);
    var reply := UseReply(ValuesOf(r.m, name));
    OwnOne(r.pending, c, reply);
    assert [] + r.ret == r.ret && [] + Successes(r.trace) == Successes(r.trace) && reply + [] == reply == [] + reply;
  }

  lemma JoinAnswers(m: Manager, c: nat, name: Key, relay: seq<Event>)
    requires !Uses(m, c, name) && HandleUse(m, c, name).reply != []
    ensures var r := HandleAsk(Fresh(m), c, name, AskUse, relay);
            Answering(r, c, name, relay, ValuesOf(m, name), UseReply(ValuesOf(m, name))) && r.used
  {
    hide Own, HandleUse, UseReply;
    UseOutcome(m, c, name);
    NoneOwn(c);
  }

  lemma {:induction false} OutsiderIdle(m: Manager, c: nat, name: Key, asks: seq<Ask>, relay: seq<Event>)
    requires !Uses(m, c, name) && AskUse !in asks && AskRelease !in asks
    ensures HandleAll(Fresh(m), c, name, asks, relay) == Fresh(m)
    decreases |asks|
  {
    hide HandleAsk;
    if asks == [] {
    } else {
      OutsiderStep(Fresh(m), c, name, asks[0], relay);
      OutsiderIdle(m, c, name, asks[1..], relay);
    }
  }

  /** The map the requester's copy starts from: what it held, or what its use is answered
      with, taken where the use stands in the request. */
  function Basis(m: Manager, c: nat, name: Key, asks: seq<Ask>): Properties {
    if AskUse in asks && Uses(m, c, name) then
      Applied(ValuesOf(m, name), Effects(ValuesOf(m, name), asks[..UseAt(asks)]))
    else ValuesOf(m, name)
  }

  /** A member that uses the object again in the middle of its request. */
  lemma AgainExactly(m: Manager, c: nat, name: Key, asks: seq<Ask>, copy: Properties)
    requires |asks| <= MAX_EVENTS && AskRelease !in asks && AskUse in asks && Uses(m, c, name)
    ensures var basis, effects := Basis(m, c, name, asks), RequestEffects(m, c, name, asks);
            var s := HandleAll(Fresh(m), c, name, asks, Relay(asks));
            && Mine(copy, s, c) == Kept(basis, effects, Relay(asks))
            && (Mine(copy, s, c) == ValuesOf(s.m, name) <==> Settled(basis, effects, Relay(asks)))
  {
    hide HandleAll, HandleAsk, Mine, Kept, Settled, Effects, Applied, Own, UseReply, FoldOwn, Count, Answering;
    var relay, values, i := Relay(asks), ValuesOf(m, name), UseAt(asks);
    var front, back := asks[..i], asks[i + 1..];
    assert asks == front + asks[i..] && asks[i..][0] == AskUse && asks[i..][1..] == back;
    StartAnswers(Fresh(m), c, name, relay);
    NoneOwn(c);
    assert Own(Fresh(m).pending, c) + Fresh(m).ret == [];
    AllAnswer(Fresh(m), c, name, front, relay, values, []);
    NothingFlushed(Fresh(m), c, name, front, relay);
    var r := HandleAll(Fresh(m), c, name, front, relay);
    UseAnswers(r, c, name, relay, values);
    var r' := HandleAsk(r, c, name, AskUse, relay);
    AllAnswer(r', c, name, back, relay, values, UseReply(ValuesOf(r.m, name)));
    var s := HandleAll(r', c, name, back, relay);
    AnsweringNow(r, c, name, relay, values, []);
    assert HandleAll(Fresh(m), c, name, asks, relay) == s by {
      AllThen(Fresh(m), c, name, front, asks[i..], relay);
      FirstAsk(r, c, name, asks[i..], relay);
    }
    TraceIs(m, c, name, asks, relay);
    TraceIs(m, c, name, front, relay);
    AnsweringNow(r', c, name, relay, values, UseReply(ValuesOf(r.m, name)));
    MemberTrace(r', c, name, back, relay);
    var basis := Basis(m, c, name, asks);
    ReplayIsIdle(values, r.trace, Effects(ValuesOf(r'.m, name), back));
    UseReplyFolds(copy, basis);
    Concludes(s, c, name, relay, values, UseReply(basis), copy, basis);
  }

  lemma AnsweringNow(r: Reply, c: nat, name: Key, relay: seq<Event>, values: Properties, first: seq<Event>)
    requires Answering(r, c, name, relay, values, first)
    ensures !r.released && Uses(r.m, c, name) && ValuesOf(r.m, name) == Applied(values, r.trace)
  {
  }

  /** A connection that joins somewhere in its request. */
  lemma JoinerExactly(m: Manager, c: nat, name: Key, asks: seq<Ask>, copy: Properties)
    requires AskRelease !in asks && AskUse in asks && !Uses(m, c, name) && HandleUse(m, c, name).reply != []
    ensures var values, effects := ValuesOf(m, name), RequestEffects(m, c, name, asks);
            var s := HandleAll(Fresh(m), c, name, asks, Relay(asks));
            && Mine(copy, s, c) == Kept(values, effects, Relay(asks))
            && (Mine(copy, s, c) == ValuesOf(s.m, name) <==> Settled(values, effects, Relay(asks)))
  {
    hide HandleAll, HandleAsk, HandleUse, Mine, Kept, Settled, RequestEffects, Applied, Own, UseReply, FoldOwn, Count,
         Answering;
    var relay, values, i := Relay(asks), ValuesOf(m, name), UseAt(asks);
    var front, back := asks[..i], asks[i + 1..];
    assert asks == front + asks[i..] && asks[i..][0] == AskUse && asks[i..][1..] == back;
    OutsiderIdle(m, c, name, front, relay);
    JoinAnswers(m, c, name, relay);
    var r := HandleAsk(Fresh(m), c, name, AskUse, relay);
    AllAnswer(r, c, name, back, relay, values, UseReply(values));
    var s := HandleAll(r, c, name, back, relay);
    assert HandleAll(Fresh(m), c, name, asks, relay) == s by {
      AllThen(Fresh(m), c, name, front, asks[i..], relay);
      FirstAsk(Fresh(m), c, name, asks[i..], relay);
    }
    TraceIs(m, c, name, asks, relay);
    UseReplyFolds(copy, values);
    Concludes(s, c, name, relay, values, UseReply(values), copy, values);
  }

  /** A request that opens with a use, of any length, by a member or not. */
  lemma UserExactly(m: Manager, c: nat, name: Key, asks: seq<Ask>, copy: Properties)
    requires HandleUse(m, c, name).reply != [] && AskRelease !in asks
    ensures var values, all := ValuesOf(m, name), [AskUse] + asks;
            var effects := Effects(values, asks);
            var s := HandleAll(Fresh(m), c, name, all, Relay(all));
            && Mine(copy, s, c) == Kept(values, effects, Relay(all))
            && (Mine(copy, s, c) == ValuesOf(s.m, name) <==> Settled(values, effects, Relay(all)))
  {
    hide HandleAll, HandleAsk, HandleUse, Mine, Kept, Settled, Applied, Own, UseReply, FoldOwn, Count, Answering;
    var all, relay, values := [AskUse] + asks, Relay([AskUse] + asks), ValuesOf(m, name);
    assert all[0] == AskUse && all[1..] == asks;
    NoneOwn(c);
    if Uses(m, c, name) {
      StartAnswers(Fresh(m), c, name, relay);
      assert Own(Fresh(m).pending, c) + Fresh(m).ret == [];
      UseAnswers(Fresh(m), c, name, relay, values);
    } else {
      JoinAnswers(m, c, name, relay);
    }
    var r := HandleAsk(Fresh(m), c, name, AskUse, relay);
    AllAnswer(r, c, name, asks, relay, values, UseReply(values));
    FirstAsk(Fresh(m), c, name, all, relay);
    TraceIs(m, c, name, all, relay);
    OpeningUse(m, c, name, asks);
    UseReplyFolds(copy, values);
    Concludes(HandleAll(r, c, name, asks, relay), c, name, relay, values, UseReply(values), copy, values);
  }

  lemma OpeningUse(m: Manager, c: nat, name: Key, asks: seq<Ask>)
    requires HandleUse(m, c, name).reply != []
    ensures RequestEffects(m, c, name, [AskUse] + asks) == Effects(ValuesOf(m, name), asks)
  {
    hide HandleUse;
    var all := [AskUse] + asks;
    assert all[0] == AskUse && all[1..] == asks;
    assert Applied(ValuesOf(m, name), []) == ValuesOf(m, name);
  }

  /** Any request that can arrive, which is at most 64 events, from a connection that is
      a member or joins by it: the requester ends with its basis and its changes, less
      what the last replacing reply takes. That is the server's map if and only if the
      properties last removed, of those it then knows, are the ones that reply takes. All
      of it is read off the request and the server's state before it. */
  lemma RequesterExactly(m: Manager, c: nat, name: Key, asks: seq<Ask>, copy: Properties)
    requires |asks| <= MAX_EVENTS && AskRelease !in asks
    requires Uses(m, c, name) || (AskUse in asks && HandleUse(m, c, name).reply != [])
    requires Uses(m, c, name) ==> copy == ValuesOf(m, name)
    ensures var basis, effects := Basis(m, c, name, asks), RequestEffects(m, c, name, asks);
            var s := HandleAll(Fresh(m), c, name, asks, Relay(asks));
            && Mine(copy, s, c) == Kept(basis, effects, Relay(asks))
            && (Mine(copy, s, c) == ValuesOf(s.m, name) <==> Settled(basis, effects, Relay(asks)))
  {
    hide HandleAll, HandleUse, Mine, Kept, Settled, Effects, Applied;
    if !Uses(m, c, name) {
      JoinerExactly(m, c, name, asks, copy);
    } else if AskUse in asks {
      AgainExactly(m, c, name, asks, copy);
    } else {
      MemberExactly(m, c, name, asks);
    }
  }

  // ---- when it holds ---------------------------------------------------------------------------

  /** No Clear, and no removal but in the last place. */
  predicate Tidy(asks: seq<Ask>) {
    AskClear !in asks && forall i | 0 <= i < |asks| - 1 :: !asks[i].AskRemove?
  }

  predicate DeletesLast(effects: seq<Effect>) {
    forall i | 0 <= i < |effects| - 1 :: !effects[i].Del?
  }

  lemma TidyRest(asks: seq<Ask>)
    requires Tidy(asks) && asks != []
    ensures Tidy(asks[1..]) && (|asks| > 1 ==> !asks[0].AskRemove?)
  {
    assert forall i | 0 <= i < |asks[1..]| :: asks[1..][i] == asks[i + 1];
  }

  lemma {:induction false} TidyEffects(values: Properties, asks: seq<Ask>)
    requires Tidy(asks)
    ensures DeletesLast(Effects(values, asks))
    decreases |asks|
  {
    hide Applied;
    if asks == [] || asks[0].AskRelease? {
    } else {
      TidyRest(asks);
      var first := Accepted(values, asks[0]);
      TidyEffects(Applied(values, first), asks[1..]);
    }
  }

  lemma {:induction false} TidyJoining(takes: bool, values: Properties, asks: seq<Ask>)
    requires Tidy(asks)
    ensures DeletesLast(Joining(takes, values, asks))
    decreases |asks|
  {
    hide Effects;
    if asks == [] || asks[0].AskRelease? {
    } else {
      TidyRest(asks);
      TidyEffects(values, asks[1..]);
      TidyJoining(takes, values, asks[1..]);
    }
  }

  lemma {:induction false} NoneDropped(effects: seq<Effect>)
    requires forall i | 0 <= i < |effects| :: !effects[i].Del?
    ensures Dropped(effects) == {}
    ensures var reply := LastReply(effects, [Relayed]); reply.Replaced? ==> reply.events == [Relayed]
    decreases |effects|
  {
    if effects == [] {
    } else {
      NoneDropped(effects[..|effects| - 1]);
    }
  }

  lemma TidySettles(basis: Properties, effects: seq<Effect>)
    requires DeletesLast(effects)
    ensures Settled(basis, effects, [Relayed])
  {
    hide Changed;
    if effects == [] || !effects[|effects| - 1].Del? {
      NoneDropped(effects);
    } else {
      NoneDropped(effects[..|effects| - 1]);
    }
  }

  /** A request with no Clear and no removal but as its last event leaves its sender with
      exactly the server's map, wherever it uses the object. */
  lemma RequesterConverges(m: Manager, c: nat, name: Key, asks: seq<Ask>, copy: Properties)
    requires |asks| <= MAX_EVENTS && AskRelease !in asks && Tidy(asks)
    requires Uses(m, c, name) || (AskUse in asks && HandleUse(m, c, name).reply != [])
    requires Uses(m, c, name) ==> copy == ValuesOf(m, name)
    ensures var s := HandleAll(Fresh(m), c, name, asks, Relay(asks)); Mine(copy, s, c) == ValuesOf(s.m, name)
  {
    hide HandleAll, HandleUse, Mine, Kept, Settled, Effects, Joining, Applied, Basis;
    RequesterExactly(m, c, name, asks, copy);
    TidyEffects(ValuesOf(m, name), asks);
    TidyJoining(HandleUse(m, c, name).reply != [], ValuesOf(m, name), asks);
    TidySettles(Basis(m, c, name, asks), RequestEffects(m, c, name, asks));
  }

  // ---- when it fails ---------------------------------------------------------------------------

  lemma FirstEffect(values: Properties, a: Ask, rest: seq<Ask>)
    requires !a.AskRelease?
    ensures Effects(values, [a] + rest) == Accepted(values, a) + Effects(Applied(values, Accepted(values, a)), rest)
  {
    hide Applied, Accepted;
    assert ([a] + rest)[0] == a && ([a] + rest)[1..] == rest;
  }

  lemma OneEffect(values: Properties, e: Effect)
    ensures Applied(values, [e]) == Effected(values, e)
  {
    assert [e][..0] == [];
  }

  /** What two effects leave: the server's map, and the requester's. */
  lemma TwoKept(values: Properties, d: Effect, e: Effect)
    ensures Applied(values, [d, e]) == Effected(Effected(values, d), e)
    ensures Changed(values, [d, e])
         == var one := if d.Set? then values[d.property := d.value] else values;
            if e.Set? then one[e.property := e.value] else one
    ensures LastReply([d, e], [Relayed]) == ReplyAfter(ReplyAfter(Nothing, d, [Relayed]), e, [Relayed])
  {
    assert [] + [d] == [d] && [d] + [e] == [d, e];
    Grown(values, [], d, [Relayed]);
    Grown(values, [d], e, [Relayed]);
    GrownOwn(values, [], d);
    GrownOwn(values, [d], e);
  }

  /** Two removals in one request: the requester is told of the second only. */
  lemma TwoRemovals(m: Manager, c: nat, name: Key, a: Key, b: Key)
    requires Uses(m, c, name) && a != b && a in ValuesOf(m, name) && b in ValuesOf(m, name)
    ensures var values := ValuesOf(m, name);
            var s := HandleAll(Fresh(m), c, name, [AskRemove(a), AskRemove(b)], [Relayed]);
            && ValuesOf(s.m, name) == values - {a, b}
            && Mine(values, s, c) == values - {b} != values - {a, b}
  {
    hide HandleAll, Mine, Effects, Applied, Changed, LastReply;
    var values, asks := ValuesOf(m, name), [AskRemove(a)] + [AskRemove(b)];
    assert asks == [AskRemove(a), AskRemove(b)];
    OneEffect(values, Del(a));
    FirstEffect(values, AskRemove(a), [AskRemove(b)]);
    LastEffect(values - {a}, AskRemove(b));
    assert [Del(a)] + [Del(b)] == [Del(a), Del(b)];
    TwoKept(values, Del(a), Del(b));
    MemberExactly(m, c, name, asks);
    MemberValues(Fresh(m), c, name, asks, [Relayed]);
    assert Lost(values, Replaced([Removed(b)])) == {b};
  }

  lemma LastEffect(values: Properties, a: Ask)
    requires !a.AskRelease?
    ensures Effects(values, [a]) == Accepted(values, a)
  {
    hide Applied, Accepted;
    assert [a][1..] == [];
    assert Accepted(values, a) + [] == Accepted(values, a);
  }

  /** The other way round: a removal and then a change of the same property. The server
      keeps it and the requester, which reads the Removed last, drops it. */
  lemma RemovedThenChanged(m: Manager, c: nat, name: Key, a: Key, value: Value)
    requires Uses(m, c, name) && a in ValuesOf(m, name) && value.replayable && |ValuesOf(m, name)| <= MAX_PROPERTIES
    ensures var values := ValuesOf(m, name);
            var s := HandleAll(Fresh(m), c, name, [AskRemove(a), AskChange(a, value)], [Relayed]);
            ValuesOf(s.m, name) == values[a := value] && Mine(values, s, c) == values - {a}
  {
    hide HandleAll, Mine, Effects, Applied, Changed, LastReply;
    var values, asks := ValuesOf(m, name), [AskRemove(a)] + [AskChange(a, value)];
    assert asks == [AskRemove(a), AskChange(a, value)];
    Shorter(values, a);
    OneEffect(values, Del(a));
    FirstEffect(values, AskRemove(a), [AskChange(a, value)]);
    LastEffect(values - {a}, AskChange(a, value));
    assert [Del(a)] + [Set(a, value)] == [Del(a), Set(a, value)];
    TwoKept(values, Del(a), Set(a, value));
    MemberExactly(m, c, name, asks);
    MemberValues(Fresh(m), c, name, asks, [Relayed]);
    assert Lost(values[a := value], Replaced([Removed(a)])) == {a};
    assert values[a := value] - {a} == values - {a} && (values - {a})[a := value] == values[a := value];
  }

  /** A use reply that overtakes: the property is new, changed and removed again, and the
      reply that says so is read before the Success of the change. */
  lemma OvertakingUse(m: Manager, c: nat, name: Key, a: Key, value: Value)
    requires Uses(m, c, name) && a !in ValuesOf(m, name) && value.replayable && |ValuesOf(m, name)| < MAX_PROPERTIES
    ensures var values := ValuesOf(m, name);
            var s := HandleAll(Fresh(m), c, name, [AskChange(a, value), AskRemove(a), AskUse, AskSend], [Relayed]);
            ValuesOf(s.m, name) == values && Mine(values, s, c) == values[a := value]
  {
    hide HandleAll, Mine, Effects, Applied, Changed, LastReply, UseAt;
    var values, asks := ValuesOf(m, name), [AskChange(a, value)] + ([AskRemove(a)] + ([AskUse] + [AskSend]));
    assert asks == [AskChange(a, value), AskRemove(a), AskUse, AskSend];
    UseThird(asks);
    assert asks[..2] == [AskChange(a, value)] + [AskRemove(a)];
    OvertakenEffects(values, a, value);
    assert Basis(m, c, name, asks) == values;
    ChangedAround(values, a, value);
    assert Relay(asks) == [Relayed];
    RequesterExactly(m, c, name, asks, values);
    MemberValues(Fresh(m), c, name, asks, [Relayed]);
    assert Lost(values[a := value], Replaced([Relayed])) == {};
  }

  lemma UseThird(asks: seq<Ask>)
    requires |asks| == 4 && !asks[0].AskUse? && !asks[1].AskUse? && asks[2].AskUse?
    ensures UseAt(asks) == 2
  {
    assert asks[1..][0] == asks[1] && asks[1..][1..][0] == asks[2];
  }

  lemma OvertakenEffects(values: Properties, a: Key, value: Value)
    requires a !in values && value.replayable && |values| < MAX_PROPERTIES
    ensures var front := [AskChange(a, value)] + [AskRemove(a)];
            var all := [AskChange(a, value)] + ([AskRemove(a)] + ([AskUse] + [AskSend]));
            && Effects(values, front) == [Set(a, value), Del(a)]
            && Effects(values, all) == [Set(a, value), Del(a), Sent]
            && Applied(values, [Set(a, value), Del(a)]) == values
  {
    hide Effects, Applied;
    var more := values[a := value];
    OneEffect(values, Set(a, value));
    OneEffect(more, Del(a));
    assert more - {a} == values;
    FirstEffect(values, AskChange(a, value), [AskRemove(a)]);
    LastEffect(more, AskRemove(a));
    FirstEffect(values, AskChange(a, value), [AskRemove(a)] + ([AskUse] + [AskSend]));
    FirstEffect(more, AskRemove(a), [AskUse] + [AskSend]);
    FirstEffect(values, AskUse, [AskSend]);
    NothingApplied(values);
    LastEffect(values, AskSend);
    TwoKept(values, Set(a, value), Del(a));
  }

  lemma ChangedAround(values: Properties, a: Key, value: Value)
    requires a !in values
    ensures var effects := [Set(a, value), Del(a), Sent];
            && Changed(values, effects) == values[a := value] && LastReply(effects, [Relayed]) == Replaced([Relayed])
            && Applied(values, effects) == values
  {
    hide Changed, LastReply, Applied;
    var effects := [Set(a, value), Del(a)];
    TwoKept(values, Set(a, value), Del(a));
    Grown(values, effects, Sent, [Relayed]);
    GrownOwn(values, effects, Sent);
    assert effects + [Sent] == [Set(a, value), Del(a), Sent];
    assert values[a := value] - {a} == values;
  }

  lemma {:induction false} MemberValues(r: Reply, c: nat, name: Key, asks: seq<Ask>, relay: seq<Event>)
    requires Uses(r.m, c, name) && !r.released && AskRelease !in asks
    ensures ValuesOf(HandleAll(r, c, name, asks, relay).m, name)
         == Applied(ValuesOf(r.m, name), Effects(ValuesOf(r.m, name), asks))
    decreases |asks|
  {
    hide HandleAsk, Applied, Accepted, ValuesOf;
    var values := ValuesOf(r.m, name);
    if asks == [] {
      AppliedThen(values, [], []);
      NothingApplied(values);
    } else {
      var r', first := HandleAsk(r, c, name, asks[0], relay), Accepted(values, asks[0]);
      MemberStep(r, c, name, asks[0], relay);
      MemberValues(r', c, name, asks[1..], relay);
      AppliedThen(values, first, Effects(Applied(values, first), asks[1..]));
    }
  }

  lemma NothingApplied(values: Properties)
    ensures Applied(values, []) == values
  {
  }
}
