/** Shared-object requests that carry a list of events (`so_manager::handle_so`): the
    replies they build up, what they send, and who still holds the server's map
    afterwards. */
module SharedRequests {
  import opened IntegerSets
  import opened OrderedKeys
  import opened SharedObjects

  /** An event of a request. The server skips AskClear and AskOther, but a relayed
      request carries them along, and a client acts on a bare Clear. */
  datatype Ask =
    | AskUse
    | AskRelease
    | AskChange(property: Key, value: Value)
    | AskRemove(property: Key)
    | AskSend
    | AskClear
    | AskOther

  /** A message queued for a connection. */
  datatype Parcel = Parcel(to: nat, events: seq<Event>)

  datatype Replacement = Nothing | Replaced(events: seq<Event>)

  /** What an accepted event did. */
  datatype Effect = Set(property: Key, value: Value) | Del(property: Key) | Sent

  /** The loop's variables: the reply being built, the one that replaces it, what is
      to be sent once the lock is released, whether the version has moved, and the
      effects so far. */
  datatype Reply = Reply(
    m: Manager,
    ret: seq<Event>,
    replacement: Replacement,
    pending: seq<Parcel>,
    used: bool,
    released: bool,
    bumped: bool,
    trace: seq<Effect>)

  function Fresh(m: Manager): Reply {
    Reply(m, [], Nothing, [], false, false, false, [])
  }

  /** What a client reads in the request when it is relayed to it. */
  function Relay(asks: seq<Ask>): seq<Event> {
    if AskClear in asks then [Clear] else [Relayed]
  }

  /** One parcel per client, in the order of the client set. */
  function Parcels(clients: set<nat>, events: seq<Event>): seq<Parcel>
    decreases |clients|
  {
    if clients == {} then []
    else
      var d := MinOf(clients);
      [Parcel(d, events)] + Parcels(clients - {d}, events)
  }

  /** `increase_version` moves a request's version once. */
  function Versioned(r: Reply, name: Key, m: Manager): Manager {
    if r.bumped then KeptVersion(r.m, name, m) else m
  }

  /** A full reply goes out before a change adds to it. */
  function Flushed(r: Reply, c: nat): Reply {
    if |r.ret| >= MAX_EVENTS then r.(pending := r.pending + [Parcel(c, r.ret)], ret := []) else r
  }

  /** The state after an accepted event, its effect and what the others are sent. */
  function Told(r: Reply, c: nat, name: Key, out: Outcome, events: seq<Event>, effect: Effect): Reply {
    r.(m := Versioned(r, name, out.m), pending := r.pending + Parcels(Members(r.m, name) - {c}, events),
       bumped := r.bumped || !effect.Sent?, trace := r.trace + [effect])
  }

  function HandleAsk(r: Reply, c: nat, name: Key, a: Ask, relay: seq<Event>): Reply {
    match a
    case AskUse =>
      if r.used then r
      else
        var out := HandleUse(r.m, c, name);
        if out.reply == [] then r.(m := out.m, used := true)
        else if r.ret == [] then r.(m := out.m, used := true, ret := out.reply)
        else r.(m := out.m, used := true, pending := r.pending + [Parcel(c, out.reply)])
    case AskRelease => r.(m := HandleRelease(r.m, c, name).m, released := true)
    case AskChange(property, value) =>
      var q := Flushed(r, c);
      var out := HandleChange(q.m, c, name, property, value);
      if out.reply == [] then q
      else
        Told(q, c, name, out, [Change(property, value)], Set(property, value)).(ret := q.ret + out.reply)
    case AskRemove(property) =>
      var out := HandleRemove(r.m, c, name, property);
      if out.reply == [] then r
      else Told(r, c, name, out, out.reply, Del(property)).(replacement := Replaced(out.reply))
    case AskSend =>
      var out := HandleSend(r.m, c, name);
      if out.reply == [] then r else Told(r, c, name, out, relay, Sent).(replacement := Replaced(relay))
    case AskClear => r
    case AskOther => r
  }

  /** The loop stops at a release. */
  function HandleAll(r: Reply, c: nat, name: Key, asks: seq<Ask>, relay: seq<Event>): Reply
    decreases |asks|
  {
    if asks == [] || r.released then r
    else HandleAll(HandleAsk(r, c, name, asks[0], relay), c, name, asks[1..], relay)
  }

  /** After the loop: a reply that a replacement displaces is sent on its own. */
  function Outgoing(r: Reply, c: nat): seq<Parcel> {
    if r.replacement.Replaced? && !r.released && r.ret != [] then r.pending + [Parcel(c, r.ret)] else r.pending
  }

  /** What the requester is answered with. */
  function ResultOf(r: Reply): seq<Event> {
    if r.released then [] else if r.replacement.Replaced? then r.replacement.events else r.ret
  }

  // ---- what the effects do to a map -----------------------------------------------------

  function Members(m: Manager, name: Key): set<nat> {
    if name in m.objects then m.objects[name].clients else {}
  }

  function ValuesOf(m: Manager, name: Key): Properties {
    if name in m.objects then m.objects[name].values else map[]
  }

  function Effected(values: Properties, e: Effect): Properties {
    match e
    case Set(property, value) => values[property := value]
    case Del(property) => values - {property}
    case Sent => values
  }

  /** The server's map after the effects. */
  function Applied(values: Properties, trace: seq<Effect>): Properties {
    if trace == [] then values else Effected(Applied(values, trace[..|trace| - 1]), trace[|trace| - 1])
  }

  /** The changes alone, which is all the requester learns from its Success events. */
  function Changed(values: Properties, trace: seq<Effect>): Properties {
    if trace == [] then values
    else
      var e, was := trace[|trace| - 1], Changed(values, trace[..|trace| - 1]);
      if e.Set? then was[e.property := e.value] else was
  }

  /** The properties whose last effect is a removal. */
  function Dropped(trace: seq<Effect>): set<Key> {
    if trace == [] then {}
    else
      var e, was := trace[|trace| - 1], Dropped(trace[..|trace| - 1]);
      match e
      case Set(property, _) => was - {property}
      case Del(property) => was + {property}
      case Sent => was
  }

  /** What the others are sent about an effect. */
  function Message(e: Effect, relay: seq<Event>): Event {
    match e
    case Set(property, value) => Change(property, value)
    case Del(property) => Removed(property)
    case Sent => if relay == [Clear] then Clear else Relayed
  }

  function MissingAfter(missing: set<Key>, values: Properties, e: Effect, relay: seq<Event>): set<Key> {
    match e
    case Set(property, _) => missing - {property}
    case Del(property) => missing - {property}
    case Sent => if relay == [Clear] then values.Keys else missing
  }

  /** The properties the others lose to a relayed Clear and do not hear of again. */
  function Missing(values: Properties, trace: seq<Effect>, relay: seq<Event>): set<Key> {
    if trace == [] then {}
    else
      var before := trace[..|trace| - 1];
      MissingAfter(Missing(values, before, relay), Applied(values, before), trace[|trace| - 1], relay)
  }

  function ReplyAfter(reply: Replacement, e: Effect, relay: seq<Event>): Replacement {
    match e
    case Set(_, _) => reply
    case Del(property) => Replaced([Removed(property)])
    case Sent => Replaced(relay)
  }

  /** The last reply that replaces the others. */
  function LastReply(trace: seq<Effect>, relay: seq<Event>): Replacement {
    if trace == [] then Nothing else ReplyAfter(LastReply(trace[..|trace| - 1], relay), trace[|trace| - 1], relay)
  }

  /** What that reply takes from the requester's copy. */
  function Lost(copy: Properties, reply: Replacement): set<Key> {
    if reply.Nothing? then {}
    else set k | k in copy && (Clear in reply.events || Removed(k) in reply.events)
  }

  lemma Grown(values: Properties, trace: seq<Effect>, e: Effect, relay: seq<Event>)
    ensures Applied(values, trace + [e]) == Effected(Applied(values, trace), e)
    ensures Missing(values, trace + [e], relay)
         == MissingAfter(Missing(values, trace, relay), Applied(values, trace), e, relay)
    ensures LastReply(trace + [e], relay) == ReplyAfter(LastReply(trace, relay), e, relay)
  {
    assert (trace + [e])[..|trace + [e]| - 1] == trace;
  }

  // ---- what a request does, from the request alone ---------------------------------------

  /** What an event does to an object that holds `values`, asked by one of its members. */
  function Accepted(values: Properties, a: Ask): seq<Effect> {
    match a
    case AskChange(property, value) =>
      if value.replayable && (property in values || |values| < MAX_PROPERTIES) then [Set(property, value)] else []
    case AskRemove(property) => if property in values then [Del(property)] else []
    case AskSend => [Sent]
    case AskUse => []
    case AskRelease => []
    case AskClear => []
    case AskOther => []
  }

  /** What a member's request does. */
  function Effects(values: Properties, asks: seq<Ask>): seq<Effect>
    decreases |asks|
  {
    if asks == [] || asks[0].AskRelease? then []
    else
      var first := Accepted(values, asks[0]);
      first + Effects(Applied(values, first), asks[1..])
  }

  /** What a request does before and after its first use, which `takes` or not. */
  function Joining(takes: bool, values: Properties, asks: seq<Ask>): seq<Effect>
    decreases |asks|
  {
    if asks == [] || asks[0].AskRelease? then []
    else if !asks[0].AskUse? then Joining(takes, values, asks[1..])
    else if takes then Effects(values, asks[1..])
    else []
  }

  function RequestEffects(m: Manager, c: nat, name: Key, asks: seq<Ask>): seq<Effect> {
    if Uses(m, c, name) then Effects(ValuesOf(m, name), asks)
    else Joining(HandleUse(m, c, name).reply != [], ValuesOf(m, name), asks)
  }

  lemma VersionedShape(r: Reply, name: Key, m: Manager)
    requires name in m.objects
    ensures var m' := Versioned(r, name, m);
            && m'.objects - {name} == m.objects - {name} && name in m'.objects
            && m'.objects[name].clients == m.objects[name].clients
            && m'.objects[name].values == m.objects[name].values
  {
  }

  lemma ToldShape(r: Reply, c: nat, name: Key, out: Outcome, events: seq<Event>, e: Effect)
    requires Uses(r.m, c, name) && Uses(out.m, c, name)
    requires out.m.objects[name].values == Effected(r.m.objects[name].values, e)
    ensures var r' := Told(r, c, name, out, events, e);
            && Uses(r'.m, c, name) && r'.trace == r.trace + [e] && r'.released == r.released
            && ValuesOf(r'.m, name) == Applied(ValuesOf(r.m, name), [e])
  {
    hide Parcels, Versioned;
    VersionedShape(r, name, out.m);
    assert [e][..0] == [];
  }

  /** One event of a member's request. */
  predicate Stepped(r: Reply, r': Reply, c: nat, name: Key, e: seq<Effect>) {
    && Uses(r'.m, c, name) && r'.released == r.released && r'.trace == r.trace + e
    && ValuesOf(r'.m, name) == Applied(ValuesOf(r.m, name), e)
  }

  lemma ChangeStep(r: Reply, c: nat, name: Key, property: Key, value: Value, relay: seq<Event>)
    requires Uses(r.m, c, name)
    ensures var a := AskChange(property, value);
            Stepped(r, HandleAsk(r, c, name, a, relay), c, name, Accepted(ValuesOf(r.m, name), a))
  {
    hide Parcels, Told;
    var q := Flushed(r, c);
    var out := HandleChange(q.m, c, name, property, value);
    if out.reply != [] {
      ToldShape(q, c, name, out, [Change(property, value)], Set(property, value));
    }
  }

  lemma RemoveStep(r: Reply, c: nat, name: Key, property: Key, relay: seq<Event>)
    requires Uses(r.m, c, name)
    ensures var a := AskRemove(property);
            Stepped(r, HandleAsk(r, c, name, a, relay), c, name, Accepted(ValuesOf(r.m, name), a))
  {
    hide Parcels, Told;
    var out := HandleRemove(r.m, c, name, property);
    if out.reply != [] {
      ToldShape(r, c, name, out, out.reply, Del(property));
    }
  }

  lemma SendStep(r: Reply, c: nat, name: Key, relay: seq<Event>)
    requires Uses(r.m, c, name)
    ensures Stepped(r, HandleAsk(r, c, name, AskSend, relay), c, name, [Sent])
  {
    hide Parcels, Told;
    ToldShape(r, c, name, HandleSend(r.m, c, name), relay, Sent);
  }

  lemma UseStep(r: Reply, c: nat, name: Key, relay: seq<Event>)
    requires Uses(r.m, c, name)
    ensures Stepped(r, HandleAsk(r, c, name, AskUse, relay), c, name, [])
  {
    hide HandleUse, UseReply;
    UseOutcome(r.m, c, name);
  }

  lemma MemberStep(r: Reply, c: nat, name: Key, a: Ask, relay: seq<Event>)
    requires Uses(r.m, c, name) && !a.AskRelease?
    ensures Stepped(r, HandleAsk(r, c, name, a, relay), c, name, Accepted(ValuesOf(r.m, name), a))
  {
    match a {
      case AskUse => UseStep(r, c, name, relay);
      case AskChange(property, value) => ChangeStep(r, c, name, property, value, relay);
      case AskRemove(property) => RemoveStep(r, c, name, property, relay);
      case AskSend => SendStep(r, c, name, relay);
      case AskClear =>
      case AskOther =>
    }
  }

  /** What the loop does for a member is what the request says. */
  lemma {:induction false} MemberTrace(r: Reply, c: nat, name: Key, asks: seq<Ask>, relay: seq<Event>)
    requires Uses(r.m, c, name) && !r.released
    ensures HandleAll(r, c, name, asks, relay).trace == r.trace + Effects(ValuesOf(r.m, name), asks)
    decreases |asks|
  {
    hide HandleAsk, Applied, Accepted, ValuesOf;
    if asks == [] {
    } else if asks[0].AskRelease? {
      ReleaseStep(r, c, name, relay);
    } else {
      MemberStep(r, c, name, asks[0], relay);
      MemberTrace(HandleAsk(r, c, name, asks[0], relay), c, name, asks[1..], relay);
    }
  }

  lemma ReleaseStep(r: Reply, c: nat, name: Key, relay: seq<Event>)
    ensures var r' := HandleAsk(r, c, name, AskRelease, relay); r'.released && r'.trace == r.trace
  {
  }

  /** Before it has joined, nothing but a use does anything. */
  lemma OutsiderStep(r: Reply, c: nat, name: Key, a: Ask, relay: seq<Event>)
    requires !Uses(r.m, c, name) && !a.AskRelease? && (a.AskUse? ==> r.used)
    ensures var r' := HandleAsk(r, c, name, a, relay);
            && r'.m == r.m && r'.used == r.used && r'.released == r.released && r'.trace == r.trace
            && (r.ret == [] ==> r' == r)
  {
  }

  lemma JoinStep(r: Reply, c: nat, name: Key, relay: seq<Event>)
    requires !Uses(r.m, c, name) && !r.used
    ensures var r' := HandleAsk(r, c, name, AskUse, relay);
            && r'.used && r'.released == r.released && r'.trace == r.trace && ValuesOf(r'.m, name) == ValuesOf(r.m, name)
            && (Uses(r'.m, c, name) <==> HandleUse(r.m, c, name).reply != [])
  {
    hide HandleUse, UseReply;
    UseOutcome(r.m, c, name);
  }

  lemma {:induction false} NeverJoining(values: Properties, asks: seq<Ask>)
    ensures Joining(false, values, asks) == []
    decreases |asks|
  {
    if asks == [] {
    } else {
      NeverJoining(values, asks[1..]);
    }
  }

  lemma {:induction false} OutsiderTrace(r: Reply, c: nat, name: Key, asks: seq<Ask>, relay: seq<Event>)
    requires !Uses(r.m, c, name) && !r.released
    ensures var takes := !r.used && HandleUse(r.m, c, name).reply != [];
            HandleAll(r, c, name, asks, relay).trace == r.trace + Joining(takes, ValuesOf(r.m, name), asks)
    decreases |asks|
  {
    hide HandleAsk, HandleUse, ValuesOf, Effects;
    if asks == [] {
    } else if asks[0].AskRelease? {
      ReleaseStep(r, c, name, relay);
    } else {
      var r' := HandleAsk(r, c, name, asks[0], relay);
      if asks[0].AskUse? && !r.used {
        JoinStep(r, c, name, relay);
        if Uses(r'.m, c, name) {
          MemberTrace(r', c, name, asks[1..], relay);
        } else {
          OutsiderTrace(r', c, name, asks[1..], relay);
          NeverJoining(ValuesOf(r'.m, name), asks[1..]);
        }
      } else {
        OutsiderStep(r, c, name, asks[0], relay);
        OutsiderTrace(r', c, name, asks[1..], relay);
        NeverJoining(ValuesOf(r'.m, name), asks[1..]);
      }
    }
  }

  /** Every request does what `RequestEffects` reads off it beforehand. */
  lemma TraceIs(m: Manager, c: nat, name: Key, asks: seq<Ask>, relay: seq<Event>)
    ensures HandleAll(Fresh(m), c, name, asks, relay).trace == RequestEffects(m, c, name, asks)
  {
    hide HandleAll, HandleUse, Effects, Joining, ValuesOf;
    var effects := RequestEffects(m, c, name, asks);
    assert [] + effects == effects;
    if Uses(m, c, name) {
      MemberTrace(Fresh(m), c, name, asks, relay);
    } else {
      OutsiderTrace(Fresh(m), c, name, asks, relay);
    }
  }

  // ---- the other members -----------------------------------------------------------------

  /** Exactly the members other than `c` hold a copy, and each is the server's map
      without the missing properties. */
  predicate OthersHold(m: Manager, name: Key, c: nat, copies: Copies, missing: set<Key>) {
    && copies.Keys == Members(m, name) - {c}
    && forall d | d in copies :: copies[d] == ValuesOf(m, name) - missing
  }

  /** The other members fold what they are sent, in order. */
  function DeliverAll(copies: Copies, pending: seq<Parcel>): Copies
    decreases |pending|
  {
    if pending == [] then copies
    else
      var p := pending[0];
      DeliverAll(if p.to in copies then copies[p.to := Fold(copies[p.to], p.events, NO_VALUE)] else copies, pending[1..])
  }

  lemma {:induction false} DeliverThen(copies: Copies, p: seq<Parcel>, q: seq<Parcel>)
    ensures DeliverAll(copies, p + q) == DeliverAll(DeliverAll(copies, p), q)
    decreases |p|
  {
    hide Fold;
    if p == [] {
      assert p + q == q;
    } else {
      assert (p + q)[0] == p[0] && (p + q)[1..] == p[1..] + q;
      var copies' := if p[0].to in copies then copies[p[0].to := Fold(copies[p[0].to], p[0].events, NO_VALUE)] else copies;
      DeliverThen(copies', p[1..], q);
    }
  }

  /** Parcels to the requester touch no other copy. */
  lemma OwnParcel(copies: Copies, c: nat, events: seq<Event>)
    requires c !in copies
    ensures DeliverAll(copies, [Parcel(c, events)]) == copies
  {
    assert [Parcel(c, events)][1..] == [];
  }

  /** A message sent to some clients is folded once into each of their copies. */
  lemma {:induction false} ParcelsDeliver(copies: Copies, clients: set<nat>, events: seq<Event>)
    ensures DeliverAll(copies, Parcels(clients, events))
         == map d | d in copies :: if d in clients then Fold(copies[d], events, NO_VALUE) else copies[d]
    decreases |clients|
  {
    hide Fold;
    if clients == {} {
    } else {
      var d := MinOf(clients);
      var copies' := if d in copies then copies[d := Fold(copies[d], events, NO_VALUE)] else copies;
      ParcelsDeliver(copies', clients - {d}, events);
      var all := Parcels(clients, events);
      assert all[0] == Parcel(d, events) && all[1..] == Parcels(clients - {d}, events);
    }
  }

  /** The loop's invariant for the others: `was` is what they held before the request. */
  ghost predicate Following(r: Reply, c: nat, name: Key, relay: seq<Event>, m: Manager, was: Copies) {
    && (name in r.m.objects ==> ValuesOf(r.m, name) == Applied(ValuesOf(m, name), r.trace))
    && OthersHold(r.m, name, c, DeliverAll(was, r.pending), Missing(ValuesOf(m, name), r.trace, relay))
    && r.m.objects - {name} == m.objects - {name}
  }

  /** What the others are sent about an effect turns the copies they hold into the
      copies they should then hold. */
  lemma EffectFolded(values: Properties, trace: seq<Effect>, e: Effect, relay: seq<Event>)
    requires relay == [Clear] || relay == [Relayed]
    ensures Fold(Applied(values, trace) - Missing(values, trace, relay), [Message(e, relay)], NO_VALUE)
         == Applied(values, trace + [e]) - Missing(values, trace + [e], relay)
  {
    hide Fold, Applied, Missing, MissingAfter, Effected, Message;
    Grown(values, trace, e, relay);
    OneFolded(Applied(values, trace), Missing(values, trace, relay), e, relay);
  }

  lemma OneFolded(values: Properties, missing: set<Key>, e: Effect, relay: seq<Event>)
    ensures Fold(values - missing, [Message(e, relay)], NO_VALUE)
         == Effected(values, e) - MissingAfter(missing, values, e, relay)
  {
    hide Fold;
    FoldOne(values - missing, Message(e, relay), NO_VALUE);
    match e {
      case Set(property, value) =>
        assert (values - missing)[property := value] == values[property := value] - (missing - {property});
      case Del(property) =>
        assert values - missing - {property} == values - {property} - (missing - {property});
      case Sent =>
        assert values - values.Keys == map[];
    }
  }

  /** A message sent to every other member moves each copy on alike. */
  lemma TellAll(
      m: Manager, m': Manager, name: Key, c: nat, copies: Copies, missing: set<Key>, missing': set<Key>,
      message: seq<Event>)
    requires OthersHold(m, name, c, copies, missing) && Members(m', name) == Members(m, name)
    requires Fold(ValuesOf(m, name) - missing, message, NO_VALUE) == ValuesOf(m', name) - missing'
    ensures OthersHold(m', name, c, DeliverAll(copies, Parcels(Members(m, name) - {c}, message)), missing')
  {
    hide Fold, Parcels, DeliverAll, Members, ValuesOf;
    ParcelsDeliver(copies, Members(m, name) - {c}, message);
  }

  lemma ToldFollows(
      r: Reply, c: nat, name: Key, out: Outcome, e: Effect, relay: seq<Event>, m: Manager, was: Copies)
    requires Following(r, c, name, relay, m, was) && name in r.m.objects && (relay == [Clear] || relay == [Relayed])
    requires name in out.m.objects && out.m.objects - {name} == r.m.objects - {name}
    requires out.m.objects[name].clients == r.m.objects[name].clients
    requires out.m.objects[name].values == Effected(r.m.objects[name].values, e)
    ensures Following(Told(r, c, name, out, [Message(e, relay)], e), c, name, relay, m, was)
  {
    hide Fold, Parcels, DeliverAll, Applied, Missing, Effected, Versioned, Message, OthersHold;
    var values := ValuesOf(m, name);
    VersionedShape(r, name, out.m);
    var others := Members(r.m, name) - {c};
    Grown(values, r.trace, e, relay);
    EffectFolded(values, r.trace, e, relay);
    DeliverThen(was, r.pending, Parcels(others, [Message(e, relay)]));
    TellAll(r.m, Versioned(r, name, out.m), name, c, DeliverAll(was, r.pending), Missing(values, r.trace, relay),
            Missing(values, r.trace + [e], relay), [Message(e, relay)]);
  }

  /** A parcel of the requester's own is nothing to the others. */
  lemma OwnFollows(r: Reply, c: nat, name: Key, relay: seq<Event>, m: Manager, was: Copies, events: seq<Event>)
    requires Following(r, c, name, relay, m, was)
    ensures DeliverAll(was, r.pending + [Parcel(c, events)]) == DeliverAll(was, r.pending)
  {
    hide DeliverAll, Applied, Missing;
    DeliverThen(was, r.pending, [Parcel(c, events)]);
    OwnParcel(DeliverAll(was, r.pending), c, events);
  }

  lemma JoinFollows(r: Reply, r': Reply, c: nat, name: Key, relay: seq<Event>, m: Manager, was: Copies)
    requires Following(r, c, name, relay, m, was) && (name !in r.m.objects ==> r.trace == [] && name !in m.objects)
    requires r'.trace == r.trace && DeliverAll(was, r'.pending) == DeliverAll(was, r.pending)
    requires Members(r'.m, name) - {c} == Members(r.m, name) - {c} && ValuesOf(r'.m, name) == ValuesOf(r.m, name)
    requires r'.m.objects - {name} == r.m.objects - {name}
    ensures Following(r', c, name, relay, m, was)
  {
    hide DeliverAll, Missing;
  }

  lemma UseFollows(r: Reply, c: nat, name: Key, relay: seq<Event>, m: Manager, was: Copies)
    requires Following(r, c, name, relay, m, was) && (name !in r.m.objects ==> r.trace == [] && name !in m.objects)
    ensures Following(HandleAsk(r, c, name, AskUse, relay), c, name, relay, m, was)
  {
    hide UseReply, HandleUse, DeliverAll, Missing, Applied, Following;
    var r', out := HandleAsk(r, c, name, AskUse, relay), HandleUse(r.m, c, name);
    UseOutcome(r.m, c, name);
    OwnFollows(r, c, name, relay, m, was, out.reply);
    assert r'.m.objects - {name} == r.m.objects - {name};
    JoinFollows(r, r', c, name, relay, m, was);
  }

  lemma ReleaseFollows(r: Reply, c: nat, name: Key, relay: seq<Event>, m: Manager, was: Copies)
    requires Following(r, c, name, relay, m, was)
    ensures Following(HandleAsk(r, c, name, AskRelease, relay), c, name, relay, m, was)
  {
    hide DeliverAll, Applied, Missing;
  }

  lemma ChangeFollows(
      r: Reply, c: nat, name: Key, property: Key, value: Value, relay: seq<Event>, m: Manager, was: Copies)
    requires Following(r, c, name, relay, m, was) && (relay == [Clear] || relay == [Relayed])
    ensures Following(HandleAsk(r, c, name, AskChange(property, value), relay), c, name, relay, m, was)
  {
    hide DeliverAll, Parcels, Applied, Missing;
    var q := Flushed(r, c);
    OwnFollows(r, c, name, relay, m, was, r.ret);
    assert Following(q, c, name, relay, m, was);
    var out := HandleChange(q.m, c, name, property, value);
    if out.reply != [] {
      ToldFollows(q, c, name, out, Set(property, value), relay, m, was);
    }
  }

  lemma RemoveFollows(r: Reply, c: nat, name: Key, property: Key, relay: seq<Event>, m: Manager, was: Copies)
    requires Following(r, c, name, relay, m, was) && (relay == [Clear] || relay == [Relayed])
    ensures Following(HandleAsk(r, c, name, AskRemove(property), relay), c, name, relay, m, was)
  {
    hide DeliverAll, Parcels, Applied, Missing;
    var out := HandleRemove(r.m, c, name, property);
    if out.reply != [] {
      ToldFollows(r, c, name, out, Del(property), relay, m, was);
    }
  }

  lemma SendFollows(r: Reply, c: nat, name: Key, relay: seq<Event>, m: Manager, was: Copies)
    requires Following(r, c, name, relay, m, was) && (relay == [Clear] || relay == [Relayed])
    ensures Following(HandleAsk(r, c, name, AskSend, relay), c, name, relay, m, was)
  {
    hide DeliverAll, Parcels, Applied, Missing;
    var out := HandleSend(r.m, c, name);
    if out.reply != [] {
      ToldFollows(r, c, name, out, Sent, relay, m, was);
    }
  }

  /** Until a release the object can only appear, and nothing happens before it does. */
  predicate Untouched(r: Reply, name: Key, m: Manager) {
    !r.released && name !in r.m.objects ==> r.trace == [] && name !in m.objects
  }

  lemma StaysUntouched(r: Reply, c: nat, name: Key, a: Ask, relay: seq<Event>, m: Manager)
    requires Untouched(r, name, m) && !r.released
    ensures Untouched(HandleAsk(r, c, name, a, relay), name, m)
  {
    hide UseReply, Parcels;
  }

  lemma AskFollows(r: Reply, c: nat, name: Key, a: Ask, relay: seq<Event>, m: Manager, was: Copies)
    requires Following(r, c, name, relay, m, was) && (relay == [Clear] || relay == [Relayed])
    requires !r.released && Untouched(r, name, m)
    ensures Following(HandleAsk(r, c, name, a, relay), c, name, relay, m, was)
  {
    hide Following;
    match a {
      case AskUse => UseFollows(r, c, name, relay, m, was);
      case AskRelease => ReleaseFollows(r, c, name, relay, m, was);
      case AskChange(property, value) => ChangeFollows(r, c, name, property, value, relay, m, was);
      case AskRemove(property) => RemoveFollows(r, c, name, property, relay, m, was);
      case AskSend => SendFollows(r, c, name, relay, m, was);
      case AskClear =>
      case AskOther =>
    }
  }

  lemma {:induction false} AllFollow(
      r: Reply, c: nat, name: Key, asks: seq<Ask>, relay: seq<Event>, m: Manager, was: Copies)
    requires Following(r, c, name, relay, m, was) && (relay == [Clear] || relay == [Relayed]) && Untouched(r, name, m)
    ensures Following(HandleAll(r, c, name, asks, relay), c, name, relay, m, was)
    decreases |asks|
  {
    hide HandleAsk, Following, Untouched;
    if asks == [] || r.released {
    } else {
      AskFollows(r, c, name, asks[0], relay, m, was);
      StaysUntouched(r, c, name, asks[0], relay, m);
      AllFollow(HandleAsk(r, c, name, asks[0], relay), c, name, asks[1..], relay, m, was);
    }
  }

  /** Whatever list of events a request carries, no other object changes, and the other
      members, folding what they are sent, hold the server's map except for what a
      relayed Clear takes. So they hold exactly the map if and only if nothing is missing
      or there are no others, which the request and the map before it decide. */
  lemma OthersExactly(m: Manager, c: nat, name: Key, asks: seq<Ask>, was: Copies)
    requires OthersHold(m, name, c, was, {})
    ensures var r := HandleAll(Fresh(m), c, name, asks, Relay(asks));
            var now := DeliverAll(was, Outgoing(r, c));
            var missing := Missing(ValuesOf(m, name), RequestEffects(m, c, name, asks), Relay(asks));
            && r.m.objects - {name} == m.objects - {name}
            && OthersHold(r.m, name, c, now, missing)
            && (OthersHold(r.m, name, c, now, {}) <==> missing == {} || Members(m, name) <= {c})
  {
    hide HandleAll, DeliverAll, Missing, RequestEffects, Applied;
    var relay, values := Relay(asks), ValuesOf(m, name);
    var r := HandleAll(Fresh(m), c, name, asks, relay);
    assert Following(Fresh(m), c, name, relay, m, was) by { StartFollows(m, c, name, relay, was); }
    AllFollow(Fresh(m), c, name, asks, relay, m, was);
    OwnFollows(r, c, name, relay, m, was, r.ret);
    MissingPresent(values, r.trace, relay);
    TraceIs(m, c, name, asks, relay);
    var now, missing := DeliverAll(was, Outgoing(r, c)), Missing(values, r.trace, relay);
    SameHolders(was, Outgoing(r, c));
    if missing != {} && !(Members(m, name) <= {c}) {
      var d :| d in Members(m, name) && d != c;
      var k :| k in missing;
      assert d in now && k in ValuesOf(r.m, name) && k !in now[d];
    }
  }

  lemma {:induction false} SameHolders(copies: Copies, pending: seq<Parcel>)
    ensures DeliverAll(copies, pending).Keys == copies.Keys
    decreases |pending|
  {
    hide Fold;
    if pending == [] {
    } else {
      var p := pending[0];
      var copies' := if p.to in copies then copies[p.to := Fold(copies[p.to], p.events, NO_VALUE)] else copies;
      SameHolders(copies', pending[1..]);
    }
  }

  lemma StartFollows(m: Manager, c: nat, name: Key, relay: seq<Event>, was: Copies)
    requires OthersHold(m, name, c, was, {})
    ensures Following(Fresh(m), c, name, relay, m, was)
  {
  }

  lemma {:induction false} MissingPresent(values: Properties, trace: seq<Effect>, relay: seq<Event>)
    ensures Missing(values, trace, relay) <= Applied(values, trace).Keys
  {
    if trace == [] {
    } else {
      MissingPresent(values, trace[..|trace| - 1], relay);
    }
  }

  /** A request with no Clear in it never costs the others anything. */
  lemma {:induction false} NothingMissing(values: Properties, trace: seq<Effect>, relay: seq<Event>)
    requires relay != [Clear]
    ensures Missing(values, trace, relay) == {}
  {
    if trace == [] {
    } else {
      NothingMissing(values, trace[..|trace| - 1], relay);
    }
  }

  lemma OthersConverge(m: Manager, c: nat, name: Key, asks: seq<Ask>, was: Copies)
    requires OthersHold(m, name, c, was, {}) && AskClear !in asks
    ensures var r := HandleAll(Fresh(m), c, name, asks, Relay(asks));
            OthersHold(r.m, name, c, DeliverAll(was, Outgoing(r, c)), {})
  {
    hide HandleAll, DeliverAll, RequestEffects;
    OthersExactly(m, c, name, asks, was);
    NothingMissing(ValuesOf(m, name), RequestEffects(m, c, name, asks), Relay(asks));
  }

  /** A relayed Clear empties the others' copies, whatever the map holds. */
  lemma RelayedClear(m: Manager, c: nat, name: Key, was: Copies)
    requires OthersHold(m, name, c, was, {}) && Uses(m, c, name) && ValuesOf(m, name) != map[]
    ensures var asks := [AskClear, AskSend];
            var r := HandleAll(Fresh(m), c, name, asks, Relay(asks));
            && r.m == m && OthersHold(m, name, c, DeliverAll(was, Outgoing(r, c)), ValuesOf(m, name).Keys)
            && (OthersHold(m, name, c, DeliverAll(was, Outgoing(r, c)), {}) <==> Members(m, name) == {c})
  {
    hide DeliverAll, HandleAll, RequestEffects, Missing, Outgoing;
    var asks := [AskClear, AskSend];
    SendAlone(m, c, name);
    assert [] + [Sent] == [Sent];
    Grown(ValuesOf(m, name), [], Sent, [Clear]);
    OthersExactly(m, c, name, asks, was);
  }

  lemma SendAlone(m: Manager, c: nat, name: Key)
    requires Uses(m, c, name)
    ensures var asks := [AskClear, AskSend];
            && Relay(asks) == [Clear] && RequestEffects(m, c, name, asks) == [Sent]
            && HandleAll(Fresh(m), c, name, asks, [Clear]).m == m
  {
    hide Parcels;
    var asks := [AskClear, AskSend];
    assert asks[0] == AskClear && asks[1..] == [AskSend] && [AskSend][1..] == [];
    assert HandleAll(Fresh(m), c, name, asks, [Clear]) == HandleAsk(Fresh(m), c, name, AskSend, [Clear]);
  }

  // ---- in place ------------------------------------------------------------------------------

  /** The local variables of `handle_so`. */
  datatype Draft = Draft(ret: seq<Event>, replacement: Replacement, pending: seq<Parcel>, used: bool, released: bool)

  ghost function Drafted(so: SoManager, d: Draft, trace: seq<Effect>): Reply
    reads so
  {
    Reply(so.State(), d.ret, d.replacement, d.pending, d.used, d.released, !so.newMessage, trace)
  }

  /** The loop that addresses a message to each client. */
  method Address(clients: set<nat>, events: seq<Event>) returns (parcels: seq<Parcel>)
    ensures parcels == Parcels(clients, events)
  {
    parcels := [];
    var todo := clients;
    while todo != {}
      invariant parcels + Parcels(todo, events) == Parcels(clients, events)
      decreases |todo|
    {
      var d := MinOf(todo);
      parcels := parcels + [Parcel(d, events)];
      todo := todo - {d};
    }
  }

  lemma Notified(o: Object, c: nat, e: Event)
    ensures Others(o, c, e).Keys == o.clients - {c}
  {
  }

  lemma VersionKept(m: Manager, name: Key)
    ensures KeptVersion(m, name, m) == m
  {
    if name in m.objects {
      assert m.objects[name := m.objects[name]] == m.objects;
    }
  }

  method AnswerUse(so: SoManager, c: nat, name: Key, d: Draft, ghost trace: seq<Effect>, ghost relay: seq<Event>)
    returns (d': Draft)
    modifies so
    ensures Drafted(so, d', trace) == HandleAsk(old(Drafted(so, d, trace)), c, name, AskUse, relay)
  {
    hide UseReply;
    if d.used {
      return d;
    }
    var reply := so.HandleUseEvent(c, name);
    d' := d.(used := true);
    if reply != [] {
      if d.ret == [] {
        d' := d'.(ret := reply);
      } else {
        d' := d'.(pending := d.pending + [Parcel(c, reply)]);
      }
    }
  }

  method AnswerChange(
      so: SoManager, c: nat, name: Key, property: Key, value: Value, d: Draft, ghost trace: seq<Effect>,
      ghost relay: seq<Event>)
    returns (d': Draft, ghost trace': seq<Effect>)
    modifies so
    ensures Drafted(so, d', trace') == HandleAsk(old(Drafted(so, d, trace)), c, name, AskChange(property, value), relay)
  {
    hide Parcels, KeptVersion;
    d', trace' := d, trace;
    if |d.ret| >= MAX_EVENTS {
      d' := d.(pending := d.pending + [Parcel(c, d.ret)], ret := []);
    }
    ghost var was := so.State();
    var reply, notified := so.HandleChangeEvent(c, name, property, value);
    if reply != [] {
      Notified(was.objects[name], c, Change(property, value));
      var parcels := Address(notified.Keys, [Change(property, value)]);
      d' := d'.(ret := d'.ret + reply, pending := d'.pending + parcels);
      trace' := trace + [Set(property, value)];
    }
  }

  method AnswerRemove(
      so: SoManager, c: nat, name: Key, property: Key, d: Draft, ghost trace: seq<Effect>, ghost relay: seq<Event>)
    returns (d': Draft, ghost trace': seq<Effect>)
    modifies so
    ensures Drafted(so, d', trace') == HandleAsk(old(Drafted(so, d, trace)), c, name, AskRemove(property), relay)
  {
    hide Parcels, KeptVersion;
    d', trace' := d, trace;
    ghost var was := so.State();
    var reply, notified := so.HandleRemoveEvent(c, name, property);
    if reply != [] {
      Notified(was.objects[name], c, Removed(property));
      var parcels := Address(notified.Keys, reply);
      d' := d.(replacement := Replaced(reply), pending := d.pending + parcels);
      trace' := trace + [Del(property)];
    }
  }

  method AnswerSend(so: SoManager, c: nat, name: Key, d: Draft, ghost trace: seq<Effect>, relay: seq<Event>)
    returns (d': Draft, ghost trace': seq<Effect>)
    ensures Drafted(so, d', trace') == HandleAsk(Drafted(so, d, trace), c, name, AskSend, relay)
  {
    hide Parcels;
    d', trace' := d, trace;
    var found, notified := so.HandleSendEvent(c, name);
    if found {
      Notified(so.State().objects[name], c, Relayed);
      VersionKept(so.State(), name);
      var parcels := Address(notified, relay);
      d' := d.(replacement := Replaced(relay), pending := d.pending + parcels);
      trace' := trace + [Sent];
    }
  }

  /** `handle_so`: the loop over the events, what is sent once it is over, and the answer. */
  method HandleSo(so: SoManager, c: nat, name: Key, asks: seq<Ask>)
    returns (answered: bool, result: seq<Event>, sent: seq<Parcel>)
    modifies so
    ensures var r := HandleAll(Fresh(old(so.State())), c, name, asks, Relay(asks));
            && so.State() == r.m && sent == Outgoing(r, c) && answered == !r.released && result == ResultOf(r)
  {
    hide HandleAsk;
    so.newMessage := true;
    var relay := Relay(asks);
    var d := Draft([], Nothing, [], false, false);
    ghost var trace: seq<Effect> := [];
    ghost var all := HandleAll(Fresh(so.State()), c, name, asks, relay);
    var i := 0;
    while i < |asks| && !d.released
      invariant 0 <= i <= |asks|
      invariant HandleAll(Drafted(so, d, trace), c, name, asks[i..], relay) == all
    {
      assert asks[i..][0] == asks[i] && asks[i..][1..] == asks[i + 1..];
      d, trace := Answer(so, c, name, asks[i], d, trace, relay);
      i := i + 1;
    }
    sent := d.pending;
    if d.replacement.Replaced? && !d.released && d.ret != [] {
      sent := sent + [Parcel(c, d.ret)];
    }
    if d.released {
      return false, [], sent;
    }
    return true, if d.replacement.Replaced? then d.replacement.events else d.ret, sent;
  }

  method Answer(so: SoManager, c: nat, name: Key, a: Ask, d: Draft, ghost trace: seq<Effect>, relay: seq<Event>)
    returns (d': Draft, ghost trace': seq<Effect>)
    modifies so
    ensures Drafted(so, d', trace') == HandleAsk(old(Drafted(so, d, trace)), c, name, a, relay)
  {
    d', trace' := d, trace;
    match a {
      case AskUse => d' := AnswerUse(so, c, name, d, trace, relay);
      case AskRelease =>
        so.HandleReleaseEvent(c, name);
        d' := d.(released := true);
      case AskChange(property, value) => d', trace' := AnswerChange(so, c, name, property, value, d, trace, relay);
      case AskRemove(property) => d', trace' := AnswerRemove(so, c, name, property, d, trace, relay);
      case AskSend => d', trace' := AnswerSend(so, c, name, d, trace, relay);
      case AskClear =>
      case AskOther =>
    }
  }
}
