/** Shared objects (`so_manager.cpp`): named property maps replicated to the
    connections that use them. A request carries one event and is one atomic step;
    what each connection is sent in answer, folded by the connection, must give it
    the server's map. */
module SharedObjects {
  import opened Bytes
  import opened IntegerSets
  import opened OrderedKeys

  const MAX_EVENTS: nat := 64
  const MAX_PROPERTIES: nat := 62
  const MAX_OBJECTS: nat := 4096
  const MAX_OBJECTS_PER_CONNECTION: nat := 64
  const WRAP: nat := 0x1_0000_0000

  /** A property's value, and whether `replayable` lets a Use reply carry it. */
  datatype Value = Value(content: seq<byte>, replayable: bool)

  type Properties = map<Key, Value>

  datatype Object = Object(version: nat, clients: set<nat>, values: Properties)

  /** `counts` is what each connection is charged with. */
  datatype Manager = Manager(objects: map<Key, Object>, counts: map<nat, nat>)

  const EMPTY := Manager(map[], map[])

  datatype Request =
    | Use(name: Key)
    | Release(name: Key)
    | RequestChange(name: Key, property: Key, value: Value)
    | RequestRemove(name: Key, property: Key)
    | SendMessage(name: Key)
    | Disconnect

  datatype Event =
    | UseSuccess
    | Clear
    | Change(property: Key, value: Value)
    | Success(property: Key)
    | Removed(property: Key)
    | Relayed

  /** The new state, the reply to the requester, and what the others are sent. */
  datatype Outcome = Outcome(m: Manager, reply: seq<Event>, others: map<nat, seq<Event>>)

  function Charge(counts: map<nat, nat>, c: nat): nat {
    if c in counts then counts[c] else 0
  }

  /** `find_so`: the object, for a connection that uses it. */
  predicate Uses(m: Manager, c: nat, name: Key) {
    name in m.objects && c in m.objects[name].clients
  }

  function Changes(keys: seq<Key>, values: Properties): seq<Event>
    requires forall k | k in keys :: k in values
  {
    if keys == [] then []
    else [Change(keys[0], values[keys[0]])] + Changes(keys[1..], values)
  }

  function UseReply(values: Properties): (r: seq<Event>)
    ensures r != []
  {
    [UseSuccess, Clear] + Changes(Sorted(values.Keys), values)
  }

  /** `handle_use_event` */
  function HandleUse(m: Manager, c: nat, name: Key): Outcome {
    var known := name in m.objects;
    var joining := !known || c !in m.objects[name].clients;
    if !known && |m.objects| >= MAX_OBJECTS then Outcome(m, [], map[])
    else if joining && Charge(m.counts, c) >= MAX_OBJECTS_PER_CONNECTION then
      Outcome(m.(counts := m.counts[c := Charge(m.counts, c)]), [], map[])
    else
      var o := if known then m.objects[name] else Object(1, {}, map[]);
      var objects := m.objects[name := o.(clients := o.clients + {c})];
      var counts := if joining then m.counts[c := Charge(m.counts, c) + 1] else m.counts;
      Outcome(Manager(objects, counts), UseReply(o.values), map[])
  }

  /** `handle_release_event`: nobody is told. */
  function HandleRelease(m: Manager, c: nat, name: Key): Outcome {
    if !Uses(m, c, name) then Outcome(m, [], map[])
    else
      var left := m.objects[name].clients - {c};
      var objects := if left == {} then m.objects - {name} else m.objects[name := m.objects[name].(clients := left)];
      var counts := if Charge(m.counts, c) > 0 then m.counts[c := Charge(m.counts, c) - 1] else m.counts;
      Outcome(Manager(objects, counts), [], map[])
  }

  function Others(o: Object, c: nat, e: Event): map<nat, seq<Event>> {
    map d | d in o.clients && d != c :: [e]
  }

  /** `handle_req_change_event` */
  function HandleChange(m: Manager, c: nat, name: Key, property: Key, value: Value): Outcome {
    if !Uses(m, c, name) then Outcome(m, [], map[])
    else
      var o := m.objects[name];
      if |o.values| >= MAX_PROPERTIES && property !in o.values then Outcome(m, [], map[])
      else if !value.replayable then Outcome(m, [], map[])
      else
        var o' := Object((o.version + 1) % WRAP, o.clients, o.values[property := value]);
        Outcome(m.(objects := m.objects[name := o']), [Success(property)], Others(o, c, Change(property, value)))
  }

  /** `handle_req_remove_event` */
  function HandleRemove(m: Manager, c: nat, name: Key, property: Key): Outcome {
    if !Uses(m, c, name) then Outcome(m, [], map[])
    else
      var o := m.objects[name];
      if property !in o.values then Outcome(m, [], map[])
      else
        var o' := Object((o.version + 1) % WRAP, o.clients, o.values - {property});
        Outcome(m.(objects := m.objects[name := o']), [Removed(property)], Others(o, c, Removed(property)))
  }

  /** `handle_send_message_event`: relayed as it came. */
  function HandleSend(m: Manager, c: nat, name: Key): Outcome {
    if !Uses(m, c, name) then Outcome(m, [], map[])
    else Outcome(m, [Relayed], Others(m.objects[name], c, Relayed))
  }

  /** `remove_connection` */
  function RemoveConnection(m: Manager, c: nat): Outcome {
    Outcome(Manager(map name | name in m.objects && m.objects[name].clients - {c} != {} ::
                      m.objects[name].(clients := m.objects[name].clients - {c}),
                    m.counts - {c}), [], map[])
  }

  function Handle(m: Manager, c: nat, r: Request): Outcome {
    match r
    case Use(name) => HandleUse(m, c, name)
    case Release(name) => HandleRelease(m, c, name)
    case RequestChange(name, property, value) => HandleChange(m, c, name, property, value)
    case RequestRemove(name, property) => HandleRemove(m, c, name, property)
    case SendMessage(name) => HandleSend(m, c, name)
    case Disconnect => RemoveConnection(m, c)
  }

  // ---- the table's own invariant -------------------------------------------------------

  /** The objects a connection is in. */
  function In(objects: map<Key, Object>, c: nat): set<Key> {
    set name | name in objects && c in objects[name].clients
  }

  /** Someone uses the object, and a Use reply can carry it. */
  predicate Good(o: Object) {
    && o.clients != {}
    && |o.values| <= MAX_PROPERTIES
    && forall k | k in o.values :: o.values[k].replayable
  }

  predicate Bounded(m: Manager) {
    && |m.objects| <= MAX_OBJECTS
    && forall name | name in m.objects :: Good(m.objects[name])
  }

  /** Each charge is the number of objects the connection is in. */
  ghost predicate Charged(m: Manager) {
    forall c: nat :: Charge(m.counts, c) == |In(m.objects, c)| <= MAX_OBJECTS_PER_CONNECTION
  }

  // ---- replicas --------------------------------------------------------------------------

  /** The connections' copies of one object. */
  type Copies = map<nat, Properties>

  type Replicas = map<Key, Copies>

  /** A connection folds a message into its copy; `asked` is the value it asked for
      when the message answers its own change. */
  function Fold(copy: Properties, events: seq<Event>, asked: Value): Properties
    decreases |events|
  {
    if events == [] then copy
    else
      var e := events[0];
      var copy' :=
        if e.Clear? then map[]
        else if e.Change? then copy[e.property := e.value]
        else if e.Success? then copy[e.property := asked]
        else if e.Removed? then copy - {e.property}
        else copy;
      Fold(copy', events[1..], asked)
  }

  /** Exactly the members hold a copy, and each copy is the server's map. */
  predicate Agree(o: Object, copies: Copies) {
    copies.Keys == o.clients && forall c | c in copies :: copies[c] == o.values
  }

  predicate Converged(m: Manager, replicas: Replicas) {
    && replicas.Keys == m.objects.Keys
    && forall name | name in m.objects :: Agree(m.objects[name], replicas[name])
  }

  const NO_VALUE := Value([], false)

  /** The requester folds its reply, the others what they are sent. A UseSuccess
      starts a copy; a release or a disconnect forgets it. */
  function Replicate(replicas: Replicas, c: nat, r: Request, out: Outcome): Replicas {
    match r
    case Use(name) =>
      if out.reply == [] then replicas
      else replicas[name := CopiesOf(replicas, name)[c := Fold(map[], out.reply, NO_VALUE)]]
    case Release(name) => WithCopies(replicas, name, CopiesOf(replicas, name) - {c})
    case RequestChange(name, _, value) => Delivered(replicas, c, name, out, value)
    case RequestRemove(name, _) => Delivered(replicas, c, name, out, NO_VALUE)
    case SendMessage(name) => Delivered(replicas, c, name, out, NO_VALUE)
    case Disconnect =>
      map name | name in replicas && replicas[name] - {c} != map[] :: replicas[name] - {c}
  }

  function CopiesOf(replicas: Replicas, name: Key): Copies {
    if name in replicas then replicas[name] else map[]
  }

  function WithCopies(replicas: Replicas, name: Key, copies: Copies): Replicas {
    if copies == map[] then replicas - {name} else replicas[name := copies]
  }

  function Delivered(replicas: Replicas, c: nat, name: Key, out: Outcome, asked: Value): Replicas {
    WithCopies(replicas, name, Folded(CopiesOf(replicas, name), c, out, asked))
  }

  function Folded(copies: Copies, c: nat, out: Outcome, asked: Value): Copies {
    map d | d in copies ::
      if d == c then Fold(copies[d], out.reply, asked)
      else if d in out.others then Fold(copies[d], out.others[d], asked)
      else copies[d]
  }

  /** Folding one Change per property rebuilds the map. */
  lemma {:induction false} FoldChanges(copy: Properties, keys: seq<Key>, values: Properties)
    requires forall k | k in keys :: k in values
    requires forall k | k in copy :: k in values && copy[k] == values[k]
    requires forall k | k in values :: k in copy || k in keys
    ensures Fold(copy, Changes(keys, values), NO_VALUE) == values
    decreases |keys|
  {
    if keys == [] {
      assert copy == values;
    } else {
      var events := Changes(keys, values);
      assert events[0] == Change(keys[0], values[keys[0]]) && events[1..] == Changes(keys[1..], values);
      FoldChanges(copy[keys[0] := values[keys[0]]], keys[1..], values);
    }
  }

  /** A Use reply, folded by a new member, is the whole map, and fits one message. */
  lemma UseReplyIsWhole(values: Properties)
    requires |values| <= MAX_PROPERTIES
    ensures Fold(map[], UseReply(values), NO_VALUE) == values && 2 <= |UseReply(values)| <= MAX_EVENTS
  {
    var changes := Changes(Sorted(values.Keys), values);
    var reply := UseReply(values);
    assert reply[1..] == [Clear] + changes && reply[1..][1..] == changes;
    FoldChanges(map[], Sorted(values.Keys), values);
    ChangesLength(Sorted(values.Keys), values);
  }

  lemma {:induction false} ChangesLength(keys: seq<Key>, values: Properties)
    requires forall k | k in keys :: k in values
    ensures |Changes(keys, values)| == |keys|
  {
    if keys == [] {
    } else {
      ChangesLength(keys[1..], values);
    }
  }

  predicate Sound(m: Manager, replicas: Replicas) {
    Bounded(m) && Converged(m, replicas)
  }

  /** A step that touches one object. */
  lemma OneObject(m: Manager, replicas: Replicas, name: Key, o: Object, copies: Copies, counts: map<nat, nat>)
    requires Sound(m, replicas) && Good(o) && Agree(o, copies) && (name in m.objects || |m.objects| < MAX_OBJECTS)
    ensures Sound(Manager(m.objects[name := o], counts), replicas[name := copies])
  {
    hide Good, Agree;
    var objects := m.objects[name := o];
    assert objects.Keys == m.objects.Keys + {name};
  }

  lemma SoundAt(m: Manager, replicas: Replicas, name: Key)
    requires Sound(m, replicas)
    ensures name in replicas <==> name in m.objects
    ensures name in m.objects ==>
              && Good(m.objects[name]) && Agree(m.objects[name], replicas[name])
              && replicas[name] != map[] && replicas[name := replicas[name]] == replicas
    ensures name !in m.objects ==> replicas - {name} == replicas
  {
    if name in m.objects {
      assert Good(m.objects[name]) && Agree(m.objects[name], replicas[name]);
    }
  }

  lemma NoObject(m: Manager, replicas: Replicas, name: Key, counts: map<nat, nat>)
    requires Sound(m, replicas)
    ensures Sound(Manager(m.objects - {name}, counts), replicas - {name})
  {
    hide Good, Agree;
    SubsetSize((m.objects - {name}).Keys, m.objects.Keys);
  }

  lemma CountsApart(m: Manager, replicas: Replicas, counts: map<nat, nat>)
    requires Sound(m, replicas)
    ensures Sound(Manager(m.objects, counts), replicas)
  {
    hide Good, Agree;
  }

  /** A use is refused and changes no object, or adds the connection to one. */
  lemma UseOutcome(m: Manager, c: nat, name: Key)
    ensures var out := HandleUse(m, c, name);
            var o := if name in m.objects then m.objects[name] else Object(1, {}, map[]);
            if out.reply == [] then
              out.m.objects == m.objects && forall d: nat :: Charge(out.m.counts, d) == Charge(m.counts, d)
            else
              && out.reply == UseReply(o.values) && (name in m.objects || |m.objects| < MAX_OBJECTS)
              && out.m.objects == m.objects[name := o.(clients := o.clients + {c})]
              && (c in o.clients ==> out.m.counts == m.counts)
              && (c !in o.clients ==>
                    && Charge(m.counts, c) < MAX_OBJECTS_PER_CONNECTION
                    && out.m.counts == m.counts[c := Charge(m.counts, c) + 1])
  {
    hide UseReply;
  }

  lemma UsedBefore(m: Manager, replicas: Replicas, name: Key)
    requires Sound(m, replicas)
    ensures var o := if name in m.objects then m.objects[name] else Object(1, {}, map[]);
            Agree(o, CopiesOf(replicas, name)) && |o.values| <= MAX_PROPERTIES
  {
    SoundAt(m, replicas, name);
  }

  lemma NewMember(o: Object, copies: Copies, c: nat)
    requires Agree(o, copies) && (Good(o) || (o.clients == {} && o.values == map[]))
    ensures Good(o.(clients := o.clients + {c})) && Agree(o.(clients := o.clients + {c}), copies[c := o.values])
  {
  }

  lemma UseSound(m: Manager, replicas: Replicas, c: nat, name: Key)
    requires Sound(m, replicas)
    ensures var out := HandleUse(m, c, name); Sound(out.m, Replicate(replicas, c, Use(name), out))
  {
    hide Fold, UseReply, Sound, HandleUse, Good, Agree, Charge;
    var out := HandleUse(m, c, name);
    UseOutcome(m, c, name);
    SoundAt(m, replicas, name);
    var o := if name in m.objects then m.objects[name] else Object(1, {}, map[]);
    if out.reply != [] {
      assert Agree(o, CopiesOf(replicas, name)) && |o.values| <= MAX_PROPERTIES by { UsedBefore(m, replicas, name); }
      NewMember(o, CopiesOf(replicas, name), c);
      UseReplyIsWhole(o.values);
      var copies := CopiesOf(replicas, name)[c := o.values];
      OneObject(m, replicas, name, o.(clients := o.clients + {c}), copies, out.m.counts);
    } else {
      CountsApart(m, replicas, out.m.counts);
    }
  }

  lemma ReleaseSound(m: Manager, replicas: Replicas, c: nat, name: Key)
    requires Sound(m, replicas)
    ensures var out := HandleRelease(m, c, name); Sound(out.m, Replicate(replicas, c, Release(name), out))
  {
    hide Sound, Fold;
    var out := HandleRelease(m, c, name);
    SoundAt(m, replicas, name);
    if Uses(m, c, name) {
      ReleaseMember(m, replicas, c, name, out.m.counts);
    } else if name in m.objects {
      assert replicas[name] - {c} == replicas[name];
    }
  }

  lemma ReleaseMember(m: Manager, replicas: Replicas, c: nat, name: Key, counts: map<nat, nat>)
    requires Sound(m, replicas) && Uses(m, c, name)
    ensures var left := m.objects[name].clients - {c};
            var objects := if left == {} then m.objects - {name} else m.objects[name := m.objects[name].(clients := left)];
            Sound(Manager(objects, counts), WithCopies(replicas, name, CopiesOf(replicas, name) - {c}))
  {
    hide Sound;
    SoundAt(m, replicas, name);
    var left := m.objects[name].clients - {c};
    var copies := replicas[name] - {c};
    assert copies.Keys == left;
    if left == {} {
      assert copies == map[];
      NoObject(m, replicas, name, counts);
    } else {
      assert copies != map[];
      OneObject(m, replicas, name, m.objects[name].(clients := left), copies, counts);
    }
  }

  /** Delivering an object's new map to every member keeps every copy exact. */
  lemma DeliverySound(m: Manager, replicas: Replicas, c: nat, name: Key, out: Outcome, o: Object, asked: Value)
    requires Sound(m, replicas) && Uses(m, c, name) && Good(o) && o.clients == m.objects[name].clients
    requires out.others.Keys == o.clients - {c}
    requires Fold(m.objects[name].values, out.reply, asked) == o.values
    requires forall d | d in out.others :: Fold(m.objects[name].values, out.others[d], asked) == o.values
    ensures Sound(Manager(m.objects[name := o], m.counts), Delivered(replicas, c, name, out, asked))
  {
    hide Fold, Good;
    var copies := Folded(replicas[name], c, out, asked);
    assert Agree(m.objects[name], replicas[name]);
    assert copies.Keys == replicas[name].Keys;
    assert Agree(o, copies);
    assert c in copies;
    OneObject(m, replicas, name, o, copies, m.counts);
  }

  /** A request that changes nothing and tells nobody. */
  lemma SilentSound(m: Manager, replicas: Replicas, c: nat, name: Key, out: Outcome, asked: Value)
    requires Sound(m, replicas) && out == Outcome(m, [], map[])
    ensures Sound(m, Delivered(replicas, c, name, out, asked))
  {
    hide Sound;
    SoundAt(m, replicas, name);
    if name in m.objects {
      assert Folded(replicas[name], c, out, asked) == replicas[name];
    } else {
      assert Folded(map[], c, out, asked) == map[];
    }
  }

  lemma FoldOne(copy: Properties, e: Event, asked: Value)
    ensures Fold(copy, [e], asked) ==
            if e.Clear? then map[]
            else if e.Change? then copy[e.property := e.value]
            else if e.Success? then copy[e.property := asked]
            else if e.Removed? then copy - {e.property}
            else copy
  {
  }

  lemma ChangeSound(m: Manager, replicas: Replicas, c: nat, name: Key, property: Key, value: Value)
    requires Sound(m, replicas)
    ensures var out := HandleChange(m, c, name, property, value);
            Sound(out.m, Replicate(replicas, c, RequestChange(name, property, value), out))
  {
    hide Fold, Delivered, Converged;
    var out := HandleChange(m, c, name, property, value);
    if out == Outcome(m, [], map[]) {
      SilentSound(m, replicas, c, name, out, value);
    } else {
      var o := m.objects[name];
      var o' := out.m.objects[name];
      assert o'.values.Keys == o.values.Keys + {property};
      assert property in o.values ==> o'.values.Keys == o.values.Keys;
      FoldOne(o.values, Success(property), value);
      FoldOne(o.values, Change(property, value), value);
      DeliverySound(m, replicas, c, name, out, o', value);
    }
  }

  lemma RemoveSound(m: Manager, replicas: Replicas, c: nat, name: Key, property: Key)
    requires Sound(m, replicas)
    ensures var out := HandleRemove(m, c, name, property);
            Sound(out.m, Replicate(replicas, c, RequestRemove(name, property), out))
  {
    hide Fold, Delivered, Converged;
    var out := HandleRemove(m, c, name, property);
    if out == Outcome(m, [], map[]) {
      SilentSound(m, replicas, c, name, out, NO_VALUE);
    } else {
      var o := m.objects[name];
      SubsetSize((o.values - {property}).Keys, o.values.Keys);
      FoldOne(o.values, Removed(property), NO_VALUE);
      DeliverySound(m, replicas, c, name, out, out.m.objects[name], NO_VALUE);
    }
  }

  lemma SendSound(m: Manager, replicas: Replicas, c: nat, name: Key)
    requires Sound(m, replicas)
    ensures var out := HandleSend(m, c, name); Sound(out.m, Replicate(replicas, c, SendMessage(name), out))
  {
    hide Fold, Delivered, Converged;
    var out := HandleSend(m, c, name);
    if out == Outcome(m, [], map[]) {
      SilentSound(m, replicas, c, name, out, NO_VALUE);
    } else {
      FoldOne(m.objects[name].values, Relayed, NO_VALUE);
      DeliverySound(m, replicas, c, name, out, m.objects[name], NO_VALUE);
      assert m.objects[name := m.objects[name]] == m.objects;
    }
  }

  lemma DisconnectSound(m: Manager, replicas: Replicas, c: nat)
    requires Sound(m, replicas)
    ensures var out := RemoveConnection(m, c); Sound(out.m, Replicate(replicas, c, Disconnect, out))
  {
    hide Good, Agree, RemoveConnection, Replicate;
    var out := RemoveConnection(m, c);
    var replicas' := Replicate(replicas, c, Disconnect, out);
    forall name: Key
      ensures name in out.m.objects <==> name in replicas'
      ensures name in out.m.objects ==>
                name in m.objects && Good(out.m.objects[name]) && Agree(out.m.objects[name], replicas'[name])
    {
      DisconnectAt(m, replicas, c, name);
    }
    assert out.m.objects.Keys <= m.objects.Keys;
    SubsetSize(out.m.objects.Keys, m.objects.Keys);
  }

  lemma DisconnectAt(m: Manager, replicas: Replicas, c: nat, name: Key)
    requires Sound(m, replicas)
    ensures var out := RemoveConnection(m, c);
            var replicas' := Replicate(replicas, c, Disconnect, out);
            && (name in out.m.objects <==> name in replicas')
            && (name in out.m.objects ==>
                  name in m.objects && Good(out.m.objects[name]) && Agree(out.m.objects[name], replicas'[name]))
  {
    hide Sound, Good, Agree;
    SoundAt(m, replicas, name);
    if name in m.objects {
      MemberGone(m.objects[name], replicas[name], c);
    }
  }

  lemma MemberGone(o: Object, copies: Copies, c: nat)
    requires Good(o) && Agree(o, copies)
    ensures copies - {c} == map[] <==> o.clients - {c} == {}
    ensures o.clients - {c} != {} ==>
              var o' := o.(clients := o.clients - {c}); Good(o') && Agree(o', copies - {c})
  {
    assert (copies - {c}).Keys == o.clients - {c};
    assert copies - {c} == map[] <==> (copies - {c}).Keys == {};
  }

  lemma HandleSound(m: Manager, replicas: Replicas, c: nat, r: Request)
    requires Sound(m, replicas)
    ensures Sound(Handle(m, c, r).m, Replicate(replicas, c, r, Handle(m, c, r)))
    ensures |Handle(m, c, r).reply| <= MAX_EVENTS
  {
    hide Fold, UseReply, Replicate, Converged;
    match r {
      case Use(name) =>
        UseSound(m, replicas, c, name);
        if name in m.objects { UseReplyIsWhole(m.objects[name].values); }
        UseReplyIsWhole(map[]);
      case Release(name) => ReleaseSound(m, replicas, c, name);
      case RequestChange(name, property, value) => ChangeSound(m, replicas, c, name, property, value);
      case RequestRemove(name, property) => RemoveSound(m, replicas, c, name, property);
      case SendMessage(name) => SendSound(m, replicas, c, name);
      case Disconnect => DisconnectSound(m, replicas, c);
    }
  }


  // ---- use counts -------------------------------------------------------------------------

  /** The members of every object other than `name` are as before. */
  lemma {:induction false} InChanges(before: map<Key, Object>, after: map<Key, Object>, name: Key, d: nat)
    requires forall k | k != name :: k in before <==> k in after
    requires forall k | k in before && k != name :: before[k].clients == after[k].clients
    ensures var was, now := name in before && d in before[name].clients, name in after && d in after[name].clients;
            && ((was <==> now) ==> In(after, d) == In(before, d))
            && (!was && now ==> |In(after, d)| == |In(before, d)| + 1)
            && (was && !now ==> |In(after, d)| == |In(before, d)| - 1)
  {
    OneApart(In(before, d), In(after, d), name);
  }

  lemma OneApart(a: set<Key>, b: set<Key>, name: Key)
    requires forall k | k in a && k != name :: k in b
    requires forall k | k in b && k != name :: k in a
    ensures (name in a <==> name in b) ==> a == b
    ensures name !in a && name in b ==> |b| == |a| + 1
    ensures name in a && name !in b ==> |b| == |a| - 1
  {
    if name !in a && name in b {
      assert b == a + {name};
    } else if name in a && name !in b {
      assert a == b + {name};
    }
  }

  /** Every request keeps every connection's charge the number of objects it is in. */
  lemma HandleCharged(m: Manager, c: nat, r: Request)
    requires Bounded(m) && Charged(m)
    ensures Charged(Handle(m, c, r).m)
  {
    if r.Disconnect? {
      DisconnectCharged(m, c);
    } else {
      var m' := Handle(m, c, r).m;
      forall d: nat
        ensures Charge(m'.counts, d) == |In(m'.objects, d)| <= MAX_OBJECTS_PER_CONNECTION
      {
        ChargedAt(m, c, r, d);
      }
    }
  }

  lemma ChargedAt(m: Manager, c: nat, r: Request, d: nat)
    requires Charged(m) && !r.Disconnect?
    ensures var m' := Handle(m, c, r).m;
            Charge(m'.counts, d) == |In(m'.objects, d)| <= MAX_OBJECTS_PER_CONNECTION
  {
    hide In, HandleUse, HandleRelease, HandleChange, HandleRemove;
    match r {
      case Use(name) => UseCharged(m, c, name, d);
      case Release(name) => ReleaseCharged(m, c, name, d);
      case RequestChange(name, property, value) => ChangeKeepsMembers(m, c, name, property, value, d);
      case RequestRemove(name, property) => RemoveKeepsMembers(m, c, name, property, d);
      case SendMessage(_) =>
    }
  }

  lemma UseCharged(m: Manager, c: nat, name: Key, d: nat)
    requires Charged(m)
    ensures var m' := HandleUse(m, c, name).m;
            Charge(m'.counts, d) == |In(m'.objects, d)| <= MAX_OBJECTS_PER_CONNECTION
  {
    hide In, UseReply, HandleUse;
    UseOutcome(m, c, name);
    assert Charge(m.counts, d) == |In(m.objects, d)|;
    InChanges(m.objects, HandleUse(m, c, name).m.objects, name, d);
  }

  lemma ReleaseCharged(m: Manager, c: nat, name: Key, d: nat)
    requires Charged(m)
    ensures var m' := HandleRelease(m, c, name).m;
            Charge(m'.counts, d) == |In(m'.objects, d)| <= MAX_OBJECTS_PER_CONNECTION
  {
    hide In;
    assert Charge(m.counts, d) == |In(m.objects, d)| && Charge(m.counts, c) == |In(m.objects, c)|;
    InChanges(m.objects, HandleRelease(m, c, name).m.objects, name, d);
    if Uses(m, c, name) {
      InPositive(m.objects, c, name);
    }
  }

  lemma ChangeKeepsMembers(m: Manager, c: nat, name: Key, property: Key, value: Value, d: nat)
    ensures var m' := HandleChange(m, c, name, property, value).m;
            m'.counts == m.counts && In(m'.objects, d) == In(m.objects, d)
  {
    hide In, Others;
    InChanges(m.objects, HandleChange(m, c, name, property, value).m.objects, name, d);
  }

  lemma RemoveKeepsMembers(m: Manager, c: nat, name: Key, property: Key, d: nat)
    ensures var m' := HandleRemove(m, c, name, property).m;
            m'.counts == m.counts && In(m'.objects, d) == In(m.objects, d)
  {
    hide In, Others;
    InChanges(m.objects, HandleRemove(m, c, name, property).m.objects, name, d);
  }

  lemma InPositive(objects: map<Key, Object>, c: nat, name: Key)
    requires name in objects && c in objects[name].clients
    ensures |In(objects, c)| > 0
  {
    assert name in In(objects, c);
  }

  lemma DisconnectCharged(m: Manager, c: nat)
    requires Bounded(m) && Charged(m)
    ensures Charged(RemoveConnection(m, c).m)
  {
    var m' := RemoveConnection(m, c).m;
    forall d: nat
      ensures Charge(m'.counts, d) == |In(m'.objects, d)| <= MAX_OBJECTS_PER_CONNECTION
    {
      assert Charge(m.counts, d) == |In(m.objects, d)|;
      if d == c {
        assert In(m'.objects, d) == {};
      } else {
        assert forall k | k in m.objects && d in m.objects[k].clients :: d in m.objects[k].clients - {c};
        assert In(m'.objects, d) == In(m.objects, d);
      }
    }
  }

  // ---- runs ----------------------------------------------------------------------------------

  datatype Step = Step(c: nat, r: Request)

  function Run(m: Manager, steps: seq<Step>): Manager
    decreases |steps|
  {
    if steps == [] then m else Run(Handle(m, steps[0].c, steps[0].r).m, steps[1..])
  }

  function RunReplicas(m: Manager, replicas: Replicas, steps: seq<Step>): Replicas
    decreases |steps|
  {
    if steps == [] then replicas
    else
      var out := Handle(m, steps[0].c, steps[0].r);
      RunReplicas(out.m, Replicate(replicas, steps[0].c, steps[0].r, out), steps[1..])
  }

  /** Over every run of requests and disconnects: the members of each object, and
      they alone, hold exactly its property map; no object is memberless; a Use reply
      fits one message; both caps hold; and each use count is exact. */
  lemma {:induction false} ReplicasConverge(m: Manager, replicas: Replicas, steps: seq<Step>)
    requires Sound(m, replicas) && Charged(m)
    ensures Sound(Run(m, steps), RunReplicas(m, replicas, steps)) && Charged(Run(m, steps))
    decreases |steps|
  {
    hide Sound, Charged, Handle, Replicate;
    if steps == [] {
    } else {
      var out := Handle(m, steps[0].c, steps[0].r);
      HandleSound(m, replicas, steps[0].c, steps[0].r);
      SoundIsBounded(m, replicas);
      HandleCharged(m, steps[0].c, steps[0].r);
      ReplicasConverge(out.m, Replicate(replicas, steps[0].c, steps[0].r, out), steps[1..]);
    }
  }

  lemma SoundIsBounded(m: Manager, replicas: Replicas)
    requires Sound(m, replicas)
    ensures Bounded(m)
  {
  }

  lemma NothingYet()
    ensures Sound(EMPTY, map[]) && Charged(EMPTY)
  {
    assert forall d: nat :: In(EMPTY.objects, d) == {};
  }

  // ---- in place ------------------------------------------------------------------------------

  /** The state `m` with the version the object had before. */
  function KeptVersion(was: Manager, name: Key, m: Manager): Manager {
    if name in m.objects && name in was.objects then
      m.(objects := m.objects[name := m.objects[name].(version := was.objects[name].version)])
    else m
  }

  class SoManager {
    var objects: map<Key, Object>
    var counts: map<nat, nat>
    var newMessage: bool  // the request has not moved the version yet

    function State(): Manager
      reads this
    {
      Manager(objects, counts)
    }

    constructor ()
      ensures State() == EMPTY
    {
      objects, counts, newMessage := map[], map[], false;
    }

    /** Whether the connection may join one more; looking creates its entry. */
    method Admits(c: nat) returns (ok: bool)
      modifies `counts
      ensures counts == old(counts)[c := Charge(old(counts), c)]
      ensures ok <==> Charge(old(counts), c) < MAX_OBJECTS_PER_CONNECTION
    {
      if c !in counts {
        counts := counts[c := 0];
      }
      ok := counts[c] < MAX_OBJECTS_PER_CONNECTION;
    }

    method Join(c: nat, name: Key, joining: bool)
      requires joining ==> c in counts
      modifies `objects, `counts
      ensures var o := if name in old(objects) then old(objects)[name] else Object(1, {}, map[]);
              objects == old(objects)[name := o.(clients := o.clients + {c})]
      ensures counts == if joining then old(counts)[c := old(counts)[c] + 1] else old(counts)
    {
      if name !in objects {
        objects := objects[name := Object(1, {} + {c}, map[])];
      } else {
        objects := objects[name := objects[name].(clients := objects[name].clients + {c})];
      }
      if joining {
        counts := counts[c := counts[c] + 1];
      }
    }

    method HandleUseEvent(c: nat, name: Key) returns (reply: seq<Event>)
      modifies `objects, `counts
      ensures Outcome(State(), reply, map[]) == HandleUse(old(State()), c, name)
    {
      hide Changes, Sorted;
      reply := [];
      var known := name in objects;
      var joining := !known || c !in objects[name].clients;
      if !known && |objects| >= MAX_OBJECTS {
        return;
      }
      if joining {
        var ok := Admits(c);
        if !ok {
          return;
        }
      }
      Join(c, name, joining);
      assert joining ==> counts == old(counts)[c := Charge(old(counts), c) + 1];
      var changes := ReplayValues(objects[name].values);
      reply := [UseSuccess, Clear] + changes;
    }

    method HandleReleaseEvent(c: nat, name: Key)
      modifies `objects, `counts
      ensures Outcome(State(), [], map[]) == HandleRelease(old(State()), c, name)
    {
      if name in objects {
        if c in objects[name].clients {
          objects := objects[name := objects[name].(clients := objects[name].clients - {c})];
          if c in counts && counts[c] > 0 {
            counts := counts[c := counts[c] - 1];
          }
          if objects[name].clients == {} {
            objects := objects - {name};
          }
        }
      }
    }

    /** `increase_version`, whose result is the object's version. */
    method IncreaseVersion(version: nat) returns (next: nat)
      modifies `newMessage
      ensures next == (if old(newMessage) then (version + 1) % WRAP else version) && !newMessage
    {
      next := version;
      if newMessage {
        newMessage := false;
        next := (version + 1) % WRAP;
      }
    }

    method HandleChangeEvent(c: nat, name: Key, property: Key, value: Value)
      returns (reply: seq<Event>, pending: map<nat, seq<Event>>)
      modifies `objects, `newMessage
      ensures var out := HandleChange(old(State()), c, name, property, value);
              && reply == out.reply && pending == out.others && newMessage == (old(newMessage) && reply == [])
              && State() == if old(newMessage) || reply == [] then out.m else KeptVersion(old(State()), name, out.m)
    {
      reply, pending := [], map[];
      if name !in objects || c !in objects[name].clients {
        return;
      }
      var o := objects[name];
      if |o.values| >= MAX_PROPERTIES && property !in o.values {
        return;
      }
      if !value.replayable {
        return;
      }
      var version := IncreaseVersion(o.version);
      objects := objects[name := Object(version, o.clients, o.values[property := value])];
      reply := [Success(property)];
      pending := Notify(o.clients, c, Change(property, value));
    }

    method HandleRemoveEvent(c: nat, name: Key, property: Key)
      returns (reply: seq<Event>, pending: map<nat, seq<Event>>)
      modifies `objects, `newMessage
      ensures var out := HandleRemove(old(State()), c, name, property);
              && reply == out.reply && pending == out.others && newMessage == (old(newMessage) && reply == [])
              && State() == if old(newMessage) || reply == [] then out.m else KeptVersion(old(State()), name, out.m)
    {
      reply, pending := [], map[];
      if name !in objects || c !in objects[name].clients {
        return;
      }
      var o := objects[name];
      if property in o.values {
        var version := IncreaseVersion(o.version);
        objects := objects[name := Object(version, o.clients, o.values - {property})];
        reply := [Removed(property)];
        pending := Notify(o.clients, c, Removed(property));
      }
    }

    /** `handle_send_message_event`, and to whom the request is relayed. */
    method HandleSendEvent(c: nat, name: Key) returns (found: bool, others: set<nat>)
      ensures var out := HandleSend(State(), c, name);
              out.m == State() && (found <==> out.reply != []) && others == out.others.Keys
    {
      if name !in objects || c !in objects[name].clients {
        return false, {};
      }
      var pending := Notify(objects[name].clients, c, Relayed);
      return true, pending.Keys;
    }

    /** The walk of `remove_connection`, object by object. */
    method RemoveConnectionEverywhere(c: nat)
      modifies `objects, `counts
      ensures State() == RemoveConnection(old(State()), c).m
    {
      hide Walked;
      ghost var was := objects;
      var todo := objects.Keys;
      WalkStarts(was, c);
      while todo != {}
        invariant Walked(was, objects, todo, c)
        invariant counts == old(counts)
        decreases |todo|
      {
        var k :| k in todo;
        WalkOne(was, objects, todo, c, k);
        objects := objects[k := objects[k].(clients := objects[k].clients - {c})];
        if objects[k].clients == {} {
          objects := objects - {k};
        }
        todo := todo - {k};
      }
      WalkDone(was, objects, c);
      counts := counts - {c};
    }
  }

  /** `c` is out of every object of `was` except those still to visit. */
  ghost predicate Walked(was: map<Key, Object>, now: map<Key, Object>, todo: set<Key>, c: nat) {
    && todo <= was.Keys && todo <= now.Keys <= was.Keys
    && (forall k | k in todo :: now[k] == was[k])
    && (forall k | k in was && k !in todo :: k in now <==> was[k].clients - {c} != {})
    && (forall k | k in now && k !in todo :: now[k] == was[k].(clients := was[k].clients - {c}))
  }

  lemma WalkStarts(was: map<Key, Object>, c: nat)
    ensures Walked(was, was, was.Keys, c)
  {
  }

  lemma WalkOne(was: map<Key, Object>, now: map<Key, Object>, todo: set<Key>, c: nat, k: Key)
    requires Walked(was, now, todo, c) && k in todo
    ensures k in now && now[k] == was[k]
    ensures var o := now[k].(clients := now[k].clients - {c});
            Walked(was, if o.clients == {} then now[k := o] - {k} else now[k := o], todo - {k}, c)
  {
  }

  lemma WalkDone(was: map<Key, Object>, now: map<Key, Object>, c: nat)
    requires Walked(was, now, {}, c)
    ensures now == map name | name in was && was[name].clients - {c} != {} ::
                     was[name].(clients := was[name].clients - {c})
  {
  }

  /** One Change per stored property, in the map's order. */
  method ReplayValues(values: Properties) returns (changes: seq<Event>)
    ensures changes == Changes(Sorted(values.Keys), values)
  {
    var keys := Sorted(values.Keys);
    changes := [];
    var i := 0;
    while i < |keys|
      invariant i <= |keys|
      invariant changes + Changes(keys[i..], values) == Changes(keys, values)
    {
      assert keys[i..][1..] == keys[i + 1..];
      assert keys[i] in keys;
      changes := changes + [Change(keys[i], values[keys[i]])];
      i := i + 1;
    }
    assert keys[i..] == [];
  }

  /** A message to every client but the requester. */
  method Notify(clients: set<nat>, c: nat, e: Event) returns (pending: map<nat, seq<Event>>)
    ensures pending == map d | d in clients && d != c :: [e]
  {
    pending := map[];
    var todo := clients;
    while todo != {}
      invariant todo <= clients
      invariant pending == map d | d in clients - todo && d != c :: [e]
      decreases |todo|
    {
      var d :| d in todo;
      if d != c {
        pending := pending[d := [e]];
      }
      todo := todo - {d};
    }
  }
}
