/** The media-routing registry (`stream_registry.h` and `.cpp`) and the handlers of
    `media_application.cpp` that update it: live publishers and their names, the
    fan-out edges, the subscribers, the clients waiting for a stream, and which
    connection owns which stream id. Each handler runs under the exclusive lock, so
    it is one step. */
module StreamRegistry {
  import opened IntegerSets

  type Name = string

  /** A message stream of a connection. */
  datatype Id = Id(conn: nat, stream: nat)

  datatype Option<T> = None | Some(value: T)

  /** `streams` and `names` are the two sides of one bimap; `edges` takes a
      subscriber to its broadcaster; `broadcasts` keeps each publisher's qos stream. */
  datatype Registry = Registry(
    streams: map<Id, Name>,
    names: map<Name, Id>,
    broadcasts: map<Id, Option<Id>>,
    edges: map<Id, Id>,
    subscribers: set<Id>,
    subscribed: map<Id, Name>,
    clients: map<nat, set<nat>>,
    waiting: map<Name, set<Id>>)

  const EMPTY := Registry(map[], map[], map[], map[], {}, map[], map[], map[])

  // ---- the registry's operations --------------------------------------------------------

  /** `m_clients[conn].insert(stream)` */
  function Own(clients: map<nat, set<nat>>, id: Id): map<nat, set<nat>> {
    clients[id.conn := (if id.conn in clients then clients[id.conn] else {}) + {id.stream}]
  }

  predicate CanPublish(r: Registry, id: Id, name: Name) {
    id !in r.streams && name !in r.names
  }

  function AddBroadcaster(r: Registry, id: Id, name: Name): Registry {
    if !CanPublish(r, id, name) then r
    else
      r.(streams := r.streams[id := name], names := r.names[name := id],
         broadcasts := r.broadcasts[id := if id in r.broadcasts then r.broadcasts[id] else None],
         clients := Own(r.clients, id))
  }

  /** The subscribers of a publisher. */
  function SubscribersOf(r: Registry, id: Id): set<Id> {
    set s | s in r.edges && r.edges[s] == id
  }

  function RemoveBroadcaster(r: Registry, id: Id): Registry {
    if id !in r.streams then r
    else
      var subs := SubscribersOf(r, id);
      r.(streams := r.streams - {id}, names := r.names - {r.streams[id]}, broadcasts := r.broadcasts - {id},
         edges := r.edges - subs, subscribers := r.subscribers - subs)
  }

  function DetachSubscriber(r: Registry, id: Id): Registry {
    r.(edges := r.edges - {id}, subscribers := r.subscribers - {id})
  }

  function AddSubscriber(r: Registry, broadcaster: Id, sub: Id): Registry {
    r.(subscribers := r.subscribers + {sub}, edges := r.edges[sub := broadcaster], clients := Own(r.clients, sub))
  }

  function WaitingFor(r: Registry, name: Name): set<Id> {
    if name in r.waiting then r.waiting[name] else {}
  }

  function EraseWaiting(r: Registry, name: Name, id: Id): Registry {
    if name in r.waiting then r.(waiting := r.waiting[name := r.waiting[name] - {id}]) else r
  }

  // ---- the handlers ------------------------------------------------------------------------

  /** `close_stream`: the publisher and its qos stream, or one subscription. */
  function CloseStream(r: Registry, id: Id): Registry
    decreases |r.streams|
  {
    if id in r.streams then
      Shorter(r.streams, id);
      var r' := RemoveBroadcaster(r, id);
      if id in r.broadcasts && r.broadcasts[id].Some? then CloseStream(r', r.broadcasts[id].value) else r'
    else DetachSubscriber(r, id)
  }

  /** `forget_subscription` */
  function ForgetSubscription(r: Registry, id: Id): Registry {
    var r' := DetachSubscriber(r, id);
    if id in r'.subscribed then
      var r'' := EraseWaiting(r', r'.subscribed[id], id);
      r''.(subscribed := r''.subscribed - {id})
    else r'
  }

  /** `add_waiting_client` */
  function AddWaitingClient(r: Registry, id: Id, name: Name): Registry {
    var r' := ForgetSubscription(r, id);
    r'.(waiting := r'.waiting[name := WaitingFor(r', name) + {id}], clients := Own(r'.clients, id),
        subscribed := r'.subscribed[id := name])
  }

  /** The locked part of `handle_invoke_play`. `elsewhere` says that a recording, or
      a refusal, answers a play that finds no publisher. */
  function Play(r: Registry, id: Id, name: Name, remote: bool, elsewhere: bool): Registry {
    if name !in r.names && !remote && elsewhere then ForgetSubscription(r, id)
    else
      var r' := AddWaitingClient(if name !in r.names && !remote then ForgetSubscription(r, id) else r, id, name);
      if name in r.names then AddSubscriber(r', r.names[name], id) else r'
  }

  /** The locked part of `handle_invoke_close_stream` and `handle_invoke_delete_stream`. */
  function Close(r: Registry, id: Id): Registry {
    var r' := ForgetSubscription(CloseStream(r, id), id);
    if id.conn in r'.clients then r'.(clients := r'.clients[id.conn := r'.clients[id.conn] - {id.stream}]) else r'
  }

  /** `check_waiting_clients`: everyone waiting is subscribed. They own their ids
      already, so their ownership does not change. */
  function Promote(r: Registry, name: Name): Registry {
    if name !in r.names then r
    else
      var ids := WaitingFor(r, name);
      r.(waiting := r.waiting - {name}, subscribers := r.subscribers + ids,
         edges := r.edges + map s | s in ids :: r.names[name])
  }

  /** The locked part of `add_qos_stream`. */
  function AddQos(r: Registry, id: Id, stream: nat, name: Name): Registry {
    var qos := Id(id.conn, stream);
    var r' := AddBroadcaster(r, qos, "QOS!" + name);
    if CanPublish(r, qos, "QOS!" + name) && id in r'.broadcasts then
      r'.(broadcasts := r'.broadcasts[id := Some(qos)])
    else r'
  }

  /** `remove_client`: closes and forgets each stream the connection owns. */
  function Sweep(r: Registry, conn: nat, streams: set<nat>): Registry
    decreases |streams|
  {
    if streams == {} then r
    else
      var k := MinOf(streams);
      Sweep(ForgetSubscription(CloseStream(r, Id(conn, k)), Id(conn, k)), conn, streams - {k})
  }

  function RemoveClient(r: Registry, conn: nat): Registry {
    Sweep(r.(clients := r.clients - {conn}), conn, if conn in r.clients then r.clients[conn] else {})
  }

  // ---- the invariant ------------------------------------------------------------------------

  /** Publishers and names are one to one, and a qos stream is its publisher's own. */
  predicate Published(r: Registry) {
    && (forall id | id in r.streams :: r.streams[id] in r.names && r.names[r.streams[id]] == id)
    && (forall n | n in r.names :: r.names[n] in r.streams && r.streams[r.names[n]] == n)
    && r.broadcasts.Keys == r.streams.Keys
    && (forall id | id in r.broadcasts :: r.broadcasts[id].Some? ==> r.broadcasts[id].value.conn == id.conn)
  }

  /** Every subscriber has one edge, to a live publisher. */
  predicate Routed(r: Registry) {
    r.edges.Keys == r.subscribers && forall s | s in r.edges :: r.edges[s] in r.streams
  }

  /** A client waits only under the name it asked for. */
  predicate Waits(r: Registry) {
    forall n | n in r.waiting :: forall id | id in r.waiting[n] :: id in r.subscribed && r.subscribed[id] == n
  }

  predicate Owns(clients: map<nat, set<nat>>, id: Id) {
    id.conn in clients && id.stream in clients[id.conn]
  }

  /** Every id in any map is its connection's, but for those being torn down. */
  predicate Owned(r: Registry, except: set<Id>) {
    && (forall id | id in r.streams :: Owns(r.clients, id) || id in except)
    && (forall id | id in r.subscribers :: Owns(r.clients, id) || id in except)
    && (forall id | id in r.subscribed :: Owns(r.clients, id) || id in except)
  }

  predicate Consistent(r: Registry, except: set<Id>) {
    Published(r) && Routed(r) && Waits(r) && Owned(r, except)
  }

  predicate Valid(r: Registry) {
    Consistent(r, {})
  }

  // ---- each operation keeps it ------------------------------------------------------------------

  /** Removing things, and only as a whole, keeps ownership. */
  predicate Fewer(r: Registry, r': Registry) {
    && r'.streams.Keys <= r.streams.Keys && r'.subscribers <= r.subscribers
    && r'.subscribed.Keys <= r.subscribed.Keys && r'.clients == r.clients
  }

  lemma FewerOwned(r: Registry, r': Registry, except: set<Id>)
    requires Owned(r, except) && Fewer(r, r')
    ensures Owned(r', except)
  {
  }

  lemma RemoveBroadcasterKeeps(r: Registry, id: Id, except: set<Id>)
    requires Consistent(r, except)
    ensures Consistent(RemoveBroadcaster(r, id), except) && Fewer(r, RemoveBroadcaster(r, id))
    ensures id !in RemoveBroadcaster(r, id).streams
  {
    hide Owned, Waits, Published, Routed;
    var r' := RemoveBroadcaster(r, id);
    RemovePublished(r, id);
    RemoveRouted(r, id);
    WaitsDepends(r, r');
    FewerOwned(r, r', except);
  }

  lemma RemovePublished(r: Registry, id: Id)
    requires Published(r)
    ensures Published(RemoveBroadcaster(r, id))
  {
  }

  lemma RemoveRouted(r: Registry, id: Id)
    requires Routed(r)
    ensures Routed(RemoveBroadcaster(r, id))
  {
  }

  lemma WaitsDepends(r: Registry, r': Registry)
    requires Waits(r) && r'.waiting == r.waiting && r'.subscribed == r.subscribed
    ensures Waits(r')
  {
  }

  lemma DetachKeeps(r: Registry, id: Id, except: set<Id>)
    requires Consistent(r, except)
    ensures Consistent(DetachSubscriber(r, id), except) && Fewer(r, DetachSubscriber(r, id))
  {
    hide Owned, Waits;
    var r' := DetachSubscriber(r, id);
    WaitsDepends(r, r');
    FewerOwned(r, r', except);
  }

  /** Closing keeps the invariant, takes the publisher out, and leaves the waiting
      clients and the ownership alone. */
  lemma {:induction false} CloseStreamKeeps(r: Registry, id: Id, except: set<Id>)
    requires Consistent(r, except)
    ensures var r' := CloseStream(r, id);
            && Consistent(r', except) && Fewer(r, r') && id !in r'.streams
            && r'.waiting == r.waiting && r'.subscribed == r.subscribed
    decreases |r.streams|
  {
    hide Consistent;
    if id in r.streams {
      Shorter(r.streams, id);
      var r' := RemoveBroadcaster(r, id);
      RemoveBroadcasterKeeps(r, id, except);
      if id in r.broadcasts && r.broadcasts[id].Some? {
        CloseStreamKeeps(r', r.broadcasts[id].value, except);
      }
    } else {
      DetachKeeps(r, id, except);
    }
  }

  lemma ForgetKeeps(r: Registry, id: Id, except: set<Id>)
    requires Consistent(r, except)
    ensures var r' := ForgetSubscription(r, id);
            && Consistent(r', except) && Fewer(r, r') && r'.streams == r.streams && r'.names == r.names
            && id !in r'.subscribers && id !in r'.edges && id !in r'.subscribed
  {
    hide Owned, Published, Waits, Routed, ForgetSubscription;
    var r' := ForgetSubscription(r, id);
    ForgetShape(r, id);
    DetachKeeps(r, id, except);
    PublishedDepends(r, r');
    ForgetWaits(r, id);
    RoutedDepends(DetachSubscriber(r, id), r');
    FewerOwned(r, r', except);
  }

  lemma ForgetShape(r: Registry, id: Id)
    ensures var r' := ForgetSubscription(r, id);
            && r'.streams == r.streams && r'.names == r.names && r'.broadcasts == r.broadcasts
            && r'.edges == r.edges - {id} && r'.subscribers == r.subscribers - {id}
            && r'.clients == r.clients && r'.subscribed == r.subscribed - {id}
  {
    if id !in r.subscribed {
      assert r.subscribed - {id} == r.subscribed;
    }
  }

  lemma ForgetWaits(r: Registry, id: Id)
    requires Waits(r)
    ensures Waits(ForgetSubscription(r, id))
  {
  }

  lemma RoutedDepends(r: Registry, r': Registry)
    requires Routed(r) && r'.streams == r.streams && r'.edges == r.edges && r'.subscribers == r.subscribers
    ensures Routed(r')
  {
  }

  lemma PublishedDepends(r: Registry, r': Registry)
    requires Published(r) && r'.streams == r.streams && r'.names == r.names && r'.broadcasts == r.broadcasts
    ensures Published(r')
  {
  }

  lemma OwnMore(clients: map<nat, set<nat>>, id: Id, other: Id)
    ensures Owns(Own(clients, id), id) && (Owns(clients, other) ==> Owns(Own(clients, id), other))
  {
  }

  lemma OwnedMore(r: Registry, r': Registry, id: Id)
    requires Owned(r, {}) && r'.clients == Own(r.clients, id)
    requires r'.streams.Keys <= r.streams.Keys + {id} && r'.subscribers <= r.subscribers + {id}
    requires r'.subscribed.Keys <= r.subscribed.Keys + {id}
    ensures Owned(r', {})
  {
    hide Own, Owns;
    forall other: Id
      ensures Owns(r.clients, other) ==> Owns(r'.clients, other)
      ensures Owns(r'.clients, id)
    {
      OwnMore(r.clients, id, other);
    }
  }

  lemma AddBroadcasterKeeps(r: Registry, id: Id, name: Name)
    requires Valid(r)
    ensures Valid(AddBroadcaster(r, id, name))
  {
    hide Owned, Waits, Own, Published;
    var r' := AddBroadcaster(r, id, name);
    if CanPublish(r, id, name) {
      WaitsDepends(r, r');
      OwnedMore(r, r', id);
      AddPublished(r, id, name);
    }
  }

  lemma AddPublished(r: Registry, id: Id, name: Name)
    requires Published(r)
    ensures Published(AddBroadcaster(r, id, name))
  {
  }

  lemma AddSubscriberKeeps(r: Registry, broadcaster: Id, sub: Id)
    requires Valid(r) && broadcaster in r.streams
    ensures Valid(AddSubscriber(r, broadcaster, sub))
  {
    hide Owned, Waits, Own, Published;
    var r' := AddSubscriber(r, broadcaster, sub);
    WaitsDepends(r, r');
    PublishedDepends(r, r');
    OwnedMore(r, r', sub);
  }

  lemma AddWaitingKeeps(r: Registry, id: Id, name: Name)
    requires Valid(r)
    ensures Valid(AddWaitingClient(r, id, name)) && AddWaitingClient(r, id, name).names == r.names
    ensures AddWaitingClient(r, id, name).streams == r.streams
  {
    hide Owned, Own, Published, Routed, Waits, ForgetSubscription;
    ForgetKeeps(r, id, {});
    var r1, r' := ForgetSubscription(r, id), AddWaitingClient(r, id, name);
    PublishedDepends(r1, r');
    RoutedDepends(r1, r');
    WaitMore(r1, r', id, name);
    OwnedMore(r1, r', id);
  }

  lemma WaitMore(r: Registry, r': Registry, id: Id, name: Name)
    requires Waits(r) && id !in r.subscribed
    requires r'.waiting == r.waiting[name := WaitingFor(r, name) + {id}] && r'.subscribed == r.subscribed[id := name]
    ensures Waits(r')
  {
  }

  lemma PlayKeeps(r: Registry, id: Id, name: Name, remote: bool, elsewhere: bool)
    requires Valid(r)
    ensures Valid(Play(r, id, name, remote, elsewhere))
  {
    hide Consistent, AddWaitingClient, ForgetSubscription, AddSubscriber;
    ForgetKeeps(r, id, {});
    if name in r.names || remote {
      AddWaitingKeeps(r, id, name);
      if name in r.names {
        assert r.names[name] in r.streams by { Live(r, name); }
        AddSubscriberKeeps(AddWaitingClient(r, id, name), r.names[name], id);
      }
    } else if !elsewhere {
      AddWaitingKeeps(ForgetSubscription(r, id), id, name);
    }
  }

  lemma Live(r: Registry, name: Name)
    requires Valid(r) && name in r.names
    ensures r.names[name] in r.streams
  {
  }

  lemma CloseKeeps(r: Registry, id: Id)
    requires Valid(r)
    ensures Valid(Close(r, id)) && !Mentions(Close(r, id), id)
  {
    hide Published, Routed, Waits, Owned, CloseStream, ForgetSubscription, Mentions;
    var r1 := CloseStream(r, id);
    CloseStreamKeeps(r, id, {});
    ForgetKeeps(r1, id, {});
    var r2, r' := ForgetSubscription(r1, id), Close(r, id);
    PublishedDepends(r2, r');
    RoutedDepends(r2, r');
    WaitsDepends(r2, r');
    Disown(r2, r', id);
    Unmentioned(r', id);
  }

  lemma Disown(r: Registry, r': Registry, id: Id)
    requires Owned(r, {}) && id !in r.streams && id !in r.subscribers && id !in r.subscribed
    requires r' == r || (id.conn in r.clients && r' == r.(clients := r.clients[id.conn := r.clients[id.conn] - {id.stream}]))
    ensures Owned(r', {})
  {
  }

  lemma Unmentioned(r: Registry, id: Id)
    requires Published(r) && Routed(r) && Waits(r)
    requires id !in r.streams && id !in r.subscribers && id !in r.subscribed
    ensures !Mentions(r, id)
  {
  }

  /** Some map other than the ownership holds the id. */
  predicate Mentions(r: Registry, id: Id) {
    || id in r.streams || id in r.broadcasts || id in r.subscribers || id in r.edges || id in r.subscribed
    || exists n :: n in r.waiting && id in r.waiting[n]
  }

  lemma PromoteKeeps(r: Registry, name: Name)
    requires Valid(r)
    ensures Valid(Promote(r, name))
  {
    hide Published, Routed, Waits, Owned;
    var r' := Promote(r, name);
    if name in r.names {
      Live(r, name);
      PublishedDepends(r, r');
      PromoteRouted(r, name);
      PromoteWaits(r, name);
      PromoteOwned(r, name);
    }
  }

  lemma PromoteRouted(r: Registry, name: Name)
    requires Routed(r) && name in r.names && r.names[name] in r.streams
    ensures Routed(Promote(r, name))
  {
  }

  lemma PromoteWaits(r: Registry, name: Name)
    requires Waits(r)
    ensures Waits(Promote(r, name))
  {
  }

  lemma PromoteOwned(r: Registry, name: Name)
    requires Waits(r) && Owned(r, {})
    ensures Owned(Promote(r, name), {})
  {
  }

  lemma AddQosKeeps(r: Registry, id: Id, stream: nat, name: Name)
    requires Valid(r)
    ensures Valid(AddQos(r, id, stream, name))
  {
    hide Owned, Waits, Routed, AddBroadcaster;
    var qos := Id(id.conn, stream);
    AddBroadcasterKeeps(r, qos, "QOS!" + name);
    var r1, r' := AddBroadcaster(r, qos, "QOS!" + name), AddQos(r, id, stream, name);
    WaitsDepends(r1, r');
    RoutedDepends(r1, r');
    FewerOwned(r1, r', {});
  }

  // ---- teardown --------------------------------------------------------------------------------

  /** The registry with everything of a connection taken out: its publishers and
      whoever was subscribed to them, its subscriptions, its waits, its ids. */
  function Without(r: Registry, conn: nat): Registry {
    Registry(
      map id | id in r.streams && id.conn != conn :: r.streams[id],
      map n | n in r.names && r.names[n].conn != conn :: r.names[n],
      map id | id in r.broadcasts && id.conn != conn :: r.broadcasts[id],
      map s | s in r.edges && s.conn != conn && r.edges[s].conn != conn :: r.edges[s],
      set s | s in r.subscribers && s.conn != conn && !(s in r.edges && r.edges[s].conn == conn),
      map id | id in r.subscribed && id.conn != conn :: r.subscribed[id],
      r.clients - {conn},
      map n | n in r.waiting :: Elsewhere(r.waiting[n], conn))
  }

  function Elsewhere(ids: set<Id>, conn: nat): set<Id> {
    set id | id in ids && id.conn != conn
  }

  lemma RemoveElsewhere(r: Registry, id: Id)
    requires Published(r)
    ensures Without(RemoveBroadcaster(r, id), id.conn) == Without(r, id.conn)
  {
    if id in r.streams {
      var w, w' := Without(r, id.conn), Without(RemoveBroadcaster(r, id), id.conn);
      assert w'.streams == w.streams && w'.names == w.names && w'.broadcasts == w.broadcasts;
      EdgesElsewhere(r, SubscribersOf(r, id), id.conn);
    }
  }

  lemma EdgesElsewhere(r: Registry, gone: set<Id>, conn: nat)
    requires forall s | s in gone :: s in r.edges && r.edges[s].conn == conn
    ensures var r' := r.(edges := r.edges - gone, subscribers := r.subscribers - gone);
            Without(r', conn).edges == Without(r, conn).edges
            && Without(r', conn).subscribers == Without(r, conn).subscribers
  {
  }

  lemma DetachElsewhere(r: Registry, id: Id)
    ensures Without(DetachSubscriber(r, id), id.conn) == Without(r, id.conn)
  {
    var w, w' := Without(r, id.conn), Without(DetachSubscriber(r, id), id.conn);
    assert w'.edges == w.edges;
    assert w'.subscribers == w.subscribers;
  }

  /** Closing a stream touches nothing of another connection but its subscriptions
      to what is closed. */
  lemma {:induction false} CloseElsewhere(r: Registry, id: Id)
    requires Published(r)
    ensures Without(CloseStream(r, id), id.conn) == Without(r, id.conn)
    decreases |r.streams|
  {
    hide Without, Published, RemoveBroadcaster, DetachSubscriber;
    if id in r.streams {
      var r' := RemoveBroadcaster(r, id);
      RemoveElsewhere(r, id);
      RemovePublished(r, id);
      QosIsOwn(r, id);
      if id in r.broadcasts && r.broadcasts[id].Some? {
        CloseElsewhere(r', r.broadcasts[id].value);
      }
    } else {
      DetachElsewhere(r, id);
    }
  }

  lemma QosIsOwn(r: Registry, id: Id)
    requires Published(r) && id in r.streams
    ensures id in r.broadcasts && (r.broadcasts[id].Some? ==> r.broadcasts[id].value.conn == id.conn)
    ensures |RemoveBroadcaster(r, id).streams| < |r.streams|
  {
    Shorter(r.streams, id);
  }

  lemma ForgetElsewhere(r: Registry, id: Id)
    ensures Without(ForgetSubscription(r, id), id.conn) == Without(r, id.conn)
  {
    hide Without, DetachSubscriber, EraseWaiting;
    DetachElsewhere(r, id);
    var r1 := DetachSubscriber(r, id);
    if id in r1.subscribed {
      EraseElsewhere(r1, r1.subscribed[id], id);
      UnsubscribeElsewhere(EraseWaiting(r1, r1.subscribed[id], id), id);
    }
  }

  lemma EraseElsewhere(r: Registry, name: Name, id: Id)
    ensures Without(EraseWaiting(r, name, id), id.conn) == Without(r, id.conn)
  {
    if name in r.waiting {
      var w, w' := Without(r, id.conn), Without(EraseWaiting(r, name, id), id.conn);
      assert Elsewhere(r.waiting[name] - {id}, id.conn) == Elsewhere(r.waiting[name], id.conn);
      assert w'.waiting == w.waiting;
    }
  }

  lemma UnsubscribeElsewhere(r: Registry, id: Id)
    ensures Without(r.(subscribed := r.subscribed - {id}), id.conn) == Without(r, id.conn)
  {
    assert Without(r.(subscribed := r.subscribed - {id}), id.conn).subscribed == Without(r, id.conn).subscribed;
  }

  function Ids(conn: nat, streams: set<nat>): set<Id> {
    set k | k in streams :: Id(conn, k)
  }

  lemma SweepStep(r: Registry, conn: nat, streams: set<nat>, k: nat)
    requires Consistent(r, Ids(conn, streams)) && k in streams
    ensures var r' := ForgetSubscription(CloseStream(r, Id(conn, k)), Id(conn, k));
            && Consistent(r', Ids(conn, streams - {k})) && r'.clients == r.clients
            && Without(r', conn) == Without(r, conn)
  {
    hide Published, Routed, Waits, Without, CloseStream, ForgetSubscription;
    var id, except := Id(conn, k), Ids(conn, streams);
    CloseStreamKeeps(r, id, except);
    var r1 := CloseStream(r, id);
    ForgetKeeps(r1, id, except);
    CloseElsewhere(r, id);
    ForgetElsewhere(r1, id);
    var r' := ForgetSubscription(r1, id);
    assert forall x | x in except && x != id :: x in Ids(conn, streams - {k});
    assert Owned(r', Ids(conn, streams - {k}));
  }

  lemma {:induction false} SweepKeeps(r: Registry, conn: nat, streams: set<nat>)
    requires Consistent(r, Ids(conn, streams))
    ensures var r' := Sweep(r, conn, streams);
            Consistent(r', {}) && r'.clients == r.clients && Without(r', conn) == Without(r, conn)
    decreases |streams|
  {
    hide Consistent, Without, CloseStream, ForgetSubscription;
    if streams == {} {
      assert Ids(conn, streams) == {};
    } else {
      var k := MinOf(streams);
      SweepStep(r, conn, streams, k);
      SweepKeeps(ForgetSubscription(CloseStream(r, Id(conn, k)), Id(conn, k)), conn, streams - {k});
    }
  }

  /** A connection that owns nothing is nowhere. */
  lemma OwnerlessIsGone(r: Registry, conn: nat)
    requires Valid(r) && conn !in r.clients
    ensures Without(r, conn) == r
    ensures forall id: Id | id.conn == conn :: !Mentions(r, id)
  {
    hide Mentions;
    assert forall id | id in r.streams || id in r.subscribers || id in r.subscribed :: id.conn != conn;
    AllElsewhere(r, conn);
    forall id: Id | id.conn == conn
      ensures !Mentions(r, id)
    {
      Unmentioned(r, id);
    }
  }

  lemma AllElsewhere(r: Registry, conn: nat)
    requires Published(r) && Routed(r) && Waits(r) && conn !in r.clients
    requires forall id | id in r.streams || id in r.subscribers || id in r.subscribed :: id.conn != conn
    ensures Without(r, conn) == r
  {
    var w := Without(r, conn);
    assert w.streams == r.streams && w.names == r.names && w.broadcasts == r.broadcasts by {
      hide Routed, Waits;
    }
    EdgesRemain(r, conn);
    WaitsRemain(r, conn);
    assert w.subscribed == r.subscribed && w.clients == r.clients;
  }

  lemma EdgesRemain(r: Registry, conn: nat)
    requires Routed(r) && forall id | id in r.streams || id in r.subscribers :: id.conn != conn
    ensures Without(r, conn).edges == r.edges && Without(r, conn).subscribers == r.subscribers
  {
  }

  lemma WaitsRemain(r: Registry, conn: nat)
    requires Waits(r) && forall id | id in r.subscribed :: id.conn != conn
    ensures Without(r, conn).waiting == r.waiting
  {
    assert forall n | n in r.waiting :: Elsewhere(r.waiting[n], conn) == r.waiting[n];
  }

  /** Clean teardown: removing a connection leaves exactly the registry with
      everything of that connection taken out, and no map mentions it. */
  lemma TeardownIsExact(r: Registry, conn: nat)
    requires Valid(r)
    ensures RemoveClient(r, conn) == Without(r, conn)
    ensures Valid(RemoveClient(r, conn)) && conn !in RemoveClient(r, conn).clients
    ensures forall id: Id | id.conn == conn :: !Mentions(RemoveClient(r, conn), id)
  {
    hide Without, Published, Routed, Waits, Sweep;
    var streams := if conn in r.clients then r.clients[conn] else {};
    var r1 := r.(clients := r.clients - {conn});
    PublishedDepends(r, r1);
    RoutedDepends(r, r1);
    WaitsDepends(r, r1);
    assert forall id: Id | Owns(r.clients, id) :: Owns(r1.clients, id) || id in Ids(conn, streams);
    SweepKeeps(r1, conn, streams);
    OwnerlessIsGone(Sweep(r1, conn, streams), conn);
    ClientsApart(r, conn);
  }

  lemma ClientsApart(r: Registry, conn: nat)
    ensures Without(r.(clients := r.clients - {conn}), conn) == Without(r, conn)
  {
    assert r.clients - {conn} - {conn} == r.clients - {conn};
  }

  // ---- runs --------------------------------------------------------------------------------------

  datatype Op =
    | CreateStream(id: Id)
    | Publish(id: Id, name: Name)
    | PublishQos(id: Id, stream: nat, name: Name)
    | CheckWaiting(name: Name)
    | PlayStream(id: Id, name: Name, remote: bool, elsewhere: bool)
    | CloseOrDelete(id: Id)
    | Disconnect(conn: nat)

  function Apply(r: Registry, op: Op): Registry {
    match op
    case CreateStream(id) => r.(clients := Own(r.clients, id))
    case Publish(id, name) => AddBroadcaster(r, id, name)
    case PublishQos(id, stream, name) => AddQos(r, id, stream, name)
    case CheckWaiting(name) => Promote(r, name)
    case PlayStream(id, name, remote, elsewhere) => Play(r, id, name, remote, elsewhere)
    case CloseOrDelete(id) => Close(r, id)
    case Disconnect(conn) => RemoveClient(r, conn)
  }

  lemma CreateKeeps(r: Registry, id: Id)
    requires Valid(r)
    ensures Valid(r.(clients := Own(r.clients, id)))
  {
    hide Owned, Published, Routed, Waits, Own;
    var r' := r.(clients := Own(r.clients, id));
    PublishedDepends(r, r');
    RoutedDepends(r, r');
    WaitsDepends(r, r');
    OwnedMore(r, r', id);
  }

  lemma ApplyKeeps(r: Registry, op: Op)
    requires Valid(r)
    ensures Valid(Apply(r, op))
  {
    hide Valid, AddBroadcaster, AddQos, Promote, Play, Close, RemoveClient;
    match op {
      case CreateStream(id) => CreateKeeps(r, id);
      case Publish(id, name) => AddBroadcasterKeeps(r, id, name);
      case PublishQos(id, stream, name) => AddQosKeeps(r, id, stream, name);
      case CheckWaiting(name) => PromoteKeeps(r, name);
      case PlayStream(id, name, remote, elsewhere) => PlayKeeps(r, id, name, remote, elsewhere);
      case CloseOrDelete(id) => CloseKeeps(r, id);
      case Disconnect(conn) => TeardownIsExact(r, conn);
    }
  }

  function Run(r: Registry, ops: seq<Op>): Registry
    decreases |ops|
  {
    if ops == [] then r else Run(Apply(r, ops[0]), ops[1..])
  }

  /** In every reachable state the registry is consistent, and a disconnect from it
      leaves exactly the rest. */
  lemma {:induction false} EveryRunValid(r: Registry, ops: seq<Op>, conn: nat)
    requires Valid(r)
    ensures Valid(Run(r, ops)) && RemoveClient(Run(r, ops), conn) == Without(Run(r, ops), conn)
    decreases |ops|
  {
    hide Valid, Apply, RemoveClient, Without;
    if ops == [] {
      TeardownIsExact(r, conn);
    } else {
      ApplyKeeps(r, ops[0]);
      EveryRunValid(Apply(r, ops[0]), ops[1..], conn);
    }
  }

  lemma EmptyIsValid()
    ensures Valid(EMPTY)
  {
  }
}
