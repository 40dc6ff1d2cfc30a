/** The routing registry updated in place, each method proved equal to its
    function of `StreamRegistry`. */
module RoutingObject {
  import opened IntegerSets
  import opened StreamRegistry

  class Routing {
    var streams: map<Id, Name>
    var names: map<Name, Id>
    var broadcasts: map<Id, Option<Id>>
    var edges: map<Id, Id>
    var subscribers: set<Id>
    var subscribed: map<Id, Name>
    var clients: map<nat, set<nat>>
    var waiting: map<Name, set<Id>>

    function State(): Registry
      reads this
    {
      Registry(streams, names, broadcasts, edges, subscribers, subscribed, clients, waiting)
    }

    constructor ()
      ensures State() == EMPTY && Valid(State())
    {
      streams, names, broadcasts, edges := map[], map[], map[], map[];
      subscribers, subscribed, clients, waiting := {}, map[], map[], map[];
      new;
      EmptyIsValid();
    }

    method InsertClient(id: Id)
      modifies `clients
      ensures clients == Own(old(clients), id)
    {
      if id.conn !in clients {
        clients := clients[id.conn := {}];
      }
      clients := clients[id.conn := clients[id.conn] + {id.stream}];
    }

    method Publish(id: Id, name: Name) returns (ok: bool)
      requires Valid(State())
      modifies this
      ensures State() == AddBroadcaster(old(State()), id, name) && Valid(State())
      ensures ok <==> id !in old(streams) && name !in old(names)
    {
      hide Valid, Own;
      AddBroadcasterKeeps(State(), id, name);
      if id in streams {
        return false;
      }
      if name in names {
        return false;
      }
      streams, names := streams[id := name], names[name := id];
      if id !in broadcasts {
        broadcasts := broadcasts[id := None];
      }
      InsertClient(id);
      return true;
    }

    /** Erases the publisher, then walks its edges. */
    method Unpublish(id: Id) returns (was: bool, qos: Option<Id>, detached: set<Id>)
      modifies `streams, `names, `broadcasts, `edges, `subscribers
      ensures State() == RemoveBroadcaster(old(State()), id)
      ensures was <==> id in old(streams)
      ensures qos == if was && id in old(broadcasts) then old(broadcasts)[id] else None
      ensures detached == if was then SubscribersOf(old(State()), id) else {}
    {
      was, qos, detached := false, None, {};
      if id !in streams {
        return;
      }
      was := true;
      names := names - {streams[id]};
      streams := streams - {id};
      if id in broadcasts {
        qos := broadcasts[id];
        broadcasts := broadcasts - {id};
      } else {
        assert broadcasts - {id} == broadcasts;
      }
      detached := DetachAll(id);
    }

    method DetachAll(id: Id) returns (detached: set<Id>)
      modifies `edges, `subscribers
      ensures detached == set s | s in old(edges) && old(edges)[s] == id
      ensures edges == old(edges) - detached && subscribers == old(subscribers) - detached
    {
      detached := {};
      var todo := set s | s in edges && edges[s] == id;
      ghost var subs := todo;
      while todo != {}
        invariant todo + detached == subs && todo !! detached
        invariant edges == old(edges) - detached && subscribers == old(subscribers) - detached
        decreases |todo|
      {
        var sub :| sub in todo;
        edges := edges - {sub};
        subscribers := subscribers - {sub};
        detached := detached + {sub};
        todo := todo - {sub};
      }
    }

    method Detach(id: Id) returns (name: Name)
      modifies `edges, `subscribers
      ensures State() == DetachSubscriber(old(State()), id)
      ensures name == if id in subscribed then subscribed[id] else ""
    {
      name := if id in subscribed then subscribed[id] else "";
      if id in edges {
        edges := edges - {id};
      } else {
        assert edges - {id} == edges;
      }
      subscribers := subscribers - {id};
    }

    method Subscribe(broadcaster: Id, sub: Id)
      modifies `edges, `subscribers, `clients
      ensures State() == AddSubscriber(old(State()), broadcaster, sub)
    {
      subscribers := subscribers + {sub};
      edges := edges - {sub};
      edges := edges[sub := broadcaster];
      assert edges == old(edges)[sub := broadcaster];
      InsertClient(sub);
    }

    /** Closes the publisher, its subscribers' edges, and its qos stream after it. */
    method CloseStreamOf(id: Id)
      modifies `streams, `names, `broadcasts, `edges, `subscribers
      ensures State() == CloseStream(old(State()), id)
      decreases |streams|
    {
      hide RemoveBroadcaster, DetachSubscriber;
      if id in streams {
        Shrinks(State(), id);
      } else {
        RemoveNothing(State(), id);
      }
      var was, qos, detached := Unpublish(id);
      if was {
        if qos.Some? {
          CloseStreamOf(qos.value);
        }
      } else {
        var name := Detach(id);
      }
    }

    method Forget(id: Id)
      modifies `edges, `subscribers, `waiting, `subscribed
      ensures State() == ForgetSubscription(old(State()), id)
    {
      var name := Detach(id);
      if id in subscribed {
        if subscribed[id] in waiting {
          waiting := waiting[subscribed[id] := waiting[subscribed[id]] - {id}];
        }
        subscribed := subscribed - {id};
      }
    }

    method Wait(id: Id, name: Name)
      modifies `edges, `subscribers, `waiting, `subscribed, `clients
      ensures State() == AddWaitingClient(old(State()), id, name)
    {
      hide ForgetSubscription, Own;
      Forget(id);
      waiting := waiting[name := (if name in waiting then waiting[name] else {}) + {id}];
      InsertClient(id);
      subscribed := subscribed[id := name];
    }

    method HandlePlay(id: Id, name: Name, remote: bool, elsewhere: bool)
      requires Valid(State())
      modifies this
      ensures State() == Play(old(State()), id, name, remote, elsewhere) && Valid(State())
    {
      hide Valid, ForgetSubscription, AddWaitingClient, AddSubscriber;
      PlayKeeps(State(), id, name, remote, elsewhere);
      var found := name in names;
      var broadcaster := if found then names[name] else id;
      if !found && !remote {
        Forget(id);
        if elsewhere {
          return;
        }
      }
      Wait(id, name);
      if found {
        Subscribe(broadcaster, id);
      }
    }

    method HandleClose(id: Id)
      requires Valid(State())
      modifies this
      ensures State() == Close(old(State()), id) && Valid(State()) && !Mentions(State(), id)
    {
      hide Valid, CloseStream, ForgetSubscription, Mentions;
      CloseKeeps(State(), id);
      CloseStreamOf(id);
      Forget(id);
      if id.conn in clients {
        clients := clients[id.conn := clients[id.conn] - {id.stream}];
      }
    }

    /** Everyone taken from the waiting list is subscribed, one by one. */
    method CheckWaitingClients(name: Name)
      requires Valid(State())
      modifies this
      ensures State() == Promote(old(State()), name) && Valid(State())
    {
      hide Valid, Own;
      PromoteKeeps(State(), name);
      if name !in names {
        return;
      }
      var id := names[name];
      WaitersOwn(State(), name);
      var taken := if name in waiting then waiting[name] else {};
      if name in waiting {
        waiting := waiting - {name};
      } else {
        assert waiting - {name} == waiting;
      }
      SubscribeAll(id, taken);
    }

    method SubscribeAll(id: Id, subs: set<Id>)
      requires forall s | s in subs :: Own(clients, s) == clients
      modifies `edges, `subscribers, `clients
      ensures subscribers == old(subscribers) + subs && edges == old(edges) + AllTo(subs, id)
      ensures clients == old(clients)
    {
      hide Own, AllTo;
      var todo := subs;
      AllToNone(edges, id);
      assert subs - todo == {};
      while todo != {}
        invariant todo <= subs
        invariant subscribers == old(subscribers) + (subs - todo)
        invariant edges == old(edges) + AllTo(subs - todo, id)
        invariant clients == old(clients)
        decreases |todo|
      {
        var sub :| sub in todo;
        AllToMore(old(edges), subs - todo, sub, id);
        Subscribe(id, sub);
        assert subs - todo + {sub} == subs - (todo - {sub});
        todo := todo - {sub};
      }
      assert subs - todo == subs;
    }

    method HandleDisconnect(conn: nat)
      requires Valid(State())
      modifies this
      ensures State() == Without(old(State()), conn) && Valid(State()) && conn !in clients
    {
      hide Valid, CloseStream, ForgetSubscription, Without, Sweep;
      TeardownIsExact(State(), conn);
      var todo := if conn in clients then clients[conn] else {};
      if conn in clients {
        clients := clients - {conn};
      } else {
        assert clients - {conn} == clients;
      }
      while todo != {}
        invariant Sweep(State(), conn, todo) == RemoveClient(old(State()), conn)
        decreases |todo|
      {
        var k := MinOf(todo);
        SweepUnfolds(State(), conn, todo);
        CloseStreamOf(Id(conn, k));
        Forget(Id(conn, k));
        todo := todo - {k};
      }
      SweepEnds(State(), conn);
    }
  }

  function AllTo(subs: set<Id>, id: Id): map<Id, Id> {
    map s | s in subs :: id
  }

  lemma AllToNone(edges: map<Id, Id>, id: Id)
    ensures edges + AllTo({}, id) == edges
  {
  }

  lemma AllToMore(edges: map<Id, Id>, subs: set<Id>, sub: Id, id: Id)
    ensures (edges + AllTo(subs, id))[sub := id] == edges + AllTo(subs + {sub}, id)
  {
  }

  lemma Shrinks(r: Registry, id: Id)
    requires id in r.streams
    ensures |RemoveBroadcaster(r, id).streams| < |r.streams|
  {
    Shorter(r.streams, id);
  }

  lemma RemoveNothing(r: Registry, id: Id)
    requires id !in r.streams
    ensures RemoveBroadcaster(r, id) == r
  {
  }

  lemma WaitersOwn(r: Registry, name: Name)
    requires Valid(r)
    ensures forall id | id in WaitingFor(r, name) :: Own(r.clients, id) == r.clients
  {
    forall id | id in WaitingFor(r, name)
      ensures Own(r.clients, id) == r.clients
    {
      assert Owns(r.clients, id);
      assert r.clients[id.conn] + {id.stream} == r.clients[id.conn];
    }
  }

  lemma SweepUnfolds(r: Registry, conn: nat, streams: set<nat>)
    requires streams != {}
    ensures var id := Id(conn, MinOf(streams));
            Sweep(r, conn, streams) == Sweep(ForgetSubscription(CloseStream(r, id), id), conn, streams - {id.stream})
  {
  }

  lemma SweepEnds(r: Registry, conn: nat)
    ensures Sweep(r, conn, {}) == r
  {
  }
}
