/** The hub's routing state as the source holds it: a route table and a client list updated in place. */
module HubServices {
  import opened Bytes
  import opened Results
  import opened HubRouter

  class HubService {
    var clients: seq<nat>
    var machines: map<nat, Text>
    var routes: map<Text, Route>
    var waiting: seq<Waiting>
    ghost var log: seq<Entry>

    ghost function View(): Hub reads this { Hub(clients, machines, routes, waiting, log) }

    constructor ()
      ensures View() == EMPTY
    {
      clients, machines, routes, waiting, log := [], map[], map[], [], [];
    }

    /** The first connected client whose machine ID is the given one. */
    method Find(machine: Option<Text>) returns (found: Option<nat>)
      ensures found == FindClient(View(), clients, machine)
    {
      var i := 0;
      while i < |clients|
        invariant 0 <= i <= |clients|
        invariant FindClient(View(), clients[i..], machine) == FindClient(View(), clients, machine)
      {
        var id := if clients[i] in machines then Some(machines[clients[i]]) else None;
        if id == machine {
          return Some(clients[i]);
        }
        assert clients[i..][1..] == clients[i + 1..];
        i := i + 1;
      }
      return None;
    }

    /** What runs of a frame before its first wait. */
    method RouteOpaqueFrame(client: nat, e: Envelope) returns (result: Outcome<(), RouteError>)
      modifies this
      ensures (View(), result) == Arrive(old(View()), client, e)
    {
      if client !in machines || machines[client] == [] {
        return Err(Unpaired);
      }
      if e.direction == Request {
        waiting := waiting + [Waiting(client, e)];
        return Ok(());
      }
      if e.routeId !in routes {
        return Err(if e.direction == Close then UnknownClose else UnknownResponse);
      }
      var route := routes[e.routeId];
      var machine := Some(machines[client]);
      if e.direction == Close {
        if e.streamId != route.streamId || e.address != route.address
          || (machine != route.source && machine != Some(route.target)) {
          return Err(UnknownClose);
        }
        var other := if machine == route.source then Some(route.target) else route.source;
        var receiver := Find(other);
        if receiver.Some? {
          log := log + [Forwarded(e, machine, MachineOf(View(), receiver.value), receiver.value)];
        }
        routes := routes - {e.routeId};
        log := log + [Unbound(e.routeId)];
        return Ok(());
      }
      if machine != Some(route.target) || e.streamId != route.streamId || e.address != route.address {
        return Err(UnknownResponse);
      }
      var receiver := Find(route.source);
      if receiver.None? {
        return Err(RequesterUnavailable);
      }
      log := log + [Forwarded(e, machine, MachineOf(View(), receiver.value), receiver.value)];
      return Ok(());
    }

    /** A waiting request once the directory has been read. */
    method RouteRequest(k: nat, endpoints: seq<Endpoint>) returns (result: Outcome<(), RouteError>)
      requires k < |waiting|
      modifies this
      ensures (View(), result) == Resumed(old(View()), k, endpoints)
    {
      var client, e := waiting[k].client, waiting[k].envelope;
      waiting := waiting[..k] + waiting[k + 1..];
      var endpoint := FindEndpoint(endpoints, e.address);
      if endpoint.None? {
        return Err(EndpointUnavailable);
      }
      var target := Find(Some(endpoint.value.machineId));
      if target.None? {
        return Err(EndpointUnavailable);
      }
      var source := if client in machines then Some(machines[client]) else None;
      var route := Route(source, endpoint.value.machineId, e.streamId, e.address);
      if e.routeId in routes {
        var existing := routes[e.routeId];
        if existing.source != route.source || existing.target != route.target || existing.streamId != route.streamId
           || existing.address != route.address {
          return Err(AlreadyBound);
        }
      } else {
        if |routes| >= HUB_MAX_ACTIVE_ROUTES {
          return Err(CapacityReached);
        }
        routes := routes[e.routeId := route];
        log := log + [Bound(e.routeId, route)];
      }
      log := log + [Forwarded(e, source, MachineOf(View(), target.value), target.value)];
      return Ok(());
    }

    /** Each route of the table in turn, deleting those that mention the machine. */
    method ForgetRoutes(machine: Text)
      modifies this`routes, this`log
      ensures Forgets(old(View()), machine, View())
    {
      var ids := routes.Keys;
      ghost var dropped: seq<Text> := [];
      ghost var start := View();
      while ids != {}
        invariant View() == UndoneAll(start, dropped)
        invariant forall id :: id in dropped <==> id in Mentioning(start.routes, machine) && id !in ids
        invariant forall i, j :: 0 <= i < j < |dropped| ==> dropped[i] != dropped[j]
        invariant ids <= start.routes.Keys
        invariant forall id :: id in ids ==> id in routes && routes[id] == start.routes[id]
        decreases |ids|
      {
        var id :| id in ids;
        ids := ids - {id};
        if routes[id].source == Some(machine) || routes[id].target == machine {
          UndoneLast(start, dropped, id);
          routes := routes - {id};
          log := log + [Unbound(id)];
          dropped := dropped + [id];
        }
      }
      assert Lists(dropped, Mentioning(start.routes, machine));
    }

    /** The synchronous part of forgetting a machine. */
    method ForgetMachine(machine: Text)
      modifies this
      ensures Step(old(View()), Forget(machine), View())
    {
      ghost var start := View();
      var i := 0;
      while i < |clients|
        invariant 0 <= i <= |clients|
        invariant routes == start.routes && clients == start.clients && waiting == start.waiting && log == start.log
        invariant machines == Unassigned(start.(clients := start.clients[..i]), machine)
      {
        assert start.clients[..i + 1] == start.clients[..i] + [clients[i]];
        if clients[i] in machines && machines[clients[i]] == machine {
          machines := machines - {clients[i]};
        }
        i := i + 1;
      }
      assert start.clients[..|clients|] == start.clients;
      ForgetRoutes(machine);
    }

    /** A connection's close handler. */
    method OnClose(client: nat)
      modifies this
      ensures Step(old(View()), Disconnect(client), View())
    {
      clients := WithoutClient(clients, client);
      if client in machines && machines[client] != [] {
        ForgetRoutes(machines[client]);
      }
    }
  }

  lemma {:induction false} UndoneLast(h: Hub, ids: seq<Text>, id: Text)
    ensures UndoneAll(h, ids + [id]) == Undone(UndoneAll(h, ids), id)
    decreases |ids|
  {
    if ids == [] {
      assert ids + [id] == [id];
    } else {
      assert (ids + [id])[1..] == ids[1..] + [id];
      UndoneLast(Undone(h, ids[0]), ids[1..], id);
    }
  }
}
