/**
 * Exactly when a frame is written and to whom, in every run of the hub: stated over the directory, the connections in
 * order and the bindings, without the router's own lookups.
 */
module HubDelivery {
  import opened Bytes
  import opened Results
  import opened HubRouter

  // ----- who is there

  /** The directory has an enabled endpoint under the address. */
  predicate Listed(endpoints: seq<Endpoint>, address: Address) {
    exists i :: 0 <= i < |endpoints| && endpoints[i].enabled
      && endpoints[i].machineId == address.machineId && endpoints[i].endpointId == address.endpointId
  }

  predicate Has(h: Hub, client: nat, machine: Option<Text>) {
    if machine.Some? then client in h.machines && h.machines[client] == machine.value else client !in h.machines
  }

  predicate Connected(h: Hub, machine: Option<Text>) {
    exists i :: 0 <= i < |h.clients| && Has(h, h.clients[i], machine)
  }

  /** The connection is the oldest one with this machine ID. */
  predicate Oldest(h: Hub, receiver: nat, machine: Option<Text>) {
    exists i :: 0 <= i < |h.clients| && h.clients[i] == receiver && Has(h, receiver, machine)
      && forall j :: 0 <= j < i ==> !Has(h, h.clients[j], machine)
  }

  function Id(h: Hub, client: nat): Option<Text> { if client in h.machines then Some(h.machines[client]) else None }

  lemma {:induction false} FoundOldest(h: Hub, machine: Option<Text>, k: nat)
    requires k <= |h.clients| && forall j :: 0 <= j < k ==> !Has(h, h.clients[j], machine)
    ensures var found := FindClient(h, h.clients[k..], machine);
      && (found.Some? <==> Connected(h, machine))
      && (found.Some? ==> Oldest(h, found.value, machine))
    decreases |h.clients| - k
  {
    if k < |h.clients| {
      assert h.clients[k..][0] == h.clients[k] && h.clients[k..][1..] == h.clients[k + 1..];
      assert Has(h, h.clients[k], machine) <==> MachineOf(h, h.clients[k]) == machine;
      if !Has(h, h.clients[k], machine) {
        FoundOldest(h, machine, k + 1);
      }
    }
  }

  lemma FindsOldest(h: Hub, machine: Option<Text>)
    ensures var found := FindClient(h, h.clients, machine);
      && (found.Some? <==> Connected(h, machine))
      && (found.Some? ==> Oldest(h, found.value, machine) && Id(h, found.value) == machine)
  {
    assert h.clients[0..] == h.clients;
    FoundOldest(h, machine, 0);
  }

  lemma {:induction false} FindsListed(endpoints: seq<Endpoint>, address: Address)
    ensures var found := FindEndpoint(endpoints, address);
      (found.Some? <==> Listed(endpoints, address)) && (found.Some? ==> found.value.machineId == address.machineId)
  {
    if endpoints != [] {
      FindsListed(endpoints[1..], address);
      var rest := endpoints[1..];
      if Listed(endpoints, address) {
        var i :| 0 <= i < |endpoints| && endpoints[i].enabled
          && endpoints[i].machineId == address.machineId && endpoints[i].endpointId == address.endpointId;
        assert i > 0 ==> rest[i - 1] == endpoints[i];
      }
      if Listed(rest, address) {
        var i :| 0 <= i < |rest| && rest[i].enabled
          && rest[i].machineId == address.machineId && rest[i].endpointId == address.endpointId;
        assert endpoints[i + 1] == rest[i];
      }
    }
  }

  // ----- requests

  /** The route a request asks for. */
  function Asked(h: Hub, w: Waiting): Route {
    Route(Id(h, w.client), w.envelope.address.machineId, w.envelope.streamId, w.envelope.address)
  }

  predicate Bindable(h: Hub, id: Text, route: Route) {
    if id in h.routes then h.routes[id] == route else |h.routes| < 1024
  }

  predicate Deliverable(h: Hub, w: Waiting, endpoints: seq<Endpoint>) {
    && Listed(endpoints, w.envelope.address) && Connected(h, Some(w.envelope.address.machineId))
    && Bindable(h, w.envelope.routeId, Asked(h, w))
  }

  function Rest(h: Hub, k: nat): Hub
    requires k < |h.waiting|
  {
    h.(waiting := h.waiting[..k] + h.waiting[k + 1..])
  }

  /** The request went to the oldest connection of its endpoint's machine and its ID is bound to what it asked for. */
  ghost predicate Delivered(h: Hub, w: Waiting, n: Hub) {
    var (e, route) := (w.envelope, Asked(h, w));
    && n.clients == h.clients && n.machines == h.machines && n.routes == h.routes[e.routeId := route]
    && exists receiver :: Oldest(h, receiver, Some(e.address.machineId))
         && n.log == h.log + (if e.routeId in h.routes then [] else [Bound(e.routeId, route)])
              + [Forwarded(e, Id(h, w.client), Some(e.address.machineId), receiver)]
  }

  lemma ResumedIff(h: Hub, k: nat, endpoints: seq<Endpoint>)
    requires k < |h.waiting|
    ensures var (n, result) := Resumed(h, k, endpoints);
      && n.waiting == h.waiting[..k] + h.waiting[k + 1..]
      && (if Deliverable(h, h.waiting[k], endpoints) then result.Ok? && Delivered(h, h.waiting[k], n)
          else result.Err? && n == Rest(h, k))
  {
    var w, rest := h.waiting[k], Rest(h, k);
    var (e, route) := (w.envelope, Asked(h, w));
    FindsListed(endpoints, e.address);
    FindsOldest(rest, Some(e.address.machineId));
    assert Connected(rest, Some(e.address.machineId)) == Connected(h, Some(e.address.machineId));
    var target := FindClient(rest, rest.clients, Some(e.address.machineId));
    if Deliverable(h, w, endpoints) {
      assert Oldest(h, target.value, Some(e.address.machineId));
      var bound := if e.routeId in h.routes then [] else [Bound(e.routeId, route)];
      var n := Resumed(h, k, endpoints).0;
      assert h.log + [] == h.log;
      assert e.routeId in h.routes ==> h.routes[e.routeId := route] == h.routes;
      assert n.log == h.log + bound + [Forwarded(e, Id(h, w.client), Some(e.address.machineId), target.value)];
    }
  }

  /**
   * Over every run a request that goes on is written if and only if the directory it was given lists its endpoint as
   * enabled, that machine is connected, and its route ID is bound to this very route or free with room for it; then it
   * goes to that machine's oldest connection. Otherwise nothing is written and nothing bound.
   */
  lemma RequestWrittenIff(trace: seq<Event>, states: seq<Hub>, i: nat, k: nat, endpoints: seq<Endpoint>)
    requires Run(EMPTY, trace, states) && i < |trace| && trace[i] == Resume(k, endpoints)
    ensures var (h, n) := (states[i], states[i + 1]);
      && k < |h.waiting|
      && (if Deliverable(h, h.waiting[k], endpoints) then Delivered(h, h.waiting[k], n) else n == Rest(h, k))
  {
    assert Step(states[i], trace[i], states[i + 1]);
    ResumedIff(states[i], k, endpoints);
  }

  // ----- responses and closes

  predicate OfRoute(h: Hub, e: Envelope) {
    e.routeId in h.routes && e.streamId == h.routes[e.routeId].streamId && e.address == h.routes[e.routeId].address
  }

  predicate Answerable(h: Hub, client: nat, e: Envelope) {
    && OfRoute(h, e) && Id(h, client) == Some(h.routes[e.routeId].target)
    && Connected(h, h.routes[e.routeId].source)
  }

  lemma ResponseIff(h: Hub, client: nat, e: Envelope)
    ensures var (n, result) := RouteResponse(h, client, e);
      if Answerable(h, client, e) then
        && result.Ok?
        && exists receiver :: Oldest(h, receiver, h.routes[e.routeId].source)
             && n == h.(log := h.log + [Forwarded(e, Id(h, client), h.routes[e.routeId].source, receiver)])
      else result.Err? && n == h
  {
    if e.routeId in h.routes {
      FindsOldest(h, h.routes[e.routeId].source);
    }
  }

  predicate Closable(h: Hub, client: nat, e: Envelope) {
    && OfRoute(h, e)
    && (Id(h, client) == h.routes[e.routeId].source || Id(h, client) == Some(h.routes[e.routeId].target))
  }

  /** The other end of the route, seen from the client. */
  function Other(h: Hub, client: nat, e: Envelope): Option<Text>
    requires e.routeId in h.routes
  {
    var route := h.routes[e.routeId];
    if Id(h, client) == route.source then Some(route.target) else route.source
  }

  lemma CloseIff(h: Hub, client: nat, e: Envelope)
    ensures var (n, result) := RouteClose(h, client, e);
      if !Closable(h, client, e) then result.Err? && n == h
      else
        && result.Ok? && n.clients == h.clients && n.machines == h.machines && n.waiting == h.waiting
        && n.routes == h.routes - {e.routeId}
        && (if Connected(h, Other(h, client, e)) then
              exists receiver :: Oldest(h, receiver, Other(h, client, e))
                && n.log == h.log + [Forwarded(e, Id(h, client), Other(h, client, e), receiver), Unbound(e.routeId)]
            else n.log == h.log + [Unbound(e.routeId)])
  {
    if Closable(h, client, e) {
      var other := Other(h, client, e);
      FindsOldest(h, other);
      var receiver := FindClient(h, h.clients, other);
      if receiver.Some? {
        var told := Forwarded(e, Id(h, client), other, receiver.value);
        assert h.log + [told] + [Unbound(e.routeId)] == h.log + [told, Unbound(e.routeId)];
      }
    }
  }

  /**
   * Over every run an arriving frame of a paired connection waits if it is a request; a response is written if and only
   * if it comes from the route's target, fits the route, and the requester is connected; a close frees the route if and
   * only if it fits it and comes from either end, and is written to the other end if that is connected. A frame of an
   * unpaired connection, and any other response or close, changes nothing.
   */
  lemma FrameRoutedIff(trace: seq<Event>, states: seq<Hub>, i: nat, client: nat, e: Envelope)
    requires Run(EMPTY, trace, states) && i < |trace| && trace[i] == Frame(client, e)
    ensures var (h, n) := (states[i], states[i + 1]);
      if client !in h.machines || h.machines[client] == [] then n == h
      else if e.direction.Request? then n == h.(waiting := h.waiting + [Waiting(client, e)])
      else if e.direction.Response? then
        if Answerable(h, client, e) then
          exists receiver :: Oldest(h, receiver, h.routes[e.routeId].source)
            && n == h.(log := h.log + [Forwarded(e, Id(h, client), h.routes[e.routeId].source, receiver)])
        else n == h
      else if !Closable(h, client, e) then n == h
      else
        && n.clients == h.clients && n.machines == h.machines && n.waiting == h.waiting
        && n.routes == h.routes - {e.routeId}
        && (if Connected(h, Other(h, client, e)) then
              exists receiver :: Oldest(h, receiver, Other(h, client, e))
                && n.log == h.log + [Forwarded(e, Id(h, client), Other(h, client, e), receiver), Unbound(e.routeId)]
            else n.log == h.log + [Unbound(e.routeId)])
  {
    assert Step(states[i], trace[i], states[i + 1]);
    ResponseIff(states[i], client, e);
    CloseIff(states[i], client, e);
  }

  // ----- machines that are forgotten, connections that close

  function Unbounds(ids: seq<Text>): (r: seq<Entry>)
    ensures |r| == |ids|
  {
    seq(|ids|, i requires 0 <= i < |ids| => Unbound(ids[i]))
  }

  /** Exactly these routes are gone, each with one entry in the log; the other bindings are as they were. */
  ghost predicate Freed(h: Hub, n: Hub, gone: set<Text>) {
    && n.routes == h.routes - gone
    && exists ids: seq<Text> ::
         && (forall id :: id in ids <==> id in gone) && (forall i, j :: 0 <= i < j < |ids| ==> ids[i] != ids[j])
         && n.log == h.log + Unbounds(ids)
  }

  /** The routes with the machine at either end. */
  function AtEither(h: Hub, machine: Text): set<Text> {
    set id | id in h.routes && (h.routes[id].source == Some(machine) || h.routes[id].target == machine)
  }

  lemma {:induction false} UndoneFrees(h: Hub, ids: seq<Text>)
    ensures var n := UndoneAll(h, ids);
      && n.clients == h.clients && n.machines == h.machines && n.waiting == h.waiting
      && n.routes == h.routes - (set id | id in ids) && n.log == h.log + Unbounds(ids)
    decreases |ids|
  {
    if ids == [] {
      assert h.log + Unbounds(ids) == h.log;
    } else {
      UndoneFrees(Undone(h, ids[0]), ids[1..]);
      assert ids == [ids[0]] + ids[1..];
      assert (set id | id in ids) == {ids[0]} + set id | id in ids[1..];
      assert h.log + [Unbound(ids[0])] + Unbounds(ids[1..]) == h.log + Unbounds(ids);
    }
  }

  lemma ListedFreed(h: Hub, n: Hub, ids: seq<Text>, gone: set<Text>)
    requires Lists(ids, gone) && n == UndoneAll(h, ids)
    ensures n.clients == h.clients && n.machines == h.machines && n.waiting == h.waiting && Freed(h, n, gone)
  {
    UndoneFrees(h, ids);
    assert (set id | id in ids) == gone;
  }

  lemma ForgetsFrees(h: Hub, machine: Text, n: Hub)
    requires Forgets(h, machine, n)
    ensures n.clients == h.clients && n.machines == h.machines && n.waiting == h.waiting
    ensures Freed(h, n, AtEither(h, machine))
  {
    var ids :| Lists(ids, Mentioning(h.routes, machine)) && n == UndoneAll(h, ids);
    assert Mentioning(h.routes, machine) == AtEither(h, machine);
    ListedFreed(h, n, ids, AtEither(h, machine));
  }

  /**
   * Over every run, forgetting a machine takes its ID from every connection that has it, frees every route with that
   * machine at either end, and leaves all other IDs, routes, connections and waiting requests alone.
   */
  lemma ForgottenExactly(trace: seq<Event>, states: seq<Hub>, i: nat, machine: Text)
    requires Run(EMPTY, trace, states) && i < |trace| && trace[i] == Forget(machine)
    ensures var (h, n) := (states[i], states[i + 1]);
      && n.clients == h.clients && n.waiting == h.waiting && Freed(h, n, AtEither(h, machine))
      && forall c: nat :: Id(n, c) == if c in h.clients && Id(h, c) == Some(machine) then None else Id(h, c)
  {
    var (h, n) := (states[i], states[i + 1]);
    assert Step(states[i], trace[i], states[i + 1]);
    var cleared := h.(machines := Unassigned(h, machine));
    ForgetsFrees(cleared, machine, n);
    assert AtEither(cleared, machine) == AtEither(h, machine);
  }

  ghost predicate Distinct(clients: seq<nat>) { forall i, j :: 0 <= i < j < |clients| ==> clients[i] != clients[j] }

  lemma {:induction false} OthersStay(clients: seq<nat>, client: nat)
    requires client !in clients
    ensures WithoutClient(clients, client) == clients
  {
    if clients != [] {
      OthersStay(clients[1..], client);
    }
  }

  lemma {:induction false} OneTakenOut(clients: seq<nat>, k: nat)
    requires Distinct(clients) && k < |clients|
    ensures WithoutClient(clients, clients[k]) == clients[..k] + clients[k + 1..]
  {
    var rest := clients[1..];
    if k == 0 {
      OthersStay(rest, clients[0]);
    } else {
      OneTakenOut(rest, k - 1);
      assert rest[..k - 1] + rest[k..] == clients[1..k] + clients[k + 1..];
      assert clients[..k] == [clients[0]] + clients[1..k];
    }
  }

  lemma LeftDistinct(clients: seq<nat>, client: nat)
    requires Distinct(clients)
    ensures Distinct(WithoutClient(clients, client))
  {
    if client in clients {
      var k :| 0 <= k < |clients| && clients[k] == client;
      OneTakenOut(clients, k);
    } else {
      OthersStay(clients, client);
    }
  }

  lemma StepDistinct(h: Hub, event: Event, n: Hub)
    requires Distinct(h.clients) && Step(h, event, n)
    ensures Distinct(n.clients)
  {
    match event {
      case Forget(machine) => ForgetsFrees(h.(machines := Unassigned(h, machine)), machine, n);
      case Disconnect(client) =>
        LeftDistinct(h.clients, client);
        if Paired(h, client) {
          ForgetsFrees(h.(clients := WithoutClient(h.clients, client)), h.machines[client], n);
        }
      case Stop =>
        var ids :| Lists(ids, h.routes.Keys) && n == UndoneAll(h.(clients := []), ids);
        UndoneFrees(h.(clients := []), ids);
      case _ =>
    }
  }

  lemma {:induction false} RunDistinct(trace: seq<Event>, states: seq<Hub>, i: nat)
    requires Run(EMPTY, trace, states) && i < |states|
    ensures Distinct(states[i].clients)
  {
    if i > 0 {
      RunDistinct(trace, states, i - 1);
      StepDistinct(states[i - 1], trace[i - 1], states[i - 1 + 1]);
    }
  }

  /**
   * Over every run, a connection that closes leaves the list and nothing moves there; if it was paired, every route
   * with its machine at either end is freed, otherwise none. Machine IDs and waiting requests stay.
   */
  lemma DisconnectedExactly(trace: seq<Event>, states: seq<Hub>, i: nat, client: nat)
    requires Run(EMPTY, trace, states) && i < |trace| && trace[i] == Disconnect(client)
    ensures var (h, n) := (states[i], states[i + 1]);
      && n.machines == h.machines && n.waiting == h.waiting
      && (forall k :: 0 <= k < |h.clients| && h.clients[k] == client ==>
            n.clients == h.clients[..k] + h.clients[k + 1..])
      && (client !in h.clients ==> n.clients == h.clients)
      && (if Id(h, client).Some? && Id(h, client).value != [] then Freed(h, n, AtEither(h, Id(h, client).value))
          else n.routes == h.routes && n.log == h.log)
  {
    var (h, n) := (states[i], states[i + 1]);
    assert Step(states[i], trace[i], states[i + 1]);
    RunDistinct(trace, states, i);
    var gone := h.(clients := WithoutClient(h.clients, client));
    if Paired(h, client) {
      ForgetsFrees(gone, h.machines[client], n);
      assert AtEither(gone, h.machines[client]) == AtEither(h, h.machines[client]);
    }
    forall k | 0 <= k < |h.clients| && h.clients[k] == client
      ensures n.clients == h.clients[..k] + h.clients[k + 1..]
    {
      OneTakenOut(h.clients, k);
    }
    if client !in h.clients {
      OthersStay(h.clients, client);
    }
  }

  /** Over every run, stopping drops every connection and every route; what waits goes on waiting. */
  lemma StoppedExactly(trace: seq<Event>, states: seq<Hub>, i: nat)
    requires Run(EMPTY, trace, states) && i < |trace| && trace[i] == Stop
    ensures var (h, n) := (states[i], states[i + 1]);
      n.clients == [] && n.machines == h.machines && n.waiting == h.waiting && n.routes == map[]
      && Freed(h, n, h.routes.Keys)
  {
    var (h, n) := (states[i], states[i + 1]);
    assert Step(states[i], trace[i], states[i + 1]);
    var ids :| Lists(ids, h.routes.Keys) && n == UndoneAll(h.(clients := []), ids);
    ListedFreed(h.(clients := []), n, ids, h.routes.Keys);
  }
}
