/**
 * The hub's opaque routing: route bindings, the wait inside a request, and what every log of forwarded frames keeps.
 */
module HubRouter {
  import opened Bytes
  import opened Results

  const HUB_MAX_ACTIVE_ROUTES := 1024

  datatype Address = Address(machineId: Text, endpointId: Text, principalId: Text, stableSessionKey: Text)

  datatype Direction = Request | Response | Close

  datatype Envelope = Envelope(direction: Direction, routeId: Text, streamId: Text, address: Address, payload: Text)

  /** The source is what the requester's machine ID was when the route was bound; it may have been cleared by then. */
  datatype Route = Route(source: Option<Text>, target: Text, streamId: Text, address: Address)

  datatype Endpoint = Endpoint(machineId: Text, endpointId: Text, enabled: bool)

  /** A request waiting for the directory. */
  datatype Waiting = Waiting(client: nat, envelope: Envelope)

  /** Bindings as they are made and undone, and frames as they are written, in order. */
  datatype Entry =
    | Bound(id: Text, route: Route)
    | Unbound(id: Text)
    | Forwarded(envelope: Envelope, from: Option<Text>, to: Option<Text>, receiver: nat)

  /** `clients` keep connection order; a client's machine ID outlives its connection while a request waits. */
  datatype Hub = Hub(
    clients: seq<nat>, machines: map<nat, Text>, routes: map<Text, Route>, waiting: seq<Waiting>, log: seq<Entry>)

  datatype RouteError =
    | Unpaired | EndpointUnavailable | AlreadyBound | CapacityReached
    | UnknownClose | UnknownResponse | RequesterUnavailable

  const EMPTY := Hub([], map[], map[], [], [])

  // ----- lookups

  function MachineOf(h: Hub, client: nat): Option<Text> {
    if client in h.machines then Some(h.machines[client]) else None
  }

  predicate Paired(h: Hub, client: nat) { client in h.machines && h.machines[client] != [] }

  /** The first connected client with this machine ID; an absent ID matches clients that have none. */
  function FindClient(h: Hub, clients: seq<nat>, machine: Option<Text>): Option<nat> {
    if clients == [] then None
    else if MachineOf(h, clients[0]) == machine then Some(clients[0])
    else FindClient(h, clients[1..], machine)
  }

  function FindEndpoint(endpoints: seq<Endpoint>, address: Address): Option<Endpoint> {
    if endpoints == [] then None
    else if endpoints[0].machineId == address.machineId && endpoints[0].endpointId == address.endpointId
      && endpoints[0].enabled
    then Some(endpoints[0])
    else FindEndpoint(endpoints[1..], address)
  }

  lemma {:induction false} FoundClient(h: Hub, clients: seq<nat>, machine: Option<Text>)
    ensures FindClient(h, clients, machine).Some? ==>
      FindClient(h, clients, machine).value in clients && MachineOf(h, FindClient(h, clients, machine).value) == machine
  {
    if clients != [] {
      FoundClient(h, clients[1..], machine);
    }
  }

  // ----- routing

  function Written(h: Hub, envelope: Envelope, sender: nat, receiver: nat): Hub {
    h.(log := h.log + [Forwarded(envelope, MachineOf(h, sender), MachineOf(h, receiver), receiver)])
  }

  function BoundTo(h: Hub, id: Text, route: Route): Hub {
    h.(routes := h.routes[id := route], log := h.log + [Bound(id, route)])
  }

  function Undone(h: Hub, id: Text): Hub { h.(routes := h.routes - {id}, log := h.log + [Unbound(id)]) }

  /** A request after its wait, with the directory it was given. */
  function RouteRequest(h: Hub, client: nat, e: Envelope, endpoints: seq<Endpoint>): (Hub, Outcome<(), RouteError>) {
    var endpoint := FindEndpoint(endpoints, e.address);
    if endpoint.None? then (h, Err(EndpointUnavailable)) else
    var target := FindClient(h, h.clients, Some(endpoint.value.machineId));
    if target.None? then (h, Err(EndpointUnavailable)) else
    var route := Route(MachineOf(h, client), endpoint.value.machineId, e.streamId, e.address);
    if e.routeId in h.routes && h.routes[e.routeId] != route then (h, Err(AlreadyBound))
    else if e.routeId !in h.routes && |h.routes| >= HUB_MAX_ACTIVE_ROUTES then (h, Err(CapacityReached))
    else
      var bound := if e.routeId in h.routes then h else BoundTo(h, e.routeId, route);
      (Written(bound, e, client, target.value), Ok(()))
  }

  /** The k-th waiting request goes on. */
  function Resumed(h: Hub, k: nat, endpoints: seq<Endpoint>): (Hub, Outcome<(), RouteError>)
    requires k < |h.waiting|
  {
    RouteRequest(h.(waiting := h.waiting[..k] + h.waiting[k + 1..]), h.waiting[k].client, h.waiting[k].envelope,
      endpoints)
  }

  predicate Fits(route: Route, e: Envelope) { e.streamId == route.streamId && e.address == route.address }

  function OtherEnd(route: Route, machine: Option<Text>): Option<Text> {
    if machine == route.source then Some(route.target) else route.source
  }

  function RouteClose(h: Hub, client: nat, e: Envelope): (Hub, Outcome<(), RouteError>) {
    if e.routeId !in h.routes then (h, Err(UnknownClose)) else
    var route := h.routes[e.routeId];
    var machine := MachineOf(h, client);
    if !Fits(route, e) || (machine != route.source && machine != Some(route.target)) then (h, Err(UnknownClose))
    else
      var receiver := FindClient(h, h.clients, OtherEnd(route, machine));
      var told := if receiver.Some? then Written(h, e, client, receiver.value) else h;
      (Undone(told, e.routeId), Ok(()))
  }

  function RouteResponse(h: Hub, client: nat, e: Envelope): (Hub, Outcome<(), RouteError>) {
    if e.routeId !in h.routes || MachineOf(h, client) != Some(h.routes[e.routeId].target)
      || !Fits(h.routes[e.routeId], e)
    then (h, Err(UnknownResponse))
    else
      var receiver := FindClient(h, h.clients, h.routes[e.routeId].source);
      if receiver.None? then (h, Err(RequesterUnavailable)) else (Written(h, e, client, receiver.value), Ok(()))
  }

  /** A frame as it arrives: a request starts to wait, the others are routed at once. */
  function Arrive(h: Hub, client: nat, e: Envelope): (Hub, Outcome<(), RouteError>) {
    if !Paired(h, client) then (h, Err(Unpaired))
    else
      match e.direction
      case Request => (h.(waiting := h.waiting + [Waiting(client, e)]), Ok(()))
      case Close => RouteClose(h, client, e)
      case Response => RouteResponse(h, client, e)
  }

  predicate Mentions(route: Route, machine: Text) { route.source == Some(machine) || route.target == machine }

  function Mentioning(routes: map<Text, Route>, machine: Text): set<Text> {
    set id | id in routes && Mentions(routes[id], machine)
  }

  /** Dropping a list of route IDs, one after another. */
  function UndoneAll(h: Hub, ids: seq<Text>): Hub
    decreases |ids|
  {
    if ids == [] then h else UndoneAll(Undone(h, ids[0]), ids[1..])
  }

  /** Some listing of the routes that mention a machine is undone. */
  ghost predicate Forgets(h: Hub, machine: Text, after: Hub) {
    exists ids :: Lists(ids, Mentioning(h.routes, machine)) && after == UndoneAll(h, ids)
  }

  ghost predicate Lists(ids: seq<Text>, members: set<Text>) {
    (forall id :: id in ids <==> id in members) && forall i, j :: 0 <= i < j < |ids| ==> ids[i] != ids[j]
  }

  /** Clearing the machine ID of every connected client that has it. */
  function Unassigned(h: Hub, machine: Text): map<nat, Text> {
    map c | c in h.machines && (c !in h.clients || h.machines[c] != machine) :: h.machines[c]
  }

  function WithoutClient(clients: seq<nat>, client: nat): seq<nat> {
    if clients == [] then []
    else if clients[0] == client then WithoutClient(clients[1..], client)
    else [clients[0]] + WithoutClient(clients[1..], client)
  }

  // ----- steps and runs

  datatype Event =
    | Connect(client: nat)
    | Identify(client: nat, machine: Text)
    | Frame(client: nat, envelope: Envelope)
    | Resume(k: nat, endpoints: seq<Endpoint>)
    | Forget(machine: Text)
    | Disconnect(client: nat)
    | Stop

  ghost predicate Step(h: Hub, event: Event, n: Hub) {
    match event
    case Connect(client) => client !in h.clients && n == h.(clients := h.clients + [client])
    case Identify(client, machine) => n == h.(machines := h.machines[client := machine])
    case Frame(client, e) => n == Arrive(h, client, e).0
    case Resume(k, endpoints) =>
      k < |h.waiting| && n == Resumed(h, k, endpoints).0
    case Forget(machine) =>
      Forgets(h.(machines := Unassigned(h, machine)), machine, n)
    case Disconnect(client) =>
      var gone := h.(clients := WithoutClient(h.clients, client));
      if Paired(h, client) then Forgets(gone, h.machines[client], n) else n == gone
    case Stop => exists ids :: Lists(ids, h.routes.Keys) && n == UndoneAll(h.(clients := []), ids)
  }

  ghost predicate Run(h: Hub, trace: seq<Event>, states: seq<Hub>) {
    && |states| == |trace| + 1 && states[0] == h
    && forall i :: 0 <= i < |trace| ==> Step(states[i], trace[i], states[i + 1])
  }

  // ----- what the log keeps

  /** The binding a route ID has after a log. */
  function Binding(log: seq<Entry>, id: Text): Option<Route> {
    if log == [] then None
    else
      match log[|log| - 1]
      case Bound(x, route) => if x == id then Some(route) else Binding(log[..|log| - 1], id)
      case Unbound(x) => if x == id then None else Binding(log[..|log| - 1], id)
      case Forwarded(_, _, _, _) => Binding(log[..|log| - 1], id)
  }

  /**
   * What may be written next: only a bound route carries frames, of its own stream and address; requests go from
   * its source to its target, responses from its target to its source, a close from either end to the other. An ID
   * is bound only while free and freed only while bound.
   */
  predicate Allowed(log: seq<Entry>, entry: Entry) {
    match entry
    case Bound(id, _) => Binding(log, id).None?
    case Unbound(id) => Binding(log, id).Some?
    case Forwarded(e, from, to, _) =>
      && Binding(log, e.routeId).Some?
      && var route := Binding(log, e.routeId).value;
      && Fits(route, e)
      && match e.direction
         case Request => from == route.source && to == Some(route.target)
         case Response => from == Some(route.target) && to == route.source
         case Close =>
           || (from == route.source && to == Some(route.target))
           || (from == Some(route.target) && to == route.source)
  }

  /** The entry after a forwarded close frees the route. */
  predicate ClosedAt(log: seq<Entry>, i: nat)
    requires i < |log|
  {
    log[i].Forwarded? && log[i].envelope.direction.Close? ==>
      i + 1 < |log| && log[i + 1] == Unbound(log[i].envelope.routeId)
  }

  ghost predicate Confined(log: seq<Entry>) {
    && (forall i :: 0 <= i < |log| ==> Allowed(log[..i], log[i]))
    && (forall i :: 0 <= i < |log| ==> ClosedAt(log, i))
  }

  ghost predicate Agrees(h: Hub) {
    forall id :: Binding(h.log, id) == if id in h.routes then Some(h.routes[id]) else None
  }

  ghost predicate Inv(h: Hub) {
    && Agrees(h) && Confined(h.log) && |h.routes| <= HUB_MAX_ACTIVE_ROUTES
    && forall w :: w in h.waiting ==> w.envelope.direction.Request?
  }

  lemma BindingAppend(log: seq<Entry>, entry: Entry, id: Text)
    ensures Binding(log + [entry], id) ==
      match entry
      case Bound(x, route) => if x == id then Some(route) else Binding(log, id)
      case Unbound(x) => if x == id then None else Binding(log, id)
      case Forwarded(_, _, _, _) => Binding(log, id)
  {
    assert (log + [entry])[..|log|] == log;
  }

  lemma ConfinedAppend(log: seq<Entry>, entry: Entry)
    requires Confined(log) && Allowed(log, entry)
    requires !(entry.Forwarded? && entry.envelope.direction.Close?)
    ensures Confined(log + [entry])
  {
    var more := log + [entry];
    forall i | 0 <= i < |more| ensures Allowed(more[..i], more[i]) && ClosedAt(more, i) {
      if i < |log| {
        assert more[..i] == log[..i] && Allowed(log[..i], log[i]) && ClosedAt(log, i);
      } else {
        assert more[..i] == log;
      }
    }
  }

  lemma ConfinedClose(log: seq<Entry>, entry: Entry)
    requires Confined(log) && Allowed(log, entry) && entry.Forwarded?
    ensures Confined(log + [entry] + [Unbound(entry.envelope.routeId)])
  {
    var id := entry.envelope.routeId;
    var more := log + [entry] + [Unbound(id)];
    BindingAppend(log, entry, id);
    forall i | 0 <= i < |more| ensures Allowed(more[..i], more[i]) && ClosedAt(more, i) {
      if i < |log| {
        assert more[..i] == log[..i] && Allowed(log[..i], log[i]) && ClosedAt(log, i);
      } else if i == |log| {
        assert more[..i] == log;
      } else {
        assert more[..i] == log + [entry];
      }
    }
  }

  lemma BoundInv(h: Hub, id: Text, route: Route)
    requires Inv(h) && id !in h.routes && |h.routes| < HUB_MAX_ACTIVE_ROUTES
    ensures Inv(BoundTo(h, id, route))
  {
    var n := BoundTo(h, id, route);
    ConfinedAppend(h.log, Bound(id, route));
    assert n.routes.Keys == h.routes.Keys + {id};
    forall x ensures Binding(n.log, x) == if x in n.routes then Some(n.routes[x]) else None {
      BindingAppend(h.log, Bound(id, route), x);
    }
  }

  lemma Fewer(routes: map<Text, Route>, id: Text)
    ensures |routes - {id}| <= |routes|
  {
    assert (routes - {id}).Keys == routes.Keys - {id};
  }

  lemma UndoneAgrees(h: Hub, id: Text)
    requires Agrees(h)
    ensures Agrees(Undone(h, id))
  {
    forall x ensures Binding(Undone(h, id).log, x) == if x in h.routes - {id} then Some(h.routes[x]) else None {
      BindingAppend(h.log, Unbound(id), x);
    }
  }

  lemma UndoneInv(h: Hub, id: Text)
    requires Inv(h) && id in h.routes
    ensures Inv(Undone(h, id))
  {
    ConfinedAppend(h.log, Unbound(id));
    UndoneAgrees(h, id);
    Fewer(h.routes, id);
  }

  lemma WrittenAgrees(h: Hub, e: Envelope, sender: nat, receiver: nat)
    requires Agrees(h)
    ensures Agrees(Written(h, e, sender, receiver))
  {
    var n := Written(h, e, sender, receiver);
    forall x ensures Binding(n.log, x) == Binding(h.log, x) {
      BindingAppend(h.log, n.log[|h.log|], x);
    }
  }

  lemma WrittenInv(h: Hub, e: Envelope, sender: nat, receiver: nat)
    requires Inv(h) && !e.direction.Close?
    requires Allowed(h.log, Forwarded(e, MachineOf(h, sender), MachineOf(h, receiver), receiver))
    ensures Inv(Written(h, e, sender, receiver))
  {
    ConfinedAppend(h.log, Forwarded(e, MachineOf(h, sender), MachineOf(h, receiver), receiver));
    WrittenAgrees(h, e, sender, receiver);
  }

  lemma RequestInv(h: Hub, client: nat, e: Envelope, endpoints: seq<Endpoint>)
    requires Inv(h) && e.direction.Request?
    ensures Inv(RouteRequest(h, client, e, endpoints).0)
  {
    var endpoint := FindEndpoint(endpoints, e.address);
    if endpoint.Some? {
      var target := FindClient(h, h.clients, Some(endpoint.value.machineId));
      FoundClient(h, h.clients, Some(endpoint.value.machineId));
      var route := Route(MachineOf(h, client), endpoint.value.machineId, e.streamId, e.address);
      if target.Some? && (e.routeId in h.routes ==> h.routes[e.routeId] == route)
         && (e.routeId !in h.routes ==> |h.routes| < HUB_MAX_ACTIVE_ROUTES) {
        var bound := if e.routeId in h.routes then h else BoundTo(h, e.routeId, route);
        if e.routeId !in h.routes {
          BoundInv(h, e.routeId, route);
        }
        assert Binding(bound.log, e.routeId) == Some(route);
        WrittenInv(bound, e, client, target.value);
      }
    }
  }

  lemma CloseInv(h: Hub, client: nat, e: Envelope)
    requires Inv(h) && e.direction.Close?
    ensures Inv(RouteClose(h, client, e).0)
  {
    if e.routeId in h.routes {
      var route, machine := h.routes[e.routeId], MachineOf(h, client);
      if Fits(route, e) && (machine == route.source || machine == Some(route.target)) {
        var receiver := FindClient(h, h.clients, OtherEnd(route, machine));
        FoundClient(h, h.clients, OtherEnd(route, machine));
        assert Binding(h.log, e.routeId) == Some(route);
        if receiver.Some? {
          ConfinedClose(h.log, Forwarded(e, machine, MachineOf(h, receiver.value), receiver.value));
          WrittenAgrees(h, e, client, receiver.value);
          UndoneAgrees(Written(h, e, client, receiver.value), e.routeId);
          Fewer(h.routes, e.routeId);
        } else {
          UndoneInv(h, e.routeId);
        }
      }
    }
  }

  lemma ResponseInv(h: Hub, client: nat, e: Envelope)
    requires Inv(h) && e.direction.Response?
    ensures Inv(RouteResponse(h, client, e).0)
  {
    if e.routeId in h.routes {
      assert Binding(h.log, e.routeId) == Some(h.routes[e.routeId]);
      var receiver := FindClient(h, h.clients, h.routes[e.routeId].source);
      FoundClient(h, h.clients, h.routes[e.routeId].source);
      if MachineOf(h, client) == Some(h.routes[e.routeId].target) && Fits(h.routes[e.routeId], e) && receiver.Some? {
        WrittenInv(h, e, client, receiver.value);
      }
    }
  }

  lemma {:induction false} UndoneAllInv(h: Hub, ids: seq<Text>)
    requires Inv(h) && forall i :: 0 <= i < |ids| ==> ids[i] in h.routes
    requires forall i, j :: 0 <= i < j < |ids| ==> ids[i] != ids[j]
    ensures Inv(UndoneAll(h, ids))
    ensures forall id :: id in UndoneAll(h, ids).routes <==> id in h.routes && id !in ids
    ensures forall id :: id in UndoneAll(h, ids).routes ==> UndoneAll(h, ids).routes[id] == h.routes[id]
    decreases |ids|
  {
    if ids != [] {
      UndoneInv(h, ids[0]);
      var next := Undone(h, ids[0]);
      forall i | 0 <= i < |ids[1..]| ensures ids[1..][i] in next.routes {
        assert ids[1..][i] == ids[i + 1];
      }
      UndoneAllInv(next, ids[1..]);
      assert forall id :: id in ids <==> id == ids[0] || id in ids[1..];
    }
  }

  /** Forgetting a machine leaves no route that mentions it, and every other route as it was. */
  lemma ForgetsExactly(h: Hub, machine: Text, n: Hub)
    requires Inv(h) && Forgets(h, machine, n)
    ensures Inv(n)
    ensures forall id :: id in n.routes <==> id in h.routes && !Mentions(h.routes[id], machine)
    ensures forall id :: id in n.routes ==> n.routes[id] == h.routes[id]
  {
    var ids :| Lists(ids, Mentioning(h.routes, machine)) && n == UndoneAll(h, ids);
    forall i | 0 <= i < |ids| ensures ids[i] in h.routes {
      assert ids[i] in ids && ids[i] in Mentioning(h.routes, machine);
    }
    UndoneAllInv(h, ids);
  }

  lemma StopInv(h: Hub, n: Hub)
    requires Inv(h) && Step(h, Stop, n)
    ensures Inv(n)
  {
    var ids :| Lists(ids, h.routes.Keys) && n == UndoneAll(h.(clients := []), ids);
    forall i | 0 <= i < |ids| ensures ids[i] in h.routes {
      assert ids[i] in ids;
    }
    assert Inv(h.(clients := []));
    UndoneAllInv(h.(clients := []), ids);
  }

  lemma FrameInv(h: Hub, client: nat, e: Envelope)
    requires Inv(h)
    ensures Inv(Arrive(h, client, e).0)
  {
    match e.direction {
      case Request =>
        if Paired(h, client) {
          var n := Arrive(h, client, e).0;
          forall w | w in n.waiting ensures w.envelope.direction.Request? {}
        }
      case Close => CloseInv(h, client, e);
      case Response => ResponseInv(h, client, e);
    }
  }

  lemma StepInv(h: Hub, event: Event, n: Hub)
    requires Inv(h) && Step(h, event, n)
    ensures Inv(n)
  {
    match event {
      case Connect(client) =>
      case Identify(client, machine) =>
      case Frame(client, e) => FrameInv(h, client, e);
      case Resume(k, endpoints) =>
        var w := h.waiting[k];
        var rest := h.(waiting := h.waiting[..k] + h.waiting[k + 1..]);
        assert w in h.waiting;
        assert Inv(rest);
        RequestInv(rest, w.client, w.envelope, endpoints);
      case Forget(machine) =>
        assert Inv(h.(machines := Unassigned(h, machine)));
        ForgetsExactly(h.(machines := Unassigned(h, machine)), machine, n);
      case Disconnect(client) =>
        var gone := h.(clients := WithoutClient(h.clients, client));
        assert Inv(gone);
        if Paired(h, client) {
          ForgetsExactly(gone, h.machines[client], n);
        }
      case Stop => StopInv(h, n);
    }
  }

  lemma {:induction false} RunInv(trace: seq<Event>, states: seq<Hub>, i: nat)
    requires Run(EMPTY, trace, states) && i < |states|
    ensures Inv(states[i])
  {
    if i > 0 {
      RunInv(trace, states, i - 1);
      StepInv(states[i - 1], trace[i - 1], states[i - 1 + 1]);
    }
  }

  /**
   * Route confinement, after every run: during one binding of a route ID all forwarded frames have its stream and
   * address, requests go only from its source to its target and responses only back, a close goes to the other end
   * and frees the ID at once, so nothing follows until a request binds it anew; at most 1024 routes exist.
   */
  lemma RouteConfinement(trace: seq<Event>, states: seq<Hub>, i: nat)
    requires Run(EMPTY, trace, states) && i < |states|
    ensures Confined(states[i].log) && |states[i].routes| <= HUB_MAX_ACTIVE_ROUTES
    ensures forall id ::
      Binding(states[i].log, id) == if id in states[i].routes then Some(states[i].routes[id]) else None
  {
    RunInv(trace, states, i);
  }

  // ----- requesters that lose their machine ID while they wait

  /** Every binding ever made names its source. */
  ghost predicate SourcesKnown(log: seq<Entry>) {
    forall i :: 0 <= i < |log| && log[i].Bound? ==> log[i].route.source.Some?
  }

  /** The directory lists an enabled endpoint under the address, and its machine is connected. */
  predicate Reachable(h: Hub, endpoints: seq<Endpoint>, address: Address) {
    var endpoint := FindEndpoint(endpoints, address);
    endpoint.Some? && FindClient(h, h.clients, Some(endpoint.value.machineId)).Some?
  }

  /** A request whose route ID is free, whose endpoint can be reached and for which there is room. */
  predicate MayBind(h: Hub, e: Envelope, endpoints: seq<Endpoint>) {
    e.routeId !in h.routes && Reachable(h, endpoints, e.address) && |h.routes| < HUB_MAX_ACTIVE_ROUTES
  }

  /** Such a request goes on, and its client's machine ID was cleared while it waited. */
  predicate BindsBlind(h: Hub, event: Event) {
    && event.Resume? && event.k < |h.waiting|
    && h.waiting[event.k].client !in h.machines
    && MayBind(h, h.waiting[event.k].envelope, event.endpoints)
  }

  lemma {:induction false} FindClientFrame(h: Hub, g: Hub, clients: seq<nat>, machine: Option<Text>)
    requires h.machines == g.machines
    ensures FindClient(h, clients, machine) == FindClient(g, clients, machine)
  {
    if clients != [] {
      FindClientFrame(h, g, clients[1..], machine);
    }
  }

  lemma MayBindFrame(h: Hub, waiting: seq<Waiting>, e: Envelope, endpoints: seq<Endpoint>)
    ensures MayBind(h.(waiting := waiting), e, endpoints) == MayBind(h, e, endpoints)
  {
    var endpoint := FindEndpoint(endpoints, e.address);
    if endpoint.Some? {
      FindClientFrame(h, h.(waiting := waiting), h.clients, Some(endpoint.value.machineId));
    }
  }

  lemma KnownAppend(log: seq<Entry>, entry: Entry)
    ensures SourcesKnown(log + [entry]) <==> SourcesKnown(log) && (entry.Bound? ==> entry.route.source.Some?)
  {
    var more := log + [entry];
    assert more[|log|] == entry;
    assert forall i :: 0 <= i < |log| ==> more[i] == log[i];
  }

  lemma {:induction false} UndoneAllKnown(h: Hub, ids: seq<Text>)
    ensures SourcesKnown(UndoneAll(h, ids).log) <==> SourcesKnown(h.log)
    decreases |ids|
  {
    if ids != [] {
      KnownAppend(h.log, Unbound(ids[0]));
      UndoneAllKnown(Undone(h, ids[0]), ids[1..]);
    }
  }

  lemma ForgetsKnown(h: Hub, machine: Text, n: Hub)
    requires Forgets(h, machine, n)
    ensures SourcesKnown(n.log) <==> SourcesKnown(h.log)
  {
    var ids :| Lists(ids, Mentioning(h.routes, machine)) && n == UndoneAll(h, ids);
    UndoneAllKnown(h, ids);
  }

  lemma RequestKnown(h: Hub, client: nat, e: Envelope, endpoints: seq<Endpoint>)
    ensures var n := RouteRequest(h, client, e, endpoints).0;
      SourcesKnown(n.log) <==>
        SourcesKnown(h.log) && (MayBind(h, e, endpoints) ==> MachineOf(h, client).Some?)
  {
    var n := RouteRequest(h, client, e, endpoints).0;
    if n != h {
      var target := FindClient(h, h.clients, Some(FindEndpoint(endpoints, e.address).value.machineId)).value;
      var route :=
        Route(MachineOf(h, client), FindEndpoint(endpoints, e.address).value.machineId, e.streamId, e.address);
      var bound := if e.routeId in h.routes then h else BoundTo(h, e.routeId, route);
      KnownAppend(h.log, Bound(e.routeId, route));
      KnownAppend(bound.log, Forwarded(e, MachineOf(bound, client), MachineOf(bound, target), target));
    }
  }

  lemma FrameKnown(h: Hub, client: nat, e: Envelope)
    ensures SourcesKnown(Arrive(h, client, e).0.log) <==> SourcesKnown(h.log)
  {
    var n := Arrive(h, client, e).0;
    if n.log != h.log {
      var entry := n.log[|h.log|];
      KnownAppend(h.log, entry);
      if e.direction.Close? {
        var told := if n.log == h.log + [entry] then h.log else h.log + [entry];
        KnownAppend(told, Unbound(e.routeId));
        assert n.log == told + [Unbound(e.routeId)];
      } else {
        assert n.log == h.log + [entry];
      }
    }
  }

  lemma StepKnown(h: Hub, event: Event, n: Hub)
    requires Step(h, event, n)
    ensures SourcesKnown(n.log) <==> SourcesKnown(h.log) && !BindsBlind(h, event)
  {
    match event {
      case Connect(client) =>
      case Identify(client, machine) =>
      case Frame(client, e) => FrameKnown(h, client, e);
      case Resume(k, endpoints) =>
        var rest := h.waiting[..k] + h.waiting[k + 1..];
        MayBindFrame(h, rest, h.waiting[k].envelope, endpoints);
        RequestKnown(h.(waiting := rest), h.waiting[k].client, h.waiting[k].envelope, endpoints);
      case Forget(machine) => ForgetsKnown(h.(machines := Unassigned(h, machine)), machine, n);
      case Disconnect(client) =>
        if Paired(h, client) {
          ForgetsKnown(h.(clients := WithoutClient(h.clients, client)), h.machines[client], n);
        }
      case Stop =>
        var ids :| Lists(ids, h.routes.Keys) && n == UndoneAll(h.(clients := []), ids);
        UndoneAllKnown(h.(clients := []), ids);
    }
  }

  /** Every binding of a run names its source if and only if no request ever goes on in such a state. */
  lemma {:induction false} SourcesKnownIff(trace: seq<Event>, states: seq<Hub>, i: nat)
    requires Run(EMPTY, trace, states) && i < |states|
    ensures SourcesKnown(states[i].log) <==> forall j :: 0 <= j < i ==> !BindsBlind(states[j], trace[j])
  {
    if i > 0 {
      SourcesKnownIff(trace, states, i - 1);
      StepKnown(states[i - 1], trace[i - 1], states[i - 1 + 1]);
    }
  }

  lemma {:induction false} BindingKnown(log: seq<Entry>, id: Text)
    requires SourcesKnown(log) && Binding(log, id).Some?
    ensures Binding(log, id).value.source.Some?
  {
    var front := log[..|log| - 1];
    assert SourcesKnown(front) by {
      forall i | 0 <= i < |front| && front[i].Bound? ensures front[i].route.source.Some? {
        assert log[i] == front[i];
      }
    }
    match log[|log| - 1] {
      case Bound(x, route) => if x != id { BindingKnown(front, id); }
      case Unbound(x) => if x != id { BindingKnown(front, id); }
      case Forwarded(_, _, _, _) => BindingKnown(front, id);
    }
  }

  /** Then every forwarded frame goes from one paired machine to another: none reaches a connection without an ID. */
  lemma EndsKnown(trace: seq<Event>, states: seq<Hub>, i: nat, k: nat)
    requires Run(EMPTY, trace, states) && i < |states| && SourcesKnown(states[i].log)
    requires k < |states[i].log| && states[i].log[k].Forwarded?
    ensures states[i].log[k].from.Some? && states[i].log[k].to.Some?
  {
    RunInv(trace, states, i);
    var log := states[i].log;
    var front := log[..k];
    assert SourcesKnown(front) by {
      forall j | 0 <= j < |front| && front[j].Bound? ensures front[j].route.source.Some? {
        assert log[j] == front[j];
      }
    }
    assert Allowed(front, log[k]);
    BindingKnown(front, log[k].envelope.routeId);
  }

  lemma RunMore(trace: seq<Event>, states: seq<Hub>, event: Event, n: Hub)
    requires Run(EMPTY, trace, states) && Step(states[|states| - 1], event, n)
    ensures Run(EMPTY, trace + [event], states + [n])
  {
    var more, after := trace + [event], states + [n];
    forall i | 0 <= i < |more| ensures Step(after[i], more[i], after[i + 1]) {
      assert i < |trace| ==> Step(states[i], trace[i], states[i + 1]);
    }
  }

  lemma TwoMachines(a: Text, b: Text) returns (trace: seq<Event>, states: seq<Hub>)
    ensures Run(EMPTY, trace, states)
    ensures states[|states| - 1] == Hub([0, 1], map[0 := a, 1 := b], map[], [], [])
  {
    trace, states := [], [EMPTY];
    var h1 := Hub([0], map[], map[], [], []);
    assert EMPTY.clients + [0] == [0];
    RunMore(trace, states, Connect(0), h1);
    trace, states := trace + [Connect(0)], states + [h1];
    var h2 := Hub([0], map[0 := a], map[], [], []);
    RunMore(trace, states, Identify(0, a), h2);
    trace, states := trace + [Identify(0, a)], states + [h2];
    var h3 := Hub([0, 1], map[0 := a], map[], [], []);
    assert h2.clients + [1] == [0, 1];
    RunMore(trace, states, Connect(1), h3);
    trace, states := trace + [Connect(1)], states + [h3];
    var h4 := Hub([0, 1], map[0 := a, 1 := b], map[], [], []);
    RunMore(trace, states, Identify(1, b), h4);
    trace, states := trace + [Identify(1, b)], states + [h4];
  }

  lemma ForgottenWhileWaiting(a: Text, b: Text, ask: Envelope) returns (trace: seq<Event>, states: seq<Hub>)
    requires a != [] && b != [] && a != b && ask.direction.Request?
    ensures Run(EMPTY, trace, states)
    ensures states[|states| - 1] == Hub([0, 1], map[1 := b], map[], [Waiting(0, ask)], [])
  {
    trace, states := TwoMachines(a, b);
    var h4 := states[|states| - 1];
    var h5 := Hub([0, 1], map[0 := a, 1 := b], map[], [Waiting(0, ask)], []);
    assert h4.waiting + [Waiting(0, ask)] == h5.waiting && Paired(h4, 0);
    RunMore(trace, states, Frame(0, ask), h5);
    trace, states := trace + [Frame(0, ask)], states + [h5];
    var h6 := Hub([0, 1], map[1 := b], map[], [Waiting(0, ask)], []);
    assert Unassigned(h5, a) == h6.machines;
    ForgetNothing(h5, a, h6);
    RunMore(trace, states, Forget(a), h6);
    trace, states := trace + [Forget(a)], states + [h6];
  }

  /**
   * It does happen: a machine forgotten while its request waits leaves a route without a source, and the response
   * is written to a connection that has no machine ID.
   */
  lemma ForgottenRequester() returns (trace: seq<Event>, states: seq<Hub>)
    ensures Run(EMPTY, trace, states)
    ensures var log := states[|states| - 1].log; log != [] && log[|log| - 1].Forwarded? && log[|log| - 1].to.None?
  {
    var a: Text, b: Text := [0x61], [0x62];
    var address := Address(b, b, a, a);
    var ask, answer := Envelope(Request, a, a, address, a), Envelope(Response, a, a, address, b);
    trace, states := ForgottenWhileWaiting(a, b, ask);
    var h6 := states[|states| - 1];
    var h7 := Resumed(h6, 0, [Endpoint(b, b, true)]).0;
    BlindBinding(h6, ask, Endpoint(b, b, true));
    RunMore(trace, states, Resume(0, [Endpoint(b, b, true)]), h7);
    trace, states := trace + [Resume(0, [Endpoint(b, b, true)])], states + [h7];
    var h8 := RouteResponse(h7, 1, answer).0;
    BlindResponse(h7, answer);
    RunMore(trace, states, Frame(1, answer), h8);
    trace, states := trace + [Frame(1, answer)], states + [h8];
  }

  lemma ForgetNothing(h: Hub, machine: Text, n: Hub)
    requires h.routes == map[] && n == h.(machines := Unassigned(h, machine))
    ensures Step(h, Forget(machine), n)
  {
    assert Lists([], Mentioning(n.routes, machine)) && n == UndoneAll(n, []);
  }

  lemma BlindBinding(h: Hub, e: Envelope, endpoint: Endpoint)
    requires h.clients == [0, 1] && h.machines == map[1 := endpoint.machineId] && h.routes == map[]
    requires h.waiting == [Waiting(0, e)] && endpoint.enabled
    requires endpoint.machineId == e.address.machineId && endpoint.endpointId == e.address.endpointId
    ensures var n := Resumed(h, 0, [endpoint]).0;
      && n.clients == h.clients && n.machines == h.machines
      && n.routes == map[e.routeId := Route(None, endpoint.machineId, e.streamId, e.address)]
  {
    var rest := h.(waiting := h.waiting[..0] + h.waiting[1..]);
    assert FindEndpoint([endpoint], e.address) == Some(endpoint);
    assert [0, 1][1..] == [1];
    assert FindClient(rest, [1], Some(endpoint.machineId)) == Some(1);
    assert FindClient(rest, rest.clients, Some(endpoint.machineId)) == Some(1);
    assert MachineOf(rest, 0) == None;
  }

  lemma BlindResponse(h: Hub, e: Envelope)
    requires h.clients == [0, 1] && 0 !in h.machines && Paired(h, 1) && e.direction.Response?
    requires e.routeId in h.routes && h.routes[e.routeId] == Route(None, h.machines[1], e.streamId, e.address)
    ensures var n := RouteResponse(h, 1, e).0;
      n == Arrive(h, 1, e).0 && |n.log| == |h.log| + 1 && n.log[|h.log|] == Forwarded(e, Some(h.machines[1]), None, 0)
  {
    assert FindClient(h, h.clients, None) == Some(0);
  }
}
