/**
 * Endpoint handover: live and suspended endpoints, run generations and recovery timers. Each callback's part before
 * its first wait is one step; writing the registry and telling the hub come after and touch neither map.
 */
module Supervisor {
  import opened Bytes
  import opened Results

  /** Brokers, generations and timers are compared by identity only. */
  datatype Recovery = Recovery(id: nat, endpointId: Text)

  datatype Runtime = Runtime(broker: nat, recovery: Recovery, generation: nat, timer: Option<nat>)

  datatype State = State(
    live: map<Text, Runtime>, suspended: map<Text, Runtime>, armed: map<nat, (Text, Recovery)>,
    nextTimer: nat, closing: bool)

  datatype HandoverError = RunReplaced | RecoveryReplaced

  const EMPTY := State(map[], map[], map[], 0, false)

  // ----- callbacks

  /** A run announces itself: the endpoint's record, live or suspended, passes to its generation. */
  function Recover(s: State, e: Text, g: nat): (State, Option<Recovery>) {
    if e in s.live then (s.(live := s.live[e := s.live[e].(generation := g)]), Some(s.live[e].recovery))
    else if e in s.suspended then
      (s.(suspended := s.suspended[e := s.suspended[e].(generation := g)]), Some(s.suspended[e].recovery))
    else (s, None)
  }

  function Disarmed(armed: map<nat, (Text, Recovery)>, timer: Option<nat>): map<nat, (Text, Recovery)> {
    if timer.Some? then armed - {timer.value} else armed
  }

  predicate Replaced(r: Runtime, broker: nat, recovery: Recovery, g: nat) {
    r.broker != broker || r.recovery != recovery || r.generation != g
  }

  function Ready(s: State, e: Text, broker: nat, recovery: Recovery, g: nat): (State, Outcome<(), HandoverError>) {
    if e in s.live && Replaced(s.live[e], broker, recovery, g) then (s, Err(RunReplaced))
    else if e in s.suspended && (s.suspended[e].recovery != recovery || s.suspended[e].generation != g)
    then (s, Err(RecoveryReplaced))
    else
      var armed := if e in s.suspended then Disarmed(s.armed, s.suspended[e].timer) else s.armed;
      (s.(live := s.live[e := Runtime(broker, recovery, g, None)], suspended := s.suspended - {e}, armed := armed),
        Ok(()))
  }

  /** `working`: the endpoint has an active or reconnecting session. The answer tells the run to keep its hands off. */
  function Suspend(s: State, recovery: Recovery, g: nat, working: bool): (State, bool) {
    var e := recovery.endpointId;
    if s.closing then (s, false)
    else if e !in s.live then (s, e in s.suspended && s.suspended[e].recovery == recovery)
    else if s.live[e].recovery != recovery then (s, false)
    else if s.live[e].generation != g then (s, true)
    else if !working then (s, false)
    else
      var timer := s.nextTimer;
      (s.(live := s.live - {e}, suspended := s.suspended[e := s.live[e].(timer := Some(timer))],
          armed := s.armed[timer := (e, recovery)], nextTimer := timer + 1), true)
  }

  /** A timer that fires is no longer armed; it takes the endpoint away if that still waits for the same recovery. */
  function Expire(s: State, timer: nat): State
    requires timer in s.armed
  {
    var (e, recovery) := s.armed[timer];
    var fired := s.(armed := s.armed - {timer});
    if e !in s.suspended || s.suspended[e].recovery != recovery then fired
    else fired.(suspended := s.suspended - {e}, armed := Disarmed(fired.armed, s.suspended[e].timer))
  }

  function Closed(s: State, e: Text, broker: Option<nat>, g: nat): State {
    if e !in s.live && e !in s.suspended then s
    else
      var existing := if e in s.live then s.live[e] else s.suspended[e];
      if existing.generation != g || (broker.Some? && existing.broker != broker.value) then s
      else s.(live := s.live - {e}, suspended := s.suspended - {e}, armed := Disarmed(s.armed, existing.timer))
  }

  // ----- steps and runs

  datatype Event =
    | RecoverEndpoint(e: Text, g: nat)
    | EndpointReady(e: Text, broker: nat, recovery: Recovery, g: nat)
    | EndpointSuspended(recovery: Recovery, g: nat, working: bool)
    | TimerFires(timer: nat)
    | EndpointClosed(e: Text, closedBroker: Option<nat>, g: nat)
    | StartClosing

  predicate Enabled(s: State, event: Event) { event.TimerFires? ==> event.timer in s.armed }

  function Next(s: State, event: Event): State
    requires Enabled(s, event)
  {
    match event
    case RecoverEndpoint(e, g) => Recover(s, e, g).0
    case EndpointReady(e, broker, recovery, g) => Ready(s, e, broker, recovery, g).0
    case EndpointSuspended(recovery, g, working) => Suspend(s, recovery, g, working).0
    case TimerFires(timer) => Expire(s, timer)
    case EndpointClosed(e, broker, g) => Closed(s, e, broker, g)
    case StartClosing => s.(closing := true)
  }

  predicate Legal(s: State, trace: seq<Event>)
    decreases |trace|
  {
    trace != [] ==> Enabled(s, trace[0]) && Legal(Next(s, trace[0]), trace[1..])
  }

  function Run(s: State, trace: seq<Event>): State
    requires Legal(s, trace)
    decreases |trace|
  {
    if trace == [] then s else Run(Next(s, trace[0]), trace[1..])
  }

  // ----- handover safety

  /** Timer t is the one armed expiry of endpoint e. */
  predicate Awaits(s: State, e: Text, t: nat) {
    e in s.suspended && s.suspended[e].timer == Some(t) && t in s.armed && s.armed[t] == (e, s.suspended[e].recovery)
  }

  ghost predicate Safe(s: State) {
    && s.live.Keys !! s.suspended.Keys
    && (forall e :: e in s.live ==> s.live[e].timer.None?)
    && (forall e :: e in s.suspended ==> s.suspended[e].timer.Some? && Awaits(s, e, s.suspended[e].timer.value))
    && (forall t :: t in s.armed ==> t < s.nextTimer && Awaits(s, s.armed[t].0, t))
  }

  lemma RecoverSafe(s: State, e: Text, g: nat)
    requires Safe(s)
    ensures Safe(Recover(s, e, g).0)
  {
    var n := Recover(s, e, g).0;
    assert n.live.Keys == s.live.Keys && n.suspended.Keys == s.suspended.Keys;
    forall t | t in n.armed ensures Awaits(n, n.armed[t].0, t) {
      assert Awaits(s, s.armed[t].0, t);
    }
  }

  lemma ReadySafe(s: State, e: Text, broker: nat, recovery: Recovery, g: nat)
    requires Safe(s)
    ensures Safe(Ready(s, e, broker, recovery, g).0)
  {
    var n := Ready(s, e, broker, recovery, g).0;
    forall t | t in n.armed ensures Awaits(n, n.armed[t].0, t) {
      assert Awaits(s, s.armed[t].0, t);
    }
  }

  lemma SuspendSafe(s: State, recovery: Recovery, g: nat, working: bool)
    requires Safe(s)
    ensures Safe(Suspend(s, recovery, g, working).0)
  {
    var n := Suspend(s, recovery, g, working).0;
    forall t | t in n.armed ensures t < n.nextTimer && Awaits(n, n.armed[t].0, t) {
      assert t in s.armed ==> Awaits(s, s.armed[t].0, t);
    }
  }

  lemma ExpireSafe(s: State, timer: nat)
    requires Safe(s) && timer in s.armed
    ensures Safe(Expire(s, timer)) && s.armed[timer].0 !in Expire(s, timer).suspended
  {
    assert Awaits(s, s.armed[timer].0, timer);
    var n := Expire(s, timer);
    forall t | t in n.armed ensures Awaits(n, n.armed[t].0, t) {
      assert Awaits(s, s.armed[t].0, t);
    }
  }

  lemma ClosedSafe(s: State, e: Text, broker: Option<nat>, g: nat)
    requires Safe(s)
    ensures Safe(Closed(s, e, broker, g))
  {
    var n := Closed(s, e, broker, g);
    forall t | t in n.armed ensures Awaits(n, n.armed[t].0, t) {
      assert Awaits(s, s.armed[t].0, t);
    }
  }

  lemma NextSafe(s: State, event: Event)
    requires Safe(s) && Enabled(s, event)
    ensures Safe(Next(s, event))
  {
    match event {
      case RecoverEndpoint(e, g) => RecoverSafe(s, e, g);
      case EndpointReady(e, broker, recovery, g) => ReadySafe(s, e, broker, recovery, g);
      case EndpointSuspended(recovery, g, working) => SuspendSafe(s, recovery, g, working);
      case TimerFires(timer) => ExpireSafe(s, timer);
      case EndpointClosed(e, broker, g) => ClosedSafe(s, e, broker, g);
      case StartClosing =>
        assert forall t :: t in s.armed ==> Awaits(s.(closing := true), s.armed[t].0, t) by {
          forall t | t in s.armed ensures Awaits(s.(closing := true), s.armed[t].0, t) {
            assert Awaits(s, s.armed[t].0, t);
          }
        }
    }
  }

  lemma {:induction false} RunSafe(s: State, trace: seq<Event>)
    requires Safe(s) && Legal(s, trace)
    ensures Safe(Run(s, trace))
    decreases |trace|
  {
    if trace != [] {
      NextSafe(s, trace[0]);
      RunSafe(Next(s, trace[0]), trace[1..]);
    }
  }

  /**
   * Over every run of callbacks and timers before closing starts, no endpoint is both live and suspended, a suspended
   * endpoint has exactly one armed expiry and a live one none, and every armed expiry belongs to a suspended endpoint.
   */
  lemma HandoverSafety(trace: seq<Event>)
    requires Legal(EMPTY, trace) && !Run(EMPTY, trace).closing
    ensures var s := Run(EMPTY, trace);
      && (forall e :: !(e in s.live && e in s.suspended))
      && (forall e :: e in s.suspended ==> exists t :: Awaits(s, e, t))
      && (forall t, u :: t in s.armed && u in s.armed && s.armed[t].0 == s.armed[u].0 ==> t == u)
      && (forall t :: t in s.armed ==> s.armed[t].0 in s.suspended && s.armed[t].0 !in s.live)
  {
    RunSafe(EMPTY, trace);
    var s := Run(EMPTY, trace);
    forall e | e in s.suspended ensures exists t :: Awaits(s, e, t) {
      assert Awaits(s, e, s.suspended[e].timer.value);
    }
    forall t | t in s.armed ensures Awaits(s, s.armed[t].0, t) {}
  }

  // ----- who owns an endpoint's record

  /** The generation the endpoint's record, live or suspended, belongs to; none without a record. */
  function Owner(s: State, e: Text): Option<nat> {
    if e in s.live then Some(s.live[e].generation)
    else if e in s.suspended then Some(s.suspended[e].generation)
    else None
  }

  /** The four callbacks a run of generation g makes about endpoint e. */
  predicate Callback(event: Event, e: Text, g: nat) {
    || (event.RecoverEndpoint? && event.e == e && event.g == g)
    || (event.EndpointReady? && event.e == e && event.g == g)
    || (event.EndpointSuspended? && event.recovery.endpointId == e && event.g == g)
    || (event.EndpointClosed? && event.e == e && event.g == g)
  }

  /** The endpoint has a record, and its generation is another one. */
  predicate Superseded(s: State, e: Text, g: nat) { Owner(s, e).Some? && Owner(s, e) != Some(g) }

  /**
   * Of the four callbacks of a replaced run exactly one changes the state, whatever its arguments: announcing itself
   * again, which takes the record. Its `ready` is refused.
   */
  lemma ReplacedRunChangesIff(s: State, event: Event, e: Text, g: nat)
    requires Superseded(s, e, g) && Callback(event, e, g)
    ensures Next(s, event) == s <==> !event.RecoverEndpoint?
    ensures event.RecoverEndpoint? ==> Owner(Next(s, event), e) == Some(g)
    ensures event.EndpointReady? ==> Ready(s, e, event.broker, event.recovery, g).1.Err?
  {
    if event.RecoverEndpoint? {
      assert Owner(Next(s, event), e) == Some(g);
    }
  }

  /** Without any record, exactly `ready` changes the state: it installs the run. */
  lemma FreeEndpointIff(s: State, event: Event, e: Text, g: nat)
    requires Owner(s, e) == None && Callback(event, e, g)
    ensures Next(s, event) == s <==> !event.EndpointReady?
    ensures event.EndpointReady? ==> Owner(Next(s, event), e) == Some(g)
  {
    if event.EndpointReady? {
      assert Owner(Next(s, event), e) == Some(g);
    }
  }

  /** How a run that does not own the record comes to own it: it announces itself, or is ready where there is none. */
  predicate Claims(s: State, event: Event, e: Text, g: nat) {
    || (event.RecoverEndpoint? && event.e == e && event.g == g && Owner(s, e).Some?)
    || (event.EndpointReady? && event.e == e && event.g == g && Owner(s, e).None?)
  }

  lemma OwnerStep(s: State, event: Event, e: Text, g: nat)
    requires Enabled(s, event) && Owner(s, e) != Some(g)
    ensures Owner(Next(s, event), e) == Some(g) <==> Claims(s, event, e, g)
  {
  }

  /** In no state of the run does the record belong to this generation. */
  predicate NeverOwns(s: State, trace: seq<Event>, e: Text, g: nat)
    requires Legal(s, trace)
    decreases |trace|
  {
    Owner(s, e) != Some(g) && (trace != [] ==> NeverOwns(Next(s, trace[0]), trace[1..], e, g))
  }

  predicate NeverClaims(s: State, trace: seq<Event>, e: Text, g: nat)
    requires Legal(s, trace)
    decreases |trace|
  {
    trace != [] ==> !Claims(s, trace[0], e, g) && NeverClaims(Next(s, trace[0]), trace[1..], e, g)
  }

  lemma {:induction false} OutsiderRun(s: State, trace: seq<Event>, e: Text, g: nat)
    requires Legal(s, trace) && Owner(s, e) != Some(g)
    ensures NeverOwns(s, trace, e, g) <==> NeverClaims(s, trace, e, g)
    decreases |trace|
  {
    if trace != [] {
      OwnerStep(s, trace[0], e, g);
      if !Claims(s, trace[0], e, g) {
        OutsiderRun(Next(s, trace[0]), trace[1..], e, g);
      }
    }
  }

  /**
   * From any reachable state a run that has lost the record, or never had it, stays without it if and only if it
   * neither announces itself while there is a record nor is ready while there is none.
   */
  lemma StaysOutIff(before: seq<Event>, after: seq<Event>, e: Text, g: nat)
    requires Legal(EMPTY, before) && Legal(Run(EMPTY, before), after) && Owner(Run(EMPTY, before), e) != Some(g)
    ensures NeverOwns(Run(EMPTY, before), after, e, g) <==> NeverClaims(Run(EMPTY, before), after, e, g)
  {
    OutsiderRun(Run(EMPTY, before), after, e, g);
  }

  /** The last run to announce itself for the endpoint, or to be ready where it had no record, after one more event. */
  function Claimed(s: State, event: Event, e: Text, sofar: Option<nat>): Option<nat> {
    if event.RecoverEndpoint? && event.e == e then Some(event.g)
    else if event.EndpointReady? && event.e == e && Owner(s, e).None? then Some(event.g)
    else sofar
  }

  function LastClaim(s: State, trace: seq<Event>, e: Text, sofar: Option<nat>): Option<nat>
    requires Legal(s, trace)
    decreases |trace|
  {
    if trace == [] then sofar else LastClaim(Next(s, trace[0]), trace[1..], e, Claimed(s, trace[0], e, sofar))
  }

  lemma ClaimStep(s: State, event: Event, e: Text, sofar: Option<nat>)
    requires Enabled(s, event) && (Owner(s, e).Some? ==> Owner(s, e) == sofar)
    ensures Owner(Next(s, event), e).Some? ==> Owner(Next(s, event), e) == Claimed(s, event, e, sofar)
  {
  }

  lemma {:induction false} OwnedByLastClaim(s: State, trace: seq<Event>, e: Text, sofar: Option<nat>)
    requires Legal(s, trace) && (Owner(s, e).Some? ==> Owner(s, e) == sofar)
    ensures Owner(Run(s, trace), e).Some? ==> Owner(Run(s, trace), e) == LastClaim(s, trace, e, sofar)
    decreases |trace|
  {
    if trace != [] {
      ClaimStep(s, trace[0], e, sofar);
      OwnedByLastClaim(Next(s, trace[0]), trace[1..], e, Claimed(s, trace[0], e, sofar));
    }
  }

  /** Over every run, whoever owns an endpoint's record is the last run to have announced itself or installed itself. */
  lemma LastClaimOwns(trace: seq<Event>, e: Text)
    requires Legal(EMPTY, trace) && Owner(Run(EMPTY, trace), e).Some?
    ensures Owner(Run(EMPTY, trace), e) == LastClaim(EMPTY, trace, e, None)
  {
    OwnedByLastClaim(EMPTY, trace, e, None);
  }

  // ----- how a replaced run comes back

  /** Callbacks are always legal, and a trace of three runs them in turn. */
  lemma ThreeCallbacks(s: State, a: Event, b: Event, c: Event)
    requires !a.TimerFires? && !b.TimerFires? && !c.TimerFires?
    ensures Legal(s, [a, b, c]) && Run(s, [a, b, c]) == Next(Next(Next(s, a), b), c)
  {
    var last := Next(Next(s, a), b);
    assert [a, b, c][1..] == [b, c] && [b, c][1..] == [c] && [c][1..] == [];
    assert Legal(last, [c]) && Run(last, [c]) == Next(last, c);
    assert Legal(Next(s, a), [b, c]) && Run(Next(s, a), [b, c]) == Next(last, c);
  }

  /** A run makes the endpoint ready, and the run that replaces it takes over its broker and its recovery record. */
  lemma ReplacedByAnother(e: Text, broker: nat, recovery: Recovery, first: nat, replacing: nat) returns (s: State)
    requires first != replacing
    ensures var r0, r1 := RecoverEndpoint(e, first), EndpointReady(e, broker, recovery, first);
      var trace := [r0, r1, RecoverEndpoint(e, replacing)];
      Legal(EMPTY, trace) && s == Run(EMPTY, trace)
    ensures Superseded(s, e, first)
    ensures s == State(map[e := Runtime(broker, recovery, replacing, None)], map[], map[], 0, false)
    ensures Recover(Ready(EMPTY, e, broker, recovery, first).0, e, replacing) == (s, Some(recovery))
  {
    var r0, r1 := RecoverEndpoint(e, first), EndpointReady(e, broker, recovery, first);
    var r2 := RecoverEndpoint(e, replacing);
    ThreeCallbacks(EMPTY, r0, r1, r2);
    assert Next(EMPTY, r0) == EMPTY;
    s := Next(Next(EMPTY, r1), r2);
  }

  /**
   * It takes the record back while the run that replaced it is still there: it announces itself once more, is handed
   * broker and record, and its `ready` with them succeeds; the `ready` of the run that replaced it is now refused.
   */
  lemma ReplacedRunTakesBack(e: Text, first: nat, replacing: nat, broker: nat) returns (s: State)
    requires first != replacing
    ensures var recovery := Recovery(0, e);
      var replaced :=
        [RecoverEndpoint(e, first), EndpointReady(e, broker, recovery, first), RecoverEndpoint(e, replacing)];
      var back := Recover(s, e, first);
      && Legal(EMPTY, replaced) && s == Run(EMPTY, replaced) && Superseded(s, e, first)
      && back.1 == Some(recovery) && Superseded(back.0, e, replacing)
      && Ready(back.0, e, broker, recovery, first).1 == Ok(())
      && Ready(back.0, e, broker, recovery, replacing).1 == Err(RunReplaced)
      && Superseded(Ready(back.0, e, broker, recovery, first).0, e, replacing)
  {
    s := ReplacedByAnother(e, broker, Recovery(0, e), first, replacing);
  }

  /**
   * Or it comes back after that run is gone: that run closes with the broker it had taken over; the replaced run
   * announces itself, finds nothing, starts a broker of its own, and its `ready` makes the endpoint live again.
   */
  lemma ReplacedRunComesBack(e: Text, first: nat, replacing: nat, taken: nat, own: nat) returns (s: State)
    requires first != replacing && taken != own
    ensures var old1, new1 := Recovery(0, e), Recovery(1, e);
      var replaced := [RecoverEndpoint(e, first), EndpointReady(e, taken, old1, first), RecoverEndpoint(e, replacing)];
      var closed, again := EndpointClosed(e, Some(taken), replacing), RecoverEndpoint(e, first);
      var late := [closed, again, EndpointReady(e, own, new1, first)];
      && Legal(EMPTY, replaced) && s == Run(EMPTY, replaced) && Superseded(s, e, first)
      && Legal(s, late) && Recover(Closed(s, e, Some(taken), replacing), e, first).1 == None
      && Run(s, late).live == map[e := Runtime(own, new1, first, None)]
  {
    s := ReplacedByAnother(e, taken, Recovery(0, e), first, replacing);
    var c0, c1 := EndpointClosed(e, Some(taken), replacing), RecoverEndpoint(e, first);
    var c2 := EndpointReady(e, own, Recovery(1, e), first);
    ThreeCallbacks(s, c0, c1, c2);
    assert Next(s, c0) == EMPTY && Next(EMPTY, c1) == EMPTY;
  }

  // ----- runs that have been replaced

  /** Along a run the endpoint keeps having a record of another generation. */
  predicate StaysSuperseded(s: State, trace: seq<Event>, e: Text, g: nat)
    requires Legal(s, trace)
    decreases |trace|
  {
    Superseded(s, e, g) && (trace != [] ==> StaysSuperseded(Next(s, trace[0]), trace[1..], e, g))
  }

  function WithoutCallbacks(trace: seq<Event>, e: Text, g: nat): seq<Event>
    decreases |trace|
  {
    if trace == [] then []
    else (if Callback(trace[0], e, g) then [] else [trace[0]]) + WithoutCallbacks(trace[1..], e, g)
  }

  /** While it stays replaced, all callbacks of a run can be struck out without changing where the run ends. */
  lemma {:induction false} CallbacksErasable(s: State, trace: seq<Event>, e: Text, g: nat)
    requires Legal(s, trace) && StaysSuperseded(s, trace, e, g)
    ensures Legal(s, WithoutCallbacks(trace, e, g)) && Run(s, WithoutCallbacks(trace, e, g)) == Run(s, trace)
    decreases |trace|
  {
    if trace != [] {
      var rest := WithoutCallbacks(trace[1..], e, g);
      if Callback(trace[0], e, g) {
        ReplacedRunChangesIff(s, trace[0], e, g);
        assert WithoutCallbacks(trace, e, g) == rest;
      } else {
        assert WithoutCallbacks(trace, e, g) == [trace[0]] + rest;
        assert ([trace[0]] + rest)[1..] == rest;
      }
      CallbacksErasable(Next(s, trace[0]), trace[1..], e, g);
    }
  }
}
