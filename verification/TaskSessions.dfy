/**
 * The task session manager as values: one record per opened session, the transitions each call, timer
 * and continuation makes on it, and the manager's maps. Every `await` continuation is a step of its own.
 */
module TaskSessions {
  import opened Bytes
  import opened Results
  import opened Sorting
  import opened SessionAccess
  import opened Routes

  const MAX_REVOKED_TASK_SESSION_TOMBSTONES := 64
  const MAX_TASK_SESSION_TTL_MS := 86_400_000
  const ENDPOINT_RECOVERY_GRACE_MS := 120_000

  datatype SessionState = Pending | Active | Reconnecting | Revoked

  datatype SessionError =
    | InvalidSession | UnsupportedCapability | InvalidTtl | NotPending | NotActive | NotFound | SessionConflict
    | RelayCloseFailed | InvalidAccess(reason: AccessError)

  datatype Session = Session(
    id: Text, principal: Text, controllerName: Text, taskLabel: Text, capabilities: seq<Text>,
    access: Access, createdAt: int, expiresAt: Option<int>, state: SessionState, route: Route)

  datatype Relay = Relay(pairingUrl: Text, cdpUrl: Text)

  /** Where the one startRelay call of a session stands. */
  datatype Start = NotStarted | Starting | Resolved | LateClosing | Rejected

  /** Where the revoke promise of a session stands. */
  datatype Closing = NotRevoking | ClosingRelay | CloseDone | CloseFailed

  datatype Notice = PendingNotice | ActiveNotice(cdpUrl: Text) | ReconnectingNotice | RevokedNotice(reason: Text)

  /** What the manager did to the outside on behalf of one session. */
  datatype Output = Emitted(notice: Notice) | RelayStarted | RelayClosed

  /** One Stored record. `history` lists its outputs; a TTL timer is armed or not, a recovery timer has a deadline. */
  datatype Entry = Entry(
    session: Session, key: Option<Text>, relay: Option<Relay>, start: Start, ready: bool,
    ttlArmed: bool, recoveryAt: Option<int>, closing: Closing, history: seq<Output>)

  /** `entries` are the records ever created, in order; `stored` and `reusable` are the manager's two maps. */
  datatype Manager = Manager(entries: seq<Entry>, stored: map<Text, nat>, reusable: map<(Text, Text), Text>)

  datatype Step<+T> = Step(manager: Manager, result: Outcome<T, SessionError>)

  /** A call that revokes answers at once, or when closing the relay of this record has settled. */
  datatype Answer = Settled(outcome: Outcome<Session, SessionError>) | AwaitsClose(r: nat)

  datatype Revocation = Revocation(manager: Manager, result: Answer)

  const EMPTY := Manager([], map[], map[])

  // ----- transitions of one record

  function Noted(e: Entry, output: Output): Entry { e.(history := e.history + [output]) }

  function WithState(e: Entry, state: SessionState): Entry { e.(session := e.session.(state := state)) }

  function Opened(session: Session, key: Option<Text>): Entry {
    Entry(session, key, None, NotStarted, false, session.expiresAt.Some?, None, NotRevoking, [Emitted(PendingNotice)])
  }

  function Approved(e: Entry): Entry { Noted(WithState(e, Active).(start := Starting), RelayStarted) }

  /** The continuation after startRelay resolves: keep the relay, or close it if the session is gone. */
  function Delivered(e: Entry, relay: Relay): Entry {
    if e.session.state.Revoked? then Noted(e.(start := LateClosing), RelayClosed)
    else e.(start := Resolved, relay := Some(relay))
  }

  function Readied(e: Entry): Entry
    requires e.relay.Some?
  {
    var resumed := e.session.state.Reconnecting?;
    var awake := WithState(e, Active).(recoveryAt := None);
    if !e.ready || resumed then Noted(awake.(ready := true), Emitted(ActiveNotice(e.relay.value.cdpUrl))) else awake
  }

  function Recovering(e: Entry, now: int): Entry {
    if !e.session.state.Active? then e else
    Noted(WithState(e, Reconnecting).(ready := false, recoveryAt := Some(now + ENDPOINT_RECOVERY_GRACE_MS)),
      Emitted(ReconnectingNotice))
  }

  function RevokedEntry(e: Entry, reason: Text): Entry {
    var gone := WithState(e, Revoked).(ready := false, ttlArmed := false, recoveryAt := None, relay := None);
    var told := Noted(gone, Emitted(RevokedNotice(reason)));
    if e.relay.Some? then Noted(told.(closing := ClosingRelay), RelayClosed) else told.(closing := CloseDone)
  }

  // ----- lookups

  predicate Live(m: Manager, r: nat) {
    r < |m.entries| && m.entries[r].session.id in m.stored && m.stored[m.entries[r].session.id] == r
  }

  predicate Known(m: Manager, id: Text) { id in m.stored && m.stored[id] < |m.entries| }

  function Put(m: Manager, r: nat, e: Entry): Manager
    requires r < |m.entries|
  {
    m.(entries := m.entries[r := e])
  }

  // ----- compaction of revoked records

  /** Creation time first; sort is stable, so equal times keep insertion order. */
  function Older(entries: seq<Entry>): (nat, nat) -> bool {
    (a: nat, b: nat) =>
      if a < |entries| && b < |entries| then
        entries[a].session.createdAt < entries[b].session.createdAt
        || (entries[a].session.createdAt == entries[b].session.createdAt && a < b)
      else a < b
  }

  /** The live revoked records among the first `n`, in insertion order. */
  function RevokedUpTo(m: Manager, n: nat): seq<nat>
    requires n <= |m.entries|
  {
    if n == 0 then []
    else RevokedUpTo(m, n - 1) + if Live(m, n - 1) && m.entries[n - 1].session.state.Revoked? then [n - 1] else []
  }

  function Tombstones(m: Manager): seq<nat> { Sort(Older(m.entries), RevokedUpTo(m, |m.entries|)) }

  function Excess(m: Manager): nat {
    var n := |Tombstones(m)|;
    if n > MAX_REVOKED_TASK_SESSION_TOMBSTONES then n - MAX_REVOKED_TASK_SESSION_TOMBSTONES else 0
  }

  function Without(stored: map<Text, nat>, victims: seq<nat>): map<Text, nat> {
    map id | id in stored && stored[id] !in victims :: stored[id]
  }

  function Compacted(m: Manager): Manager {
    m.(stored := Without(m.stored, Tombstones(m)[..Excess(m)]))
  }

  // ----- calls

  /** Trimming and the access normalizer's platform parts stay opaque. */
  datatype Env = Env(host: Host, trim: Text -> Text, localEndpointId: Text)

  datatype OpenInput = OpenInput(
    principal: Text, controllerName: Text, taskLabel: Text, capabilities: seq<Text>,
    level: Option<Level>, tabIds: seq<int>, domains: seq<Text>, ttlMs: Option<int>, key: Option<Text>,
      route: Option<Route>)

  function Trimmed(env: Env, value: Text, max: nat): Option<Text> {
    var t := env.trim(value);
    if t == [] || |t| > max then None else Some(t)
  }

  predicate KeyUnit(u: Unit, first: bool) {
    || 0x41 <= u <= 0x5A || 0x61 <= u <= 0x7A || 0x30 <= u <= 0x39
    || (!first && (u == 0x2E || u == 0x5F || u == 0x3A || u == 0x2D))
  }

  predicate IsStableSessionKey(t: Text) {
    0 < |t| <= 128 && forall i :: 0 <= i < |t| ==> KeyUnit(t[i], i == 0)
  }

  function Cdp(): seq<Text> { [Ascii("cdp")] }

  /** The validated parts of an open request, or the first error the manager raises. */
  datatype Request = Request(principal: Text, controllerName: Text, taskLabel: Text, access: Access, route: Route)

  function Validate(env: Env, input: OpenInput): Outcome<Request, SessionError> {
    var access := NormalizeSessionAccess(env.host, input.level, input.tabIds, input.domains);
    if access.Err? then Err(InvalidAccess(access.error))
    else if input.capabilities != Cdp() then Err(UnsupportedCapability)
    else if input.ttlMs.Some? && !(0 < input.ttlMs.value <= MAX_TASK_SESSION_TTL_MS) then Err(InvalidTtl)
    else
      match (Trimmed(env, input.principal, 256), Trimmed(env, input.controllerName, 128),
        Trimmed(env, input.taskLabel, 128))
      case (Some(principal), Some(name), Some(task)) =>
        if input.key.Some? && !IsStableSessionKey(input.key.value) then Err(InvalidSession) else
        var route := if input.route.Some? then input.route.value
          else LocalRoute(env.localEndpointId, principal, access.value);
        if route.controllerPrincipalId != principal then Err(InvalidSession)
        else Ok(Request(principal, name, task, access.value, route))
      case _ => Err(InvalidSession)
  }

  predicate SameAuthority(s: Session, q: Request) {
    s.taskLabel == q.taskLabel && s.capabilities == Cdp() && s.access == q.access && s.route == q.route
  }

  /** The record a reusable key points at, if any. */
  function Existing(m: Manager, q: Request, key: Option<Text>): Option<Entry> {
    if key.Some? && (q.principal, key.value) in m.reusable && Known(m, m.reusable[(q.principal, key.value)])
    then Some(m.entries[m.stored[m.reusable[(q.principal, key.value)]]]) else None
  }

  function NewSession(q: Request, id: Text, now: int, ttlMs: Option<int>): Session {
    Session(id, q.principal, q.controllerName, q.taskLabel, Cdp(), q.access, now,
      if ttlMs.Some? then Some(now + ttlMs.value) else None, Pending, q.route)
  }

  /** The answer when the named session is already there: itself, or why not. A revoked one gives none. */
  function Reuse(existing: Option<Entry>, q: Request): Option<Outcome<Session, SessionError>> {
    if existing.None? then None
    else
      var session := existing.value.session;
      if session.state in {Active, Reconnecting} then
        Some(if SameAuthority(session, q) then Ok(session) else Err(SessionConflict))
      else if session.state.Pending? then Some(Err(if SameAuthority(session, q) then NotActive else SessionConflict))
      else None
  }

  function Cleared(reusable: map<(Text, Text), Text>, q: Request, key: Option<Text>): map<(Text, Text), Text> {
    if key.Some? then reusable - {(q.principal, key.value)} else reusable
  }

  function Added(m: Manager, q: Request, key: Option<Text>, session: Session): Manager {
    Manager(m.entries + [Opened(session, key)], m.stored[session.id := |m.entries|],
      if key.Some? then m.reusable[(q.principal, key.value) := session.id] else m.reusable)
  }

  function OpenSession(m: Manager, env: Env, input: OpenInput, id: Text, now: int): Step<Session> {
    match Validate(env, input)
    case Err(e) => Step(m, Err(e))
    case Ok(q) =>
      var answer := Reuse(Existing(m, q, input.key), q);
      if answer.Some? then Step(m, answer.value) else
      var cleared := m.(reusable := Cleared(m.reusable, q, input.key));
      if id in m.stored then Step(cleared, Err(InvalidSession)) else
      var session := NewSession(q, id, now, input.ttlMs);
      Step(Added(cleared, q, input.key, session), Ok(session))
  }

  /** True: the call started the relay; false: it joined an approval already under way. */
  function ApproveSession(m: Manager, id: Text): Step<bool> {
    if !Known(m, id) then Step(m, Err(NotFound)) else
    var r := m.stored[id];
    var e := m.entries[r];
    if !e.session.state.Pending? then Step(m, if e.start.NotStarted? then Err(NotPending) else Ok(false))
    else Step(Put(m, r, Approved(e)), Ok(true))
  }

  function ReadySession(m: Manager, id: Text): Step<Session> {
    if !Known(m, id) then Step(m, Err(NotFound)) else
    var r := m.stored[id];
    var e := m.entries[r];
    if e.session.state !in {Active, Reconnecting} || e.relay.None? then Step(m, Err(NotActive))
    else Step(Put(m, r, Readied(e)), Ok(Readied(e).session))
  }

  function Forgotten(reusable: map<(Text, Text), Text>, e: Entry): map<(Text, Text), Text> {
    if e.key.Some? && (e.session.principal, e.key.value) in reusable
       && reusable[(e.session.principal, e.key.value)] == e.session.id
    then reusable - {(e.session.principal, e.key.value)} else reusable
  }

  /** Revoking a record that is not revoked yet. A record without a relay settles, and compacts, at once. */
  function RevokeRecord(m: Manager, r: nat, reason: Text): Manager
    requires r < |m.entries|
  {
    var e := m.entries[r];
    var revoked := Put(m, r, RevokedEntry(e, reason)).(reusable := Forgotten(m.reusable, e));
    if e.relay.Some? then revoked else Compacted(revoked)
  }

  /**
   * What a revocation of the record answers: its one promise, which waits for the relay to close, fails for good if
   * that failed, and otherwise gives the session.
   */
  function RevokeAnswer(r: nat, e: Entry): Answer {
    if e.closing.ClosingRelay? then AwaitsClose(r)
    else Settled(if e.closing.CloseFailed? then Err(RelayCloseFailed) else Ok(e.session))
  }

  function RevokeSession(m: Manager, id: Text, reason: Text): Revocation {
    if !Known(m, id) then Revocation(m, Settled(Err(NotFound))) else
    var r := m.stored[id];
    if m.entries[r].session.state.Revoked? then Revocation(m, RevokeAnswer(r, m.entries[r])) else
    var after := RevokeRecord(m, r, reason);
    Revocation(after, RevokeAnswer(r, after.entries[r]))
  }

  function FailRelay(m: Manager, id: Text, reason: Text, now: int): Revocation {
    if !Known(m, id) then Revocation(m, Settled(Err(NotFound))) else
    var r := m.stored[id];
    var e := m.entries[r];
    if e.ready && e.session.state in {Active, Reconnecting} then
      Revocation(Put(m, r, Recovering(e, now)), Settled(Ok(Recovering(e, now).session)))
    else RevokeSession(m, id, reason)
  }

  function SuspendAll(m: Manager, now: int): Manager {
    m.(entries := seq(|m.entries|, r requires 0 <= r < |m.entries| =>
      if Live(m, r) then Recovering(m.entries[r], now) else m.entries[r]))
  }

  function NamedId(m: Manager, env: Env, principal: Text, key: Text): Outcome<(Text, Text), SessionError> {
    if !IsStableSessionKey(key) then Err(InvalidSession) else
    match Trimmed(env, principal, 256)
    case None => Err(InvalidSession)
    case Some(p) => Ok((p, key))
  }

  function RevokeNamedSession(m: Manager, env: Env, principal: Text, key: Text, reason: Text): Revocation {
    match NamedId(m, env, principal, key)
    case Err(e) => Revocation(m, Settled(Err(e)))
    case Ok(k) =>
      if k !in m.reusable || m.reusable[k] == [] then Revocation(m, Settled(Err(NotFound))) else
      var id := m.reusable[k];
      if !Known(m, id) || m.entries[m.stored[id]].session.state.Revoked? then
        Revocation(m.(reusable := m.reusable - {k}), Settled(Err(NotFound)))
      else RevokeSession(m, id, reason)
  }

  function RequireNamed(m: Manager, env: Env, principal: Text, key: Text): Outcome<Session, SessionError> {
    match NamedId(m, env, principal, key)
    case Err(e) => Err(e)
    case Ok(k) =>
      if k in m.reusable && m.reusable[k] != [] && Known(m, m.reusable[k])
         && m.entries[m.stored[m.reusable[k]]].session.state in {Active, Reconnecting}
      then Ok(m.entries[m.stored[m.reusable[k]]].session) else Err(NotFound)
  }

  function PreviewUpgrade(m: Manager, env: Env, principal: Text, key: Text, delta: Delta)
    : Outcome<(Session, Access), SessionError>
  {
    match RequireNamed(m, env, principal, key)
    case Err(e) => Err(e)
    case Ok(session) =>
      match UpgradeSessionAccess(env.host, session.access, delta)
      case Err(_) => Err(InvalidSession)
      case Ok(access) => Ok((session, access))
  }

  function ApplyUpgrade(m: Manager, env: Env, id: Text, delta: Delta, expected: Access): Step<Session> {
    if !Known(m, id) then Step(m, Err(NotFound)) else
    var r := m.stored[id];
    var e := m.entries[r];
    if !e.session.state.Active? then Step(m, Err(NotActive)) else
    match UpgradeSessionAccess(env.host, e.session.access, delta)
    case Err(_) => Step(m, Err(InvalidSession))
    case Ok(access) =>
      if access != expected then Step(m, Err(SessionConflict)) else
      var upgraded := e.(session := e.session.(access := access));
      Step(Put(m, r, upgraded), Ok(upgraded.session))
  }

  // ----- continuations

  function RelayResolved(m: Manager, r: nat, relay: Relay): Manager
    requires r < |m.entries|
  {
    Put(m, r, Delivered(m.entries[r], relay))
  }

  /** The catch block of an approval: revoke by ID, whatever record the ID names by now. */
  function StartFailed(m: Manager, r: nat, start: Start): Manager
    requires r < |m.entries|
  {
    var settled := Put(m, r, m.entries[r].(start := start));
    RevokeSession(settled, m.entries[r].session.id, Ascii("relayStartFailed")).manager
  }

  function CloseSettled(m: Manager, r: nat, ok: bool): Manager
    requires r < |m.entries|
  {
    Compacted(Put(m, r, m.entries[r].(closing := if ok then CloseDone else CloseFailed)))
  }

  function RevokeEach(m: Manager, ids: seq<Text>, reason: Text): Manager
    decreases |ids|
  {
    if ids == [] then m else RevokeEach(RevokeSession(m, ids[0], reason).manager, ids[1..], reason)
  }

  // ----- steps and runs

  datatype Event =
    | Open(input: OpenInput, id: Text, now: int)
    | Approve(id: Text)
    | RelayReady(id: Text)
    | RelayFailed(id: Text, reason: Text, now: int)
    | Suspend(now: int)
    | Revoke(id: Text, reason: Text)
    | RevokeNamed(principal: Text, key: Text, reason: Text)
    | RevokeMany(ids: seq<Text>, reason: Text)  // revokeAll and sweepExpired
    | Upgrade(id: Text, delta: Delta, expected: Access)
    | StartResolved(r: nat, relay: Relay)
    | StartRejected(r: nat)
    | LateCloseSettled(r: nat)
    | RelayCloseSettled(r: nat, ok: bool)
    | TtlFires(r: nat)
    | RecoveryFires(r: nat)

  /** A continuation runs once, when its promise has settled; a timer fires only while armed. */
  predicate Enabled(m: Manager, event: Event) {
    match event
    case StartResolved(r, _) => r < |m.entries| && m.entries[r].start.Starting?
    case StartRejected(r) => r < |m.entries| && m.entries[r].start.Starting?
    case LateCloseSettled(r) => r < |m.entries| && m.entries[r].start.LateClosing?
    case RelayCloseSettled(r, _) => r < |m.entries| && m.entries[r].closing.ClosingRelay?
    case TtlFires(r) => r < |m.entries| && m.entries[r].ttlArmed
    case RecoveryFires(r) => r < |m.entries| && m.entries[r].recoveryAt.Some?
    case _ => true
  }

  function Next(m: Manager, env: Env, event: Event): Manager
    requires Enabled(m, event)
  {
    match event
    case Open(input, id, now) => OpenSession(m, env, input, id, now).manager
    case Approve(id) => ApproveSession(m, id).manager
    case RelayReady(id) => ReadySession(m, id).manager
    case RelayFailed(id, reason, now) => FailRelay(m, id, reason, now).manager
    case Suspend(now) => SuspendAll(m, now)
    case Revoke(id, reason) => RevokeSession(m, id, reason).manager
    case RevokeNamed(principal, key, reason) => RevokeNamedSession(m, env, principal, key, reason).manager
    case RevokeMany(ids, reason) => RevokeEach(m, ids, reason)
    case Upgrade(id, delta, expected) => ApplyUpgrade(m, env, id, delta, expected).manager
    case StartResolved(r, relay) => RelayResolved(m, r, relay)
    case StartRejected(r) => StartFailed(m, r, Rejected)
    case LateCloseSettled(r) => StartFailed(m, r, Resolved)
    case RelayCloseSettled(r, ok) => CloseSettled(m, r, ok)
    case TtlFires(r) => RevokeSession(m, m.entries[r].session.id, Ascii("ttlExpired")).manager
    case RecoveryFires(r) => RevokeSession(m, m.entries[r].session.id, Ascii("relayRecoveryExpired")).manager
  }

  predicate Legal(m: Manager, env: Env, trace: seq<Event>)
    decreases |trace|
  {
    trace != [] ==> Enabled(m, trace[0]) && Legal(Next(m, env, trace[0]), env, trace[1..])
  }

  function Run(m: Manager, env: Env, trace: seq<Event>): Manager
    requires Legal(m, env, trace)
    decreases |trace|
  {
    if trace == [] then m else Run(Next(m, env, trace[0]), env, trace[1..])
  }
}
