/**
 * Access upgrades of one host run: the two maps of pending requests beside the session manager, and what holds of
 * every run of requests, approvals, refusals and session events.
 */
module AccessHost {
  import opened Bytes
  import opened Results
  import opened SessionAccess
  import opened TaskSessions
  import opened TaskSessionRuns

  datatype AccessRequest = AccessRequest(id: Text, sessionId: Text, delta: Delta, requested: Access)

  datatype Desk = Desk(manager: Manager, pending: map<Text, AccessRequest>, bySession: map<Text, Text>)

  datatype HostEvent =
    | Sessions(event: Event)
    | RequestAccess(trusted: bool, principal: Text, key: Text, delta: Delta, requestId: Text)
    | ApproveAccess(requestId: Text, sessionId: Text, access: Access)
    | DeclineAccess(requestId: Text, sessionId: Text)

  // ----- steps

  function Added(d: Desk, request: AccessRequest): Desk {
    d.(pending := d.pending[request.id := request], bySession := d.bySession[request.sessionId := request.id])
  }

  function Removed(d: Desk, request: AccessRequest): Desk {
    d.(pending := d.pending - {request.id}, bySession := d.bySession - {request.sessionId})
  }

  function RequestOn(d: Desk, env: Env, trusted: bool, principal: Text, key: Text, delta: Delta, requestId: Text)
    : (Desk, Outcome<AccessRequest, SessionError>)
  {
    if !trusted then (d, Err(InvalidSession)) else
    match PreviewUpgrade(d.manager, env, principal, key, delta)
    case Err(e) => (d, Err(e))
    case Ok((session, access)) =>
      if session.id in d.bySession then (d, Err(SessionConflict))
      else
        var request := AccessRequest(requestId, session.id, delta, access);
        (Added(d, request), Ok(request))
  }

  /** The pending request an approval names, if the approval fits it. */
  function Approvable(d: Desk, requestId: Text, sessionId: Text, access: Access): Option<AccessRequest> {
    if requestId in d.pending && d.pending[requestId].sessionId == sessionId && d.pending[requestId].requested == access
    then Some(d.pending[requestId]) else None
  }

  /** An approval the manager refuses throws and leaves the request pending. */
  function Granted(d: Desk, env: Env, request: AccessRequest): Desk {
    var step := ApplyUpgrade(d.manager, env, request.sessionId, request.delta, request.requested);
    if step.result.Err? then d else Removed(d.(manager := step.manager), request)
  }

  function ApproveOn(d: Desk, env: Env, requestId: Text, sessionId: Text, access: Access): Desk {
    match Approvable(d, requestId, sessionId, access)
    case None => d
    case Some(request) => Granted(d, env, request)
  }

  function DeclineOn(d: Desk, requestId: Text, sessionId: Text): Desk {
    if requestId in d.pending && d.pending[requestId].sessionId == sessionId
    then Removed(d, d.pending[requestId]) else d
  }

  predicate Ends(m: Manager, n: Manager, r: nat) {
    r < |m.entries| && r < |n.entries| && !m.entries[r].session.state.Revoked? && n.entries[r].session.state.Revoked?
  }

  /** The sessions whose `revoked` notice a step emitted. */
  function Ended(m: Manager, n: Manager): set<Text> {
    set r | 0 <= r < |m.entries| && Ends(m, n, r) :: m.entries[r].session.id
  }

  /** The listener drops the request of every session that ended. */
  function Dropped(d: Desk, ended: set<Text>): Desk {
    d.(pending := d.pending - (set s | s in ended && s in d.bySession :: d.bySession[s]),
       bySession := d.bySession - ended)
  }

  function SessionStep(d: Desk, env: Env, event: Event): Desk
    requires Enabled(d.manager, event)
  {
    var n := Next(d.manager, env, event);
    Dropped(d.(manager := n), Ended(d.manager, n))
  }

  /** Request IDs are random UUIDs: never empty, never one already pending. Access is upgraded only by approvals. */
  predicate HostEnabled(d: Desk, event: HostEvent) {
    match event
    case Sessions(e) => Enabled(d.manager, e) && !e.Upgrade?
    case RequestAccess(_, _, _, _, requestId) => requestId !in d.pending && requestId != []
    case _ => true
  }

  function HostNext(d: Desk, env: Env, event: HostEvent): Desk
    requires HostEnabled(d, event)
  {
    match event
    case Sessions(e) => SessionStep(d, env, e)
    case RequestAccess(trusted, principal, key, delta, requestId) =>
      RequestOn(d, env, trusted, principal, key, delta, requestId).0
    case ApproveAccess(requestId, sessionId, access) => ApproveOn(d, env, requestId, sessionId, access)
    case DeclineAccess(requestId, sessionId) => DeclineOn(d, requestId, sessionId)
  }

  // ----- what a step keeps

  /** The session a live ID names, if it is not revoked. */
  predicate Unrevoked(m: Manager, id: Text) { Known(m, id) && !m.entries[m.stored[id]].session.state.Revoked? }

  /** The two maps without the sessions behind them. */
  ghost predicate Paired(pending: map<Text, AccessRequest>, bySession: map<Text, Text>) {
    && (forall q :: q in pending ==>
          pending[q].id == q && pending[q].sessionId in bySession && bySession[pending[q].sessionId] == q)
    && (forall s :: s in bySession ==> bySession[s] in pending && pending[bySession[s]].sessionId == s)
  }

  /** The two maps are inverse, so a session has at most one request; each request's session is still there. */
  ghost predicate Inverse(d: Desk) {
    && Paired(d.pending, d.bySession)
    && (forall s :: s in d.bySession ==> Unrevoked(d.manager, s))
  }

  function AccessOf(m: Manager, id: Text): Access
    requires Known(m, id)
  {
    m.entries[m.stored[id]].session.access
  }

  predicate Leads(m: Manager, env: Env, request: AccessRequest) {
    Unrevoked(m, request.sessionId) ==>
      UpgradeSessionAccess(env.host, AccessOf(m, request.sessionId), request.delta) == Ok(request.requested)
  }

  /** Each request still leads from its session's present access to exactly the access it asks for. */
  ghost predicate Current(d: Desk, env: Env) {
    forall q :: q in d.pending ==> Leads(d.manager, env, d.pending[q])
  }

  ghost predicate Normal(m: Manager, env: Env) {
    forall r :: 0 <= r < |m.entries| ==> IsSessionAccess(env.host, m.entries[r].session.access)
  }

  ghost predicate DeskInv(d: Desk, env: Env) {
    Inv(d.manager) && Normal(d.manager, env) && Inverse(d) && Current(d, env)
  }

  lemma NextNormal(m: Manager, env: Env, event: Event)
    requires Lawful(env.host) && Inv(m) && Normal(m, env) && Enabled(m, event) && !event.Upgrade?
    ensures Normal(Next(m, env, event), env)
  {
    var n := Next(m, env, event);
    StepKeepsRecords(m, env, event);
    forall r | 0 <= r < |n.entries| ensures IsSessionAccess(env.host, n.entries[r].session.access) {
      if r < |m.entries| {
        assert Kept(m.entries[r], n.entries[r]);
      } else {
        NewRecordNormal(m, env, event, r);
      }
    }
  }

  lemma NewRecordNormal(m: Manager, env: Env, event: Event, r: nat)
    requires Lawful(env.host) && Inv(m) && Enabled(m, event) && |m.entries| <= r < |Next(m, env, event).entries|
    ensures IsSessionAccess(env.host, Next(m, env, event).entries[r].session.access)
  {
    if event.Open? {
      OpenOutcome(m, env, event.input, event.id, event.now);
      NormalizationIdempotent(env.host, event.input.level, event.input.tabIds, event.input.domains);
    } else {
      OnlyOpenAdds(m, env, event);
    }
  }

  /** A session that is open before a step either ends in it or is open afterwards, with the access it had. */
  lemma OpenAfter(m: Manager, n: Manager, id: Text)
    requires Inv(m) && Inv(n) && AllKept(m, n) && Unrevoked(m, id)
    ensures id in Ended(m, n) || (Unrevoked(n, id) && n.stored[id] == m.stored[id])
    ensures n.entries[m.stored[id]].session.access == m.entries[m.stored[id]].session.access
  {
    var r := m.stored[id];
    assert Kept(m.entries[r], n.entries[r]);
    if n.entries[r].session.state.Revoked? {
      assert Ends(m, n, r);
    } else {
      assert Live(n, r);
    }
  }

  lemma DroppedPaired(d: Desk, ended: set<Text>)
    requires Paired(d.pending, d.bySession)
    ensures Paired(Dropped(d, ended).pending, Dropped(d, ended).bySession)
  {
  }

  lemma DroppedInverse(d: Desk, n: Manager, ended: set<Text>)
    requires Inverse(d)
    requires forall s :: s in d.bySession && s !in ended ==> Unrevoked(n, s)
    ensures Inverse(Dropped(d.(manager := n), ended))
  {
  }

  lemma SessionStepInv(d: Desk, env: Env, event: Event)
    requires Lawful(env.host) && DeskInv(d, env) && Enabled(d.manager, event) && !event.Upgrade?
    ensures DeskInv(SessionStep(d, env, event), env)
  {
    var m, n := d.manager, Next(d.manager, env, event);
    var after := SessionStep(d, env, event);
    NextInv(m, env, event);
    NextNormal(m, env, event);
    StepKeepsRecords(m, env, event);
    forall s | s in d.bySession && s !in Ended(m, n) ensures Unrevoked(n, s) {
      OpenAfter(m, n, s);
    }
    DroppedInverse(d, n, Ended(m, n));
    forall q | q in after.pending ensures Leads(n, env, after.pending[q]) {
      assert Leads(m, env, d.pending[q]);
      OpenAfter(m, n, after.pending[q].sessionId);
    }
  }

  lemma PreviewOpen(m: Manager, env: Env, principal: Text, key: Text, delta: Delta)
    requires Inv(m) && PreviewUpgrade(m, env, principal, key, delta).Ok?
    ensures var (session, access) := PreviewUpgrade(m, env, principal, key, delta).value;
      && Unrevoked(m, session.id) && m.entries[m.stored[session.id]].session == session
      && UpgradeSessionAccess(env.host, session.access, delta) == Ok(access)
  {
    var k := NamedId(m, env, principal, key).value;
    assert Known(m, m.reusable[k]);
  }

  lemma PairAdded(pending: map<Text, AccessRequest>, bySession: map<Text, Text>, request: AccessRequest)
    requires Paired(pending, bySession) && request.id !in pending && request.sessionId !in bySession
    ensures Paired(pending[request.id := request], bySession[request.sessionId := request.id])
  {
  }

  lemma PairRemoved(pending: map<Text, AccessRequest>, bySession: map<Text, Text>, request: AccessRequest)
    requires Paired(pending, bySession) && request.id in pending && pending[request.id] == request
    ensures Paired(pending - {request.id}, bySession - {request.sessionId})
  {
  }

  lemma AddedInv(d: Desk, env: Env, request: AccessRequest)
    requires Inverse(d) && Current(d, env)
    requires request.id !in d.pending && request.sessionId !in d.bySession
    requires Unrevoked(d.manager, request.sessionId) && Leads(d.manager, env, request)
    ensures Inverse(Added(d, request)) && Current(Added(d, request), env)
  {
    PairAdded(d.pending, d.bySession, request);
    var after := Added(d, request);
    forall s | s in after.bySession ensures Unrevoked(d.manager, s) {}
    forall q | q in after.pending ensures Leads(d.manager, env, after.pending[q]) {
      assert q == request.id || Leads(d.manager, env, d.pending[q]);
    }
  }

  lemma RequestInv(d: Desk, env: Env, trusted: bool, principal: Text, key: Text, delta: Delta, requestId: Text)
    requires DeskInv(d, env) && requestId !in d.pending
    ensures DeskInv(RequestOn(d, env, trusted, principal, key, delta, requestId).0, env)
  {
    var preview := PreviewUpgrade(d.manager, env, principal, key, delta);
    if preview.Ok? && trusted && preview.value.0.id !in d.bySession {
      PreviewOpen(d.manager, env, principal, key, delta);
      AddedInv(d, env, AccessRequest(requestId, preview.value.0.id, delta, preview.value.1));
    }
  }

  lemma RemovedInv(d: Desk, env: Env, request: AccessRequest)
    requires Inverse(d) && request.id in d.pending && d.pending[request.id] == request
    requires forall q :: q in d.pending && q != request.id ==> Leads(d.manager, env, d.pending[q])
    ensures Inverse(Removed(d, request)) && Current(Removed(d, request), env)
  {
    PairRemoved(d.pending, d.bySession, request);
    var after := Removed(d, request);
    forall s | s in after.bySession ensures Unrevoked(d.manager, s) {}
    forall q | q in after.pending ensures Leads(d.manager, env, after.pending[q]) {
      assert Leads(d.manager, env, d.pending[q]);
    }
  }

  /** Upgrading one session leaves every other session as it was. */
  lemma UpgradedOpen(m: Manager, n: Manager, id: Text, access: Access, other: Text)
    requires StoredExact(m) && Known(m, id)
    requires n ==
      Put(m, m.stored[id], m.entries[m.stored[id]].(session := m.entries[m.stored[id]].session.(access := access)))
    ensures Unrevoked(n, other) <==> Unrevoked(m, other)
    ensures Unrevoked(m, other) && other != id ==> AccessOf(n, other) == AccessOf(m, other)
  {
  }

  lemma UpgradedDesk(d: Desk, env: Env, request: AccessRequest, n: Manager)
    requires StoredExact(d.manager) && Inverse(d) && Current(d, env) && Known(d.manager, request.sessionId)
    requires request.id in d.pending && d.pending[request.id] == request
    requires Upgraded(env, d.manager, n, request.sessionId, request.delta, request.requested)
    ensures Inverse(d.(manager := n))
    ensures forall q :: q in d.pending && q != request.id ==> Leads(n, env, d.pending[q])
  {
    var m := d.manager;
    forall s | s in d.bySession ensures Unrevoked(n, s) {
      UpgradedOpen(m, n, request.sessionId, request.requested, s);
    }
    forall q | q in d.pending && q != request.id ensures Leads(n, env, d.pending[q]) {
      assert Leads(m, env, d.pending[q]);
      UpgradedOpen(m, n, request.sessionId, request.requested, d.pending[q].sessionId);
    }
  }

  lemma UpgradedNormal(m: Manager, env: Env, n: Manager, id: Text, delta: Delta, expected: Access)
    requires Lawful(env.host) && Normal(m, env) && Upgraded(env, m, n, id, delta, expected)
    ensures Normal(n, env)
  {
    UpgradeNormalized(env.host, AccessOf(m, id), delta);
  }

  lemma UpgradeResult(m: Manager, env: Env, id: Text, delta: Delta, expected: Access)
    ensures var step := ApplyUpgrade(m, env, id, delta, expected);
      step.result.Ok? ==> Upgraded(env, m, step.manager, id, delta, expected)
    ensures ApplyUpgrade(m, env, id, delta, expected).result.Err? ==>
      ApplyUpgrade(m, env, id, delta, expected).manager == m
  {
  }

  lemma ApproveInv(d: Desk, env: Env, requestId: Text, sessionId: Text, access: Access)
    requires Lawful(env.host) && DeskInv(d, env)
    ensures DeskInv(ApproveOn(d, env, requestId, sessionId, access), env)
  {
    var approvable := Approvable(d, requestId, sessionId, access);
    if approvable.Some? {
      assert d.pending[requestId].id == requestId;
      ApprovableInv(d, env, approvable.value);
    }
  }

  lemma ApprovableInv(d: Desk, env: Env, request: AccessRequest)
    requires Lawful(env.host) && DeskInv(d, env)
    requires request.id in d.pending && d.pending[request.id] == request
    ensures DeskInv(Granted(d, env, request), env)
  {
    var step := ApplyUpgrade(d.manager, env, request.sessionId, request.delta, request.requested);
    UpgradeResult(d.manager, env, request.sessionId, request.delta, request.requested);
    TaskSessionRuns.UpgradeInv(d.manager, env, request.sessionId, request.delta, request.requested);
    if step.result.Ok? {
      UpgradedDesk(d, env, request, step.manager);
      UpgradedNormal(d.manager, env, step.manager, request.sessionId, request.delta, request.requested);
      RemovedInv(d.(manager := step.manager), env, request);
    }
  }

  lemma DeclineInv(d: Desk, env: Env, requestId: Text, sessionId: Text)
    requires DeskInv(d, env)
    ensures DeskInv(DeclineOn(d, requestId, sessionId), env)
  {
    if requestId in d.pending {
      RemovedInv(d, env, d.pending[requestId]);
    }
  }

  /** Whatever a host's maps hold, a step keeps the manager's own invariants, */
  lemma ManagerKept(d: Desk, env: Env, event: HostEvent)
    requires Lawful(env.host) && Inv(d.manager) && Normal(d.manager, env) && HostEnabled(d, event)
    ensures Inv(HostNext(d, env, event).manager) && Normal(HostNext(d, env, event).manager, env)
  {
    match event {
      case Sessions(e) =>
        NextInv(d.manager, env, e);
        NextNormal(d.manager, env, e);
        assert HostNext(d, env, event) == SessionStep(d, env, e);
      case RequestAccess(_, _, _, _, _) =>
      case DeclineAccess(_, _) =>
      case ApproveAccess(requestId, sessionId, access) =>
        if Approvable(d, requestId, sessionId, access).Some? {
          GrantedManager(d.manager, env, sessionId, d.pending[requestId].delta, access);
        }
    }
  }

  lemma GrantedManager(m: Manager, env: Env, id: Text, delta: Delta, expected: Access)
    requires Lawful(env.host) && Inv(m) && Normal(m, env)
    ensures var n := ApplyUpgrade(m, env, id, delta, expected).manager; Inv(n) && Normal(n, env)
  {
    UpgradeResult(m, env, id, delta, expected);
    TaskSessionRuns.UpgradeInv(m, env, id, delta, expected);
    if ApplyUpgrade(m, env, id, delta, expected).result.Ok? {
      UpgradedNormal(m, env, ApplyUpgrade(m, env, id, delta, expected).manager, id, delta, expected);
    }
  }

  /** and keeps the two maps inverse to each other. */
  lemma PairedKept(d: Desk, env: Env, event: HostEvent)
    requires Paired(d.pending, d.bySession) && HostEnabled(d, event)
    ensures Paired(HostNext(d, env, event).pending, HostNext(d, env, event).bySession)
  {
    match event {
      case Sessions(e) =>
        var n := Next(d.manager, env, e);
        DroppedPaired(d.(manager := n), Ended(d.manager, n));
      case RequestAccess(_, _, _, _, _) =>
      case DeclineAccess(requestId, sessionId) =>
        if requestId in d.pending {
          PairRemoved(d.pending, d.bySession, d.pending[requestId]);
        }
      case ApproveAccess(requestId, sessionId, access) =>
        if requestId in d.pending {
          PairRemoved(d.pending, d.bySession, d.pending[requestId]);
        }
    }
  }

  lemma HostNextInv(d: Desk, env: Env, event: HostEvent)
    requires Lawful(env.host) && DeskInv(d, env) && HostEnabled(d, event)
    ensures DeskInv(HostNext(d, env, event), env)
  {
    match event {
      case Sessions(e) => SessionStepInv(d, env, e);
      case RequestAccess(trusted, principal, key, delta, requestId) =>
        RequestInv(d, env, trusted, principal, key, delta, requestId);
      case ApproveAccess(requestId, sessionId, access) => ApproveInv(d, env, requestId, sessionId, access);
      case DeclineAccess(requestId, sessionId) => DeclineInv(d, env, requestId, sessionId);
    }
  }

  // ----- access only grows

  ghost predicate Admits(a: Access, b: Access) {
    && (forall url :: SessionAllowsUrl(a, url) ==> SessionAllowsUrl(b, url))
    && (forall tab :: SessionCanAdoptTab(a, tab) ==> SessionCanAdoptTab(b, tab))
  }

  lemma NormalizedTwice(host: Host, d: Delta)
    requires Lawful(host) && NormalizeSessionAccessDelta(host, d).Ok?
    ensures IsSessionAccessDelta(host, NormalizeSessionAccessDelta(host, d).value)
  {
    NormalizedTabIdsResult(d.tabIds);
    NormalizedDomainsResult(host, d.domains);
  }

  /** An upgrade looks at its delta only through the normalizer. */
  lemma UpgradeByNormalForm(host: Host, current: Access, d: Delta, e: Delta)
    requires NormalizeSessionAccessDelta(host, d) == NormalizeSessionAccessDelta(host, e)
    ensures UpgradeSessionAccess(host, current, d) == UpgradeSessionAccess(host, current, e)
  {
  }

  lemma NormalizedDelta(host: Host, current: Access, d: Delta)
    requires Lawful(host) && UpgradeSessionAccess(host, current, d).Ok?
    ensures var n := NormalizeSessionAccessDelta(host, d);
      n.Ok? && IsSessionAccessDelta(host, n.value)
      && UpgradeSessionAccess(host, current, n.value) == UpgradeSessionAccess(host, current, d)
  {
    NormalizedTwice(host, d);
    UpgradeByNormalForm(host, current, d, NormalizeSessionAccessDelta(host, d).value);
  }

  /** One successful upgrade, of any delta: a heavier access that admits at least as much. */
  lemma UpgradeGrows(host: Host, current: Access, d: Delta)
    requires Lawful(host) && IsSessionAccess(host, current) && UpgradeSessionAccess(host, current, d).Ok?
    ensures var u := UpgradeSessionAccess(host, current, d).value;
      Weight(current) < Weight(u) <= 129 && Admits(current, u)
  {
    NormalizedDelta(host, current, d);
    var n := NormalizeSessionAccessDelta(host, d).value;
    UpgradeWeighs(host, current, n);
    UpgradeAdmits(host, current, n);
  }

  /** A pending request for this record's session was approved, and its access became the approved value. */
  predicate Through(d: Desk, env: Env, event: HostEvent, before: Session, after: Session) {
    && event.ApproveAccess? && event.requestId in d.pending
    && d.pending[event.requestId].sessionId == before.id
    && after.access == d.pending[event.requestId].requested == event.access
    && UpgradeSessionAccess(env.host, before.access, d.pending[event.requestId].delta) == Ok(event.access)
  }

  lemma ApproveStepAccess(d: Desk, env: Env, requestId: Text, sessionId: Text, access: Access, r: nat)
    requires StoredExact(d.manager) && r < |d.manager.entries|
    ensures var n := ApproveOn(d, env, requestId, sessionId, access).manager;
      && |n.entries| == |d.manager.entries|
      && (n.entries[r] != d.manager.entries[r] ==>
            Through(d, env, ApproveAccess(requestId, sessionId, access), d.manager.entries[r].session,
              n.entries[r].session))
  {
    if Approvable(d, requestId, sessionId, access).Some? {
      UpgradeResult(d.manager, env, sessionId, d.pending[requestId].delta, access);
    }
  }

  lemma SessionStepAccess(d: Desk, env: Env, event: Event, r: nat)
    requires Inv(d.manager) && Enabled(d.manager, event) && !event.Upgrade? && r < |d.manager.entries|
    ensures var n := SessionStep(d, env, event).manager;
      r < |n.entries| && n.entries[r].session.access == d.manager.entries[r].session.access
  {
    StepKeepsRecords(d.manager, env, event);
    assert Kept(d.manager.entries[r], SessionStep(d, env, event).manager.entries[r]);
  }

  lemma DeskStepAccess(d: Desk, env: Env, event: HostEvent)
    requires (event.RequestAccess? || event.DeclineAccess?) && HostEnabled(d, event)
    ensures HostNext(d, env, event).manager == d.manager
  {
  }

  /** In one step the access of a record stays, or a pending request for its session is approved and takes effect. */
  lemma HostStepAccess(d: Desk, env: Env, event: HostEvent, r: nat)
    requires Inv(d.manager) && HostEnabled(d, event) && r < |d.manager.entries|
    ensures var n := HostNext(d, env, event).manager;
      && r < |n.entries|
      && (n.entries[r].session.access != d.manager.entries[r].session.access ==>
            Through(d, env, event, d.manager.entries[r].session, n.entries[r].session))
  {
    match event {
      case Sessions(e) =>
        SessionStepAccess(d, env, e, r);
        assert HostNext(d, env, event) == SessionStep(d, env, e);
      case RequestAccess(_, _, _, _, _) => DeskStepAccess(d, env, event);
      case DeclineAccess(_, _) => DeskStepAccess(d, env, event);
      case ApproveAccess(requestId, sessionId, access) => ApproveStepAccess(d, env, requestId, sessionId, access, r);
    }
  }

  lemma StepGrows(d: Desk, env: Env, event: HostEvent, r: nat)
    requires Lawful(env.host) && Inv(d.manager) && Normal(d.manager, env) && HostEnabled(d, event)
    requires r < |d.manager.entries|
    ensures var n := HostNext(d, env, event).manager;
      && r < |n.entries|
      && var a, b := d.manager.entries[r].session.access, n.entries[r].session.access;
      Admits(a, b) && (a != b ==> Weight(a) < Weight(b))
  {
    HostStepAccess(d, env, event, r);
    var a := d.manager.entries[r].session.access;
    if HostNext(d, env, event).manager.entries[r].session.access != a {
      UpgradeGrows(env.host, a, d.pending[event.requestId].delta);
    }
  }
}
