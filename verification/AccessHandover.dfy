/**
 * Several host runs on one session manager. A run that takes the endpoint over becomes the manager's listener and the
 * one that is asked for access; the runs before it keep their maps of pending requests and may still settle them.
 */
module AccessHandover {
  import opened Bytes
  import opened Results
  import Sorting
  import opened SessionAccess
  import opened TaskSessions
  import opened TaskSessionRuns
  import opened AccessHost

  datatype Maps = Maps(pending: map<Text, AccessRequest>, bySession: map<Text, Text>)

  /** One pair of maps for every run there has been; the manager's notices go to one of them. */
  datatype Office = Office(manager: Manager, desks: seq<Maps>, listener: nat)

  const NO_REQUESTS := Maps(map[], map[])

  function DeskOf(o: Office, k: nat): Desk
    requires k < |o.desks|
  {
    Desk(o.manager, o.desks[k].pending, o.desks[k].bySession)
  }

  function WithDesk(o: Office, k: nat, d: Desk): Office
    requires k < |o.desks|
  {
    Office(d.manager, o.desks[k := Maps(d.pending, d.bySession)], o.listener)
  }

  /** A run takes over, a new one or an earlier one that announced itself again; or something happens at a run. */
  datatype OfficeEvent = TakeOver(k: nat) | At(k: nat, event: HostEvent)

  /** Notices of sessions and requests for access reach the present listener; answers of the browser reach any run. */
  predicate OfficeEnabled(o: Office, event: OfficeEvent) {
    match event
    case TakeOver(k) => k <= |o.desks|
    case At(k, e) =>
      k < |o.desks| && HostEnabled(DeskOf(o, k), e) && (e.Sessions? || e.RequestAccess? ==> k == o.listener)
  }

  function OfficeNext(o: Office, env: Env, event: OfficeEvent): Office
    requires OfficeEnabled(o, event)
  {
    match event
    case TakeOver(k) => o.(listener := k, desks := if k == |o.desks| then o.desks + [NO_REQUESTS] else o.desks)
    case At(k, e) => WithDesk(o, k, HostNext(DeskOf(o, k), env, e))
  }

  predicate OfficeLegal(o: Office, env: Env, trace: seq<OfficeEvent>)
    decreases |trace|
  {
    trace != [] ==> OfficeEnabled(o, trace[0]) && OfficeLegal(OfficeNext(o, env, trace[0]), env, trace[1..])
  }

  function OfficeRun(o: Office, env: Env, trace: seq<OfficeEvent>): Office
    requires OfficeLegal(o, env, trace)
    decreases |trace|
  {
    if trace == [] then o else OfficeRun(OfficeNext(o, env, trace[0]), env, trace[1..])
  }

  /** The first run, without requests, beside a manager in any reachable state. */
  ghost predicate Opening(o: Office, env: Env) {
    Inv(o.manager) && Normal(o.manager, env) && o.desks == [NO_REQUESTS] && o.listener == 0
  }

  // ----- what every run keeps

  ghost predicate OfficeInv(o: Office, env: Env) {
    && Inv(o.manager) && Normal(o.manager, env) && o.listener < |o.desks|
    && forall k :: 0 <= k < |o.desks| ==> Paired(o.desks[k].pending, o.desks[k].bySession)
  }

  lemma OfficeNextInv(o: Office, env: Env, event: OfficeEvent)
    requires Lawful(env.host) && OfficeInv(o, env) && OfficeEnabled(o, event)
    ensures OfficeInv(OfficeNext(o, env, event), env)
    ensures |o.desks| <= |OfficeNext(o, env, event).desks|
  {
    match event {
      case TakeOver(k) =>
      case At(k, e) =>
        ManagerKept(DeskOf(o, k), env, e);
        PairedKept(DeskOf(o, k), env, e);
    }
  }

  lemma {:induction false} OfficeRunInv(o: Office, env: Env, trace: seq<OfficeEvent>)
    requires Lawful(env.host) && OfficeInv(o, env) && OfficeLegal(o, env, trace)
    ensures OfficeInv(OfficeRun(o, env, trace), env)
    ensures |o.desks| <= |OfficeRun(o, env, trace).desks|
    decreases |trace|
  {
    if trace != [] {
      OfficeNextInv(o, env, trace[0]);
      OfficeRunInv(OfficeNext(o, env, trace[0]), env, trace[1..]);
    }
  }

  /** Over any run, handovers included, the two maps of every host stay inverse: no session has two requests at one. */
  lemma PendingMapsInverse(o: Office, env: Env, trace: seq<OfficeEvent>, k: nat)
    requires Lawful(env.host) && Opening(o, env) && OfficeLegal(o, env, trace) && k < |OfficeRun(o, env, trace).desks|
    ensures var (pending, bySession) :=
      (OfficeRun(o, env, trace).desks[k].pending, OfficeRun(o, env, trace).desks[k].bySession);
      && (forall q :: q in pending ==> pending[q].sessionId in bySession && bySession[pending[q].sessionId] == q)
      && (forall s :: s in bySession ==> bySession[s] in pending && pending[bySession[s]].sessionId == s)
      && (forall p, q :: p in pending && q in pending && pending[p].sessionId == pending[q].sessionId ==> p == q)
  {
    OfficeRunInv(o, env, trace);
  }

  // ----- requests that can still be granted

  /** Every request of the host names a session that is not revoked and still leads to the access it asks for. */
  ghost predicate Sound(o: Office, env: Env, k: nat) { k < |o.desks| && SoundMaps(o.manager, env, o.desks[k]) }

  ghost predicate SoundMaps(m: Manager, env: Env, maps: Maps) {
    && Paired(maps.pending, maps.bySession)
    && (forall s :: s in maps.bySession ==> Unrevoked(m, s))
    && (forall q :: q in maps.pending ==> Leads(m, env, maps.pending[q]))
  }

  /** A session with a request at this host ends, and another host hears of it. */
  predicate Strands(o: Office, env: Env, event: OfficeEvent, k: nat)
    requires OfficeEnabled(o, event) && k < |o.desks|
  {
    && event.At? && event.k != k && event.event.Sessions?
    && exists s :: s in o.desks[k].bySession && s in Ended(o.manager, Next(o.manager, env, event.event.event))
  }

  /** The approval names a pending request of an active session, and the delta still leads to what was asked. */
  predicate Grantable(d: Desk, env: Env, requestId: Text, sessionId: Text, access: Access) {
    && Approvable(d, requestId, sessionId, access).Some?
    && Known(d.manager, sessionId) && d.manager.entries[d.manager.stored[sessionId]].session.state.Active?
    && UpgradeSessionAccess(env.host, AccessOf(d.manager, sessionId), d.pending[requestId].delta) == Ok(access)
  }

  /** From this access the request's delta leads to something else than it asked for, or nowhere. */
  predicate LeadsElsewhere(env: Env, request: AccessRequest, access: Access) {
    UpgradeSessionAccess(env.host, access, request.delta) != Ok(request.requested)
  }

  /** Another host grants the session an upgrade from which this host's request leads elsewhere. */
  predicate Overtakes(o: Office, env: Env, event: OfficeEvent, k: nat)
    requires OfficeEnabled(o, event) && k < |o.desks|
  {
    && event.At? && event.k != k && event.event.ApproveAccess?
    && var (requestId, s, access) := (event.event.requestId, event.event.sessionId, event.event.access);
    && Grantable(DeskOf(o, event.k), env, requestId, s, access)
    && s in o.desks[k].bySession && o.desks[k].bySession[s] in o.desks[k].pending
    && LeadsElsewhere(env, o.desks[k].pending[o.desks[k].bySession[s]], access)
  }

  lemma EndedClosed(m: Manager, env: Env, event: Event, id: Text)
    requires Inv(m) && Enabled(m, event) && !event.Upgrade? && id in Ended(m, Next(m, env, event))
    ensures !Unrevoked(Next(m, env, event), id)
  {
    var n := Next(m, env, event);
    var r :| 0 <= r < |m.entries| && Ends(m, n, r) && m.entries[r].session.id == id;
    StepKeepsRecords(m, env, event);
    NextInv(m, env, event);
    NoNewRecord(m, env, event, r);
    EndedRecord(m, n, r);
  }

  /** An ID that named a session which ended names none that is not revoked. */
  lemma EndedRecord(m: Manager, n: Manager, r: nat)
    requires StoredExact(m) && StoredExact(n) && AllKept(m, n) && |n.entries| == |m.entries| && Ends(m, n, r)
    ensures !Unrevoked(n, m.entries[r].session.id)
  {
    assert Live(m, r);
    forall i | 0 <= i < |n.entries| && !n.entries[i].session.state.Revoked?
      ensures Live(m, i) && n.entries[i].session.id == m.entries[i].session.id
    {
      assert Kept(m.entries[i], n.entries[i]);
    }
  }

  /** A step that ends a session creates none. */
  lemma NoNewRecord(m: Manager, env: Env, event: Event, r: nat)
    requires Inv(m) && Enabled(m, event) && Ends(m, Next(m, env, event), r)
    ensures |Next(m, env, event).entries| == |m.entries|
  {
    if event.Open? {
      OpenOutcome(m, env, event.input, event.id, event.now);
    } else {
      OnlyOpenAdds(m, env, event);
    }
  }

  lemma SameSessionsSound(m: Manager, n: Manager, env: Env, maps: Maps)
    requires SoundMaps(m, env, maps)
    requires forall s :: s in maps.bySession ==> Unrevoked(n, s) && AccessOf(n, s) == AccessOf(m, s)
    ensures SoundMaps(n, env, maps)
  {
    forall q | q in maps.pending ensures Leads(n, env, maps.pending[q]) {
      assert Leads(m, env, maps.pending[q]) && maps.pending[q].sessionId in maps.bySession;
    }
  }

  lemma KeptSession(m: Manager, env: Env, event: Event, id: Text)
    requires Inv(m) && Enabled(m, event) && !event.Upgrade? && Unrevoked(m, id)
    requires id !in Ended(m, Next(m, env, event))
    ensures var n := Next(m, env, event); Unrevoked(n, id) && AccessOf(n, id) == AccessOf(m, id)
  {
    StepKeepsRecords(m, env, event);
    NextInv(m, env, event);
    OpenAfter(m, Next(m, env, event), id);
  }

  /** A session step at another host leaves this host's requests sound unless one of their sessions ends in it. */
  lemma SessionsElsewhere(m: Manager, env: Env, event: Event, maps: Maps)
    requires Inv(m) && Enabled(m, event) && !event.Upgrade? && SoundMaps(m, env, maps)
    ensures SoundMaps(Next(m, env, event), env, maps) <==>
      !exists s :: s in maps.bySession && s in Ended(m, Next(m, env, event))
  {
    var n := Next(m, env, event);
    if s :| s in maps.bySession && s in Ended(m, n) {
      EndedClosed(m, env, event, s);
    } else {
      forall s | s in maps.bySession ensures Unrevoked(n, s) && AccessOf(n, s) == AccessOf(m, s) {
        KeptSession(m, env, event, s);
      }
      SameSessionsSound(m, n, env, maps);
    }
  }

  // ----- approvals elsewhere

  lemma GrantIff(d: Desk, env: Env, requestId: Text, sessionId: Text, access: Access)
    ensures var after := ApproveOn(d, env, requestId, sessionId, access);
      if Grantable(d, env, requestId, sessionId, access) then
        && Upgraded(env, d.manager, after.manager, sessionId, d.pending[requestId].delta, access)
        && after == Removed(d.(manager := after.manager), d.pending[requestId])
      else after == d
  {
    if Approvable(d, requestId, sessionId, access).Some? {
      UpgradeResult(d.manager, env, sessionId, d.pending[requestId].delta, access);
    }
  }

  lemma OneSessionChanged(m: Manager, n: Manager, env: Env, maps: Maps, id: Text, access: Access)
    requires SoundMaps(m, env, maps)
    requires forall s :: s in maps.bySession ==>
      Unrevoked(n, s) && AccessOf(n, s) == if s == id then access else AccessOf(m, s)
    ensures SoundMaps(n, env, maps) <==>
      !(id in maps.bySession && LeadsElsewhere(env, maps.pending[maps.bySession[id]], access))
  {
    forall q | q in maps.pending && maps.pending[q].sessionId != id ensures Leads(n, env, maps.pending[q]) {
      assert Leads(m, env, maps.pending[q]) && maps.pending[q].sessionId in maps.bySession;
    }
    if id in maps.bySession {
      var asked := maps.pending[maps.bySession[id]];
      assert asked.sessionId == id;
      assert Leads(n, env, asked) <==> !LeadsElsewhere(env, asked, access);
    }
  }

  /** An upgrade granted at another host keeps this host's requests sound unless one of them now leads elsewhere. */
  lemma UpgradedElsewhere(m: Manager, env: Env, id: Text, delta: Delta, access: Access, n: Manager, maps: Maps)
    requires StoredExact(m) && SoundMaps(m, env, maps) && Upgraded(env, m, n, id, delta, access)
    ensures SoundMaps(n, env, maps) <==>
      !(id in maps.bySession && LeadsElsewhere(env, maps.pending[maps.bySession[id]], access))
  {
    forall s | s in maps.bySession
      ensures Unrevoked(n, s) && AccessOf(n, s) == if s == id then access else AccessOf(m, s)
    {
      UpgradedOpen(m, n, id, access, s);
    }
    OneSessionChanged(m, n, env, maps, id, access);
  }

  lemma ApprovedElsewhere(o: Office, env: Env, event: OfficeEvent, k: nat)
    requires OfficeInv(o, env) && OfficeEnabled(o, event) && Sound(o, env, k)
    requires event.At? && event.k != k && event.event.ApproveAccess?
    ensures SoundMaps(OfficeNext(o, env, event).manager, env, o.desks[k]) <==> !Overtakes(o, env, event, k)
  {
    var (requestId, s, access) := (event.event.requestId, event.event.sessionId, event.event.access);
    var d := DeskOf(o, event.k);
    GrantIff(d, env, requestId, s, access);
    if Grantable(d, env, requestId, s, access) {
      UpgradedElsewhere(o.manager, env, s, d.pending[requestId].delta, access,
        ApproveOn(d, env, requestId, s, access).manager, o.desks[k]);
    }
  }

  /** What happens at one host leaves another's maps alone. */
  lemma SameMaps(o: Office, env: Env, event: OfficeEvent, k: nat)
    requires OfficeEnabled(o, event) && (event.At? ==> event.k != k) && k < |o.desks|
    ensures k < |OfficeNext(o, env, event).desks| && OfficeNext(o, env, event).desks[k] == o.desks[k]
  {
  }

  lemma DeskSound(d: Desk, env: Env)
    ensures DeskInv(d, env) <==>
      Inv(d.manager) && Normal(d.manager, env) && SoundMaps(d.manager, env, Maps(d.pending, d.bySession))
  {
  }

  lemma OwnStep(o: Office, env: Env, e: HostEvent, k: nat)
    requires Lawful(env.host) && OfficeInv(o, env) && OfficeEnabled(o, At(k, e)) && Sound(o, env, k)
    ensures Sound(OfficeNext(o, env, At(k, e)), env, k)
  {
    var d := DeskOf(o, k);
    DeskSound(d, env);
    HostNextInv(d, env, e);
    DeskSound(HostNext(d, env, e), env);
    assert OfficeNext(o, env, At(k, e)) == WithDesk(o, k, HostNext(d, env, e));
  }

  lemma ElsewhereStep(o: Office, env: Env, event: OfficeEvent, k: nat)
    requires OfficeInv(o, env) && OfficeEnabled(o, event) && Sound(o, env, k) && event.At? && event.k != k
    ensures SoundMaps(OfficeNext(o, env, event).manager, env, o.desks[k]) <==>
      !Strands(o, env, event, k) && !Overtakes(o, env, event, k)
  {
    match event.event {
      case Sessions(step) =>
        SessionsElsewhere(o.manager, env, step, o.desks[k]);
        assert OfficeNext(o, env, event).manager == Next(o.manager, env, step);
      case RequestAccess(_, _, _, _, _) => DeskStepAccess(DeskOf(o, event.k), env, event.event);
      case DeclineAccess(_, _) => DeskStepAccess(DeskOf(o, event.k), env, event.event);
      case ApproveAccess(_, _, _) => ApprovedElsewhere(o, env, event, k);
    }
  }

  lemma SoundStep(o: Office, env: Env, event: OfficeEvent, k: nat)
    requires Lawful(env.host) && OfficeInv(o, env) && OfficeEnabled(o, event) && Sound(o, env, k)
    ensures Sound(OfficeNext(o, env, event), env, k) <==> !Strands(o, env, event, k) && !Overtakes(o, env, event, k)
  {
    if event.At? && event.k == k {
      OwnStep(o, env, event.event, k);
    } else {
      SameMaps(o, env, event, k);
      if event.At? {
        ElsewhereStep(o, env, event, k);
      }
    }
  }

  /** In every state of the run all requests of this host are sound. */
  ghost predicate StaysSound(o: Office, env: Env, trace: seq<OfficeEvent>, k: nat)
    requires OfficeLegal(o, env, trace)
    decreases |trace|
  {
    Sound(o, env, k) && (trace != [] ==> StaysSound(OfficeNext(o, env, trace[0]), env, trace[1..], k))
  }

  /** No step of the run strands or overtakes a request of this host. */
  predicate Undisturbed(o: Office, env: Env, trace: seq<OfficeEvent>, k: nat)
    requires OfficeLegal(o, env, trace) && k < |o.desks|
    decreases |trace|
  {
    trace != [] ==>
      && !Strands(o, env, trace[0], k) && !Overtakes(o, env, trace[0], k)
      && (k < |OfficeNext(o, env, trace[0]).desks| && Undisturbed(OfficeNext(o, env, trace[0]), env, trace[1..], k))
  }

  lemma {:induction false} SoundRun(o: Office, env: Env, trace: seq<OfficeEvent>, k: nat)
    requires Lawful(env.host) && OfficeInv(o, env) && OfficeLegal(o, env, trace) && Sound(o, env, k)
    ensures StaysSound(o, env, trace, k) <==> Undisturbed(o, env, trace, k)
    decreases |trace|
  {
    if trace != [] {
      SoundStep(o, env, trace[0], k);
      OfficeNextInv(o, env, trace[0]);
      if Sound(OfficeNext(o, env, trace[0]), env, k) {
        SoundRun(OfficeNext(o, env, trace[0]), env, trace[1..], k);
      }
    }
  }

  /**
   * From any reachable state in which a host has no request, all its requests name live sessions and still lead to
   * what they ask for, in every state of a run, if and only if no session with a request there ends while another
   * host listens and no other host grants such a session an upgrade from which the request leads elsewhere.
   */
  lemma RequestsStaySoundIff(o: Office, env: Env, before: seq<OfficeEvent>, during: seq<OfficeEvent>, k: nat)
    requires Lawful(env.host) && Opening(o, env) && OfficeLegal(o, env, before)
    requires OfficeLegal(OfficeRun(o, env, before), env, during)
    requires k < |OfficeRun(o, env, before).desks| && OfficeRun(o, env, before).desks[k] == NO_REQUESTS
    ensures StaysSound(OfficeRun(o, env, before), env, during, k) <==>
      Undisturbed(OfficeRun(o, env, before), env, during, k)
  {
    OfficeRunInv(o, env, before);
    SoundRun(OfficeRun(o, env, before), env, during, k);
  }

  // ----- a host that nobody takes over

  /** Nothing in the run happens at another host, and no other host takes over. */
  predicate Alone(trace: seq<OfficeEvent>, k: nat) {
    forall i :: 0 <= i < |trace| ==> trace[i].k == k
  }

  lemma {:induction false} AloneUndisturbed(o: Office, env: Env, trace: seq<OfficeEvent>, k: nat)
    requires OfficeLegal(o, env, trace) && k < |o.desks| && Alone(trace, k)
    ensures Undisturbed(o, env, trace, k)
    decreases |trace|
  {
    if trace != [] {
      assert trace[0].k == k;
      forall i | 0 <= i < |trace[1..]| ensures trace[1..][i].k == k {
        assert trace[1..][i] == trace[i + 1];
      }
      AloneUndisturbed(OfficeNext(o, env, trace[0]), env, trace[1..], k);
    }
  }

  lemma {:induction false} SoundAtEnd(o: Office, env: Env, trace: seq<OfficeEvent>, k: nat)
    requires OfficeLegal(o, env, trace) && StaysSound(o, env, trace, k)
    ensures Sound(OfficeRun(o, env, trace), env, k)
    decreases |trace|
  {
    if trace != [] {
      SoundAtEnd(OfficeNext(o, env, trace[0]), env, trace[1..], k);
    }
  }

  // ----- approvals

  lemma PutBack(o: Office, k: nat)
    requires k < |o.desks|
    ensures WithDesk(o, k, DeskOf(o, k)) == o
  {
    assert o.desks[k := Maps(o.desks[k].pending, o.desks[k].bySession)] == o.desks;
  }

  lemma ApprovalStep(o: Office, env: Env, k: nat, requestId: Text, sessionId: Text, access: Access)
    requires k < |o.desks| && Paired(o.desks[k].pending, o.desks[k].bySession)
    ensures var n := OfficeNext(o, env, At(k, ApproveAccess(requestId, sessionId, access)));
      if Grantable(DeskOf(o, k), env, requestId, sessionId, access) then
        && Upgraded(env, o.manager, n.manager, sessionId, o.desks[k].pending[requestId].delta, access)
        && n.desks == o.desks[k := Maps(o.desks[k].pending - {requestId}, o.desks[k].bySession - {sessionId})]
        && n.listener == o.listener
      else n == o
  {
    var d := DeskOf(o, k);
    GrantIff(d, env, requestId, sessionId, access);
    PutBack(o, k);
    assert OfficeNext(o, env, At(k, ApproveAccess(requestId, sessionId, access))) ==
      WithDesk(o, k, ApproveOn(d, env, requestId, sessionId, access));
  }

  /**
   * After any run, handovers included, an approval at any host is granted exactly when it fits a pending request of an
   * active session whose present access the request still leads to what it asked for. Then the session's access becomes
   * that value, the request is used up and no other host's maps change; any other approval changes nothing.
   */
  lemma ApprovalExact(
      o: Office, env: Env, trace: seq<OfficeEvent>, k: nat, requestId: Text, sessionId: Text, access: Access)
    requires Lawful(env.host) && Opening(o, env) && OfficeLegal(o, env, trace) && k < |OfficeRun(o, env, trace).desks|
    ensures var p := OfficeRun(o, env, trace);
      var n := OfficeNext(p, env, At(k, ApproveAccess(requestId, sessionId, access)));
      if Grantable(DeskOf(p, k), env, requestId, sessionId, access) then
        && Upgraded(env, p.manager, n.manager, sessionId, p.desks[k].pending[requestId].delta, access)
        && n.desks == p.desks[k := Maps(p.desks[k].pending - {requestId}, p.desks[k].bySession - {sessionId})]
        && n.listener == p.listener
      else n == p
  {
    OfficeRunInv(o, env, trace);
    ApprovalStep(OfficeRun(o, env, trace), env, k, requestId, sessionId, access);
  }

  /**
   * A host that nobody takes over: every request's session is stored and not revoked, and approving it with its own
   * session and access is granted exactly when the session is active.
   */
  lemma AloneExact(
      o: Office, env: Env, trace: seq<OfficeEvent>, requestId: Text, sessionId: Text, access: Access)
    requires Lawful(env.host) && Opening(o, env) && OfficeLegal(o, env, trace) && Alone(trace, 0)
    ensures var p := OfficeRun(o, env, trace);
      && |p.desks| > 0
      && (forall s :: s in p.desks[0].bySession ==> Unrevoked(p.manager, s))
      && (Approvable(DeskOf(p, 0), requestId, sessionId, access).Some? ==>
            Known(p.manager, sessionId)
            && (Grantable(DeskOf(p, 0), env, requestId, sessionId, access) <==>
              p.manager.entries[p.manager.stored[sessionId]].session.state.Active?))
  {
    OfficeRunInv(o, env, trace);
    AloneUndisturbed(o, env, trace, 0);
    SoundRun(o, env, trace, 0);
    SoundAtEnd(o, env, trace, 0);
    var p := OfficeRun(o, env, trace);
    var d := DeskOf(p, 0);
    if Approvable(d, requestId, sessionId, access).Some? {
      assert d.pending[requestId].sessionId in d.bySession && Leads(p.manager, env, d.pending[requestId]);
    }
  }

  // ----- access only grows

  /** In one step the access of a record stays, or at some host a pending request for its session is approved. */
  lemma StepAccess(o: Office, env: Env, event: OfficeEvent, r: nat)
    requires OfficeInv(o, env) && OfficeEnabled(o, event) && r < |o.manager.entries|
    ensures var n := OfficeNext(o, env, event).manager;
      && r < |n.entries|
      && (n.entries[r].session.access != o.manager.entries[r].session.access ==>
            event.At?
              && Through(DeskOf(o, event.k), env, event.event, o.manager.entries[r].session, n.entries[r].session))
  {
    if event.At? {
      HostStepAccess(DeskOf(o, event.k), env, event.event, r);
    }
  }

  /** How often a run changes the access of a record. */
  function Upgrades(o: Office, env: Env, trace: seq<OfficeEvent>, r: nat): nat
    requires OfficeLegal(o, env, trace)
    decreases |trace|
  {
    if trace == [] then 0
    else
      var next := OfficeNext(o, env, trace[0]);
      (if r < |o.manager.entries| && r < |next.manager.entries|
          && next.manager.entries[r].session.access != o.manager.entries[r].session.access then 1 else 0)
      + Upgrades(next, env, trace[1..], r)
  }

  lemma OfficeStepGrows(o: Office, env: Env, event: OfficeEvent, r: nat)
    requires Lawful(env.host) && OfficeInv(o, env) && OfficeEnabled(o, event) && r < |o.manager.entries|
    ensures var n := OfficeNext(o, env, event).manager;
      && r < |n.entries|
      && var a, b := o.manager.entries[r].session.access, n.entries[r].session.access;
      Admits(a, b) && (a != b ==> Weight(a) < Weight(b))
  {
    if event.At? {
      StepGrows(DeskOf(o, event.k), env, event.event, r);
    }
  }

  lemma {:induction false} RunGrows(o: Office, env: Env, trace: seq<OfficeEvent>, r: nat)
    requires Lawful(env.host) && OfficeInv(o, env) && OfficeLegal(o, env, trace) && r < |o.manager.entries|
    ensures var n := OfficeRun(o, env, trace).manager;
      && r < |n.entries|
      && var a, b := o.manager.entries[r].session.access, n.entries[r].session.access;
      Admits(a, b) && Weight(a) + Upgrades(o, env, trace, r) <= Weight(b)
    decreases |trace|
  {
    if trace != [] {
      OfficeStepGrows(o, env, trace[0], r);
      OfficeNextInv(o, env, trace[0]);
      RunGrows(OfficeNext(o, env, trace[0]), env, trace[1..], r);
    }
  }

  /**
   * However a run goes on from any point, whichever hosts there are, the tabs and URLs a session's access admits never
   * shrink, and its access changes at most 129 times.
   */
  lemma AccessOnlyGrows(o: Office, env: Env, earlier: seq<OfficeEvent>, later: seq<OfficeEvent>, r: nat)
    requires Lawful(env.host) && Opening(o, env)
    requires OfficeLegal(o, env, earlier) && OfficeLegal(OfficeRun(o, env, earlier), env, later)
    requires r < |OfficeRun(o, env, earlier).manager.entries|
    ensures var e := OfficeRun(o, env, earlier);
      var f := OfficeRun(e, env, later);
      && r < |f.manager.entries|
      && Admits(e.manager.entries[r].session.access, f.manager.entries[r].session.access)
      && Upgrades(e, env, later, r) <= 129
  {
    OfficeRunInv(o, env, earlier);
    var e := OfficeRun(o, env, earlier);
    RunGrows(e, env, later, r);
    OfficeRunInv(e, env, later);
    AccessFacts(env.host, OfficeRun(e, env, later).manager.entries[r].session.access);
  }

  // ----- a run in which a request is overtaken and then stranded

  function One(n: int): Text { [0x61 + n % 16] }

  function PlainEnv(): Env { Env(Host(t => t, t => None), t => t, One(0)) }

  function Tabs(tabIds: seq<int>): Access { Access(SelectedTabs, tabIds, []) }

  function AddTab(tab: nat): Delta { Delta(TabsKind, [tab], []) }

  /** The one session there is: its ID, principal, key and task are all the same short text. */
  predicate Single(m: Manager, access: Access, state: SessionState) {
    && |m.entries| == 1 && m.stored == map[One(0) := 0] && m.reusable == map[(One(0), One(0)) := One(0)]
    && m.entries[0].session.id == One(0) && m.entries[0].session.principal == One(0)
    && m.entries[0].session.access == access && m.entries[0].session.state == state
    && m.entries[0].relay.Some?
  }

  lemma OneTab(tab: nat)
    ensures NormalizedTabIds([tab]) == Ok([tab as int]) && NormalizedTabIds([]) == Ok([])
    ensures NormalizedDomains(PlainEnv().host, []) == Ok([])
  {
    var tabIds := [tab as int];
    assert tabIds[..0] == [] && Sorting.Dedupe(tabIds) == tabIds && Sorting.Sort(Sorting.IntLess, tabIds) == tabIds;
    assert Sorting.Dedupe<int>([]) == [] && Sorting.Sort(Sorting.IntLess, []) == [];
    assert Sorting.Dedupe<Text>([]) == [] && Sorting.Sort(Sorting.TextLess, []) == [];
  }

  lemma TwoTabs()
    ensures NormalizedTabIds([2, 1]) == Ok([1, 2])
  {
    Sorting.IntOrder();
    SortedSet(Sorting.IntLess, [2, 1]);
    Sorting.AscendingUnique(Sorting.IntLess, Sorting.Sort(Sorting.IntLess, Sorting.Dedupe([2, 1])), [1, 2]);
  }

  lemma FirstTab(tab: nat)
    ensures UpgradeSessionAccess(PlainEnv().host, Tabs([]), AddTab(tab)) == Ok(Tabs([tab]))
  {
    OneTab(tab);
    assert [] + [tab as int] == [tab as int];
  }

  lemma SecondTab()
    ensures UpgradeSessionAccess(PlainEnv().host, Tabs([2]), AddTab(1)) == Ok(Tabs([1, 2]))
  {
    OneTab(1);
    TwoTabs();
    assert [2] + [1] == [2, 1];
  }

  function Ask(): OpenInput {
    OpenInput(One(0), One(0), One(0), Cdp(), Some(SelectedTabs), [], [], None, Some(One(0)), None)
  }

  /** The session is opened and approved, and its relay is there. */
  lemma SingleReached() returns (trace: seq<Event>)
    ensures Legal(EMPTY, PlainEnv(), trace) && Single(Run(EMPTY, PlainEnv(), trace), Tabs([]), Active)
  {
    var env := PlainEnv();
    OneTab(0);
    assert Validate(env, Ask()).Ok?;
    var a, b, c := Event.Open(Ask(), One(0), 0), Approve(One(0)), StartResolved(0, Relay([], []));
    var m1 := Next(EMPTY, env, a);
    assert |m1.entries| == 1 && m1.stored == map[One(0) := 0];
    var m2 := Next(m1, env, b);
    var m3 := Next(m2, env, c);
    trace := [a, b, c];
    assert trace[1..] == [b, c] && [b, c][1..] == [c] && [c][1..] == [];
    assert Legal(m2, env, [c]) && Run(m2, env, [c]) == m3;
    assert Legal(m1, env, [b, c]) && Run(m1, env, [b, c]) == m3;
  }

  lemma Previewed(m: Manager, access: Access, state: SessionState, tab: nat, u: Access)
    requires Single(m, access, state) && state in {Active, Reconnecting}
    requires UpgradeSessionAccess(PlainEnv().host, access, AddTab(tab)) == Ok(u)
    ensures PreviewUpgrade(m, PlainEnv(), One(0), One(0), AddTab(tab)) == Ok((m.entries[0].session, u))
  {
  }

  /** The suspension that comes with a handover, and the relay that is there again. */
  lemma SuspendedAndBack(m: Manager, access: Access)
    requires Single(m, access, Active)
    ensures var n := SuspendAll(m, 0); Single(n, access, Reconnecting) && Ended(m, n) == {}
    ensures var n := SuspendAll(m, 0);
      var back := ReadySession(n, One(0)).manager;
      Single(back, access, Active) && Ended(n, back) == {}
  {
    assert Live(m, 0);
  }

  lemma UpgradedSingle(m: Manager, delta: Delta, access: Access, u: Access)
    requires Single(m, access, Active) && UpgradeSessionAccess(PlainEnv().host, access, delta) == Ok(u)
    ensures var step := ApplyUpgrade(m, PlainEnv(), One(0), delta, u);
      step.result.Ok? && Single(step.manager, u, Active)
  {
  }

  lemma EndedSingle(m: Manager, access: Access)
    requires Single(m, access, Active)
    ensures var n := RevokeSession(m, One(0), []).manager; !Unrevoked(n, One(0)) && Ended(m, n) == {One(0)}
  {
    var n := RevokeSession(m, One(0), []).manager;
    assert Ends(m, n, 0);
  }

  lemma OfficeMore(o: Office, env: Env, trace: seq<OfficeEvent>, event: OfficeEvent)
    requires OfficeLegal(o, env, trace) && OfficeEnabled(OfficeRun(o, env, trace), event)
    ensures OfficeLegal(o, env, trace + [event])
    ensures OfficeRun(o, env, trace + [event]) == OfficeNext(OfficeRun(o, env, trace), env, event)
    decreases |trace|
  {
    if trace == [] {
      assert [] + [event] == [event] && [event][1..] == [];
    } else {
      OfficeMore(OfficeNext(o, env, trace[0]), env, trace[1..], event);
      assert (trace + [event])[1..] == trace[1..] + [event];
    }
  }

  function Asking(k: nat, tab: nat, id: Text): OfficeEvent {
    At(k, RequestAccess(true, One(0), One(0), AddTab(tab), id))
  }

  function AskedFor(tab: nat, id: Text): Maps {
    Maps(map[id := AccessRequest(id, One(0), AddTab(tab), Tabs([tab]))], map[One(0) := id])
  }

  /** A first request at a host without requests. */
  lemma AskedAt(o: Office, k: nat, tab: nat, id: Text)
    requires Single(o.manager, Tabs([]), Active) && k < |o.desks| && o.desks[k] == NO_REQUESTS && k == o.listener
    requires id != []
    ensures OfficeEnabled(o, Asking(k, tab, id))
    ensures OfficeNext(o, PlainEnv(), Asking(k, tab, id)) == o.(desks := o.desks[k := AskedFor(tab, id)])
  {
    FirstTab(tab);
    Previewed(o.manager, Tabs([]), Active, tab, Tabs([tab]));
  }

  lemma OpeningReached() returns (o: Office)
    ensures Opening(o, PlainEnv()) && Single(o.manager, Tabs([]), Active)
  {
    var before := SingleReached();
    var m := Run(EMPTY, PlainEnv(), before);
    Reached(PlainEnv(), before);
    OneTab(0);
    assert IsSessionAccess(PlainEnv().host, Tabs([]));
    o := Office(m, [NO_REQUESTS], 0);
  }

  /** The host asks for tab 1, and another takes over. */
  lemma AskedThenTakenOver() returns (o: Office, trace: seq<OfficeEvent>)
    ensures Opening(o, PlainEnv()) && OfficeLegal(o, PlainEnv(), trace)
    ensures var p := OfficeRun(o, PlainEnv(), trace);
      Single(p.manager, Tabs([]), Active) && p.listener == 1 && p.desks == [AskedFor(1, One(1)), NO_REQUESTS]
  {
    var env := PlainEnv();
    o := OpeningReached();
    AskedAt(o, 0, 1, One(1));
    OfficeMore(o, env, [], Asking(0, 1, One(1)));
    trace := [] + [Asking(0, 1, One(1))];
    OfficeMore(o, env, trace, TakeOver(1));
    trace := trace + [TakeOver(1)];
  }

  /** Then the session is suspended and resumed, and the second host asks for tab 2. */
  lemma BothAsked() returns (o: Office, trace: seq<OfficeEvent>)
    ensures Opening(o, PlainEnv()) && OfficeLegal(o, PlainEnv(), trace)
    ensures var p := OfficeRun(o, PlainEnv(), trace);
      Single(p.manager, Tabs([]), Active) && p.listener == 1 && p.desks == [AskedFor(1, One(1)), AskedFor(2, One(2))]
  {
    o, trace := AskedThenTakenOver();
    trace := Resumed(o, trace, OfficeRun(o, PlainEnv(), trace));
    AskedAt(OfficeRun(o, PlainEnv(), trace), 1, 2, One(2));
    OfficeMore(o, PlainEnv(), trace, Asking(1, 2, One(2)));
    trace := trace + [Asking(1, 2, One(2))];
  }

  lemma Resumed(o: Office, trace: seq<OfficeEvent>, p: Office) returns (longer: seq<OfficeEvent>)
    requires OfficeLegal(o, PlainEnv(), trace) && p == OfficeRun(o, PlainEnv(), trace)
    requires Single(p.manager, Tabs([]), Active) && p.desks == [AskedFor(1, One(1)), NO_REQUESTS] && p.listener == 1
    ensures OfficeLegal(o, PlainEnv(), longer)
    ensures var q := OfficeRun(o, PlainEnv(), longer);
      Single(q.manager, Tabs([]), Active) && q.desks == p.desks && q.listener == 1
  {
    var env := PlainEnv();
    var suspend, ready := At(1, Sessions(Suspend(0))), At(1, Sessions(RelayReady(One(0))));
    SuspendedAndBack(p.manager, Tabs([]));
    OfficeMore(o, env, trace, suspend);
    longer := trace + [suspend];
    var q := OfficeRun(o, env, longer);
    NothingDropped(p, Suspend(0), 1);
    OfficeMore(o, env, longer, ready);
    longer := longer + [ready];
    NothingDropped(q, RelayReady(One(0)), 1);
  }

  lemma NothingDropped(o: Office, event: Event, k: nat)
    requires k < |o.desks| && k == o.listener && Enabled(o.manager, event) && !event.Upgrade?
    requires Ended(o.manager, Next(o.manager, PlainEnv(), event)) == {}
    ensures OfficeNext(o, PlainEnv(), At(k, Sessions(event))) == o.(manager := Next(o.manager, PlainEnv(), event))
  {
    var n := Next(o.manager, PlainEnv(), event);
    var d := DeskOf(o, k);
    assert (set s | s in Ended(o.manager, n) && s in d.bySession :: d.bySession[s]) == {};
    assert d.pending - {} == d.pending && d.bySession - {} == d.bySession;
    PutBack(o.(manager := n), k);
  }

  /**
   * It happens. After a handover the second host grants its request for tab 2: from there the first host's request for
   * tab 1 leads to both tabs, so approving it is refused although the session is active. Then the session ends, and
   * the first host's request names a session that is gone.
   */
  lemma RequestOvertakenAndStranded() returns (o: Office, trace: seq<OfficeEvent>)
    ensures Opening(o, PlainEnv()) && OfficeLegal(o, PlainEnv(), trace)
    ensures var p := OfficeRun(o, PlainEnv(), trace);
      var approval := ApproveAccess(One(1), One(0), Tabs([1]));
      var revoked := At(1, Sessions(Revoke(One(0), [])));
      && Single(p.manager, Tabs([2]), Active) && |p.desks| == 2 && p.listener == 1
      && Approvable(DeskOf(p, 0), One(1), One(0), Tabs([1])).Some? && OfficeNext(p, PlainEnv(), At(0, approval)) == p
      && var q := OfficeNext(p, PlainEnv(), revoked);
      && |q.desks| == 2 && One(1) in q.desks[0].pending && q.desks[0].pending[One(1)].sessionId == One(0)
      && !Unrevoked(q.manager, One(0))
  {
    o, trace := BothAsked();
    var granted := At(1, ApproveAccess(One(2), One(0), Tabs([2])));
    GrantedTwo(OfficeRun(o, PlainEnv(), trace));
    OfficeMore(o, PlainEnv(), trace, granted);
    trace := trace + [granted];
    RefusedOne(OfficeRun(o, PlainEnv(), trace));
    StrandedOne(OfficeRun(o, PlainEnv(), trace));
  }

  lemma StrandedOne(o: Office)
    requires Single(o.manager, Tabs([2]), Active) && o.listener == 1 && o.desks == [AskedFor(1, One(1)), NO_REQUESTS]
    ensures var n := OfficeNext(o, PlainEnv(), At(1, Sessions(Revoke(One(0), []))));
      |n.desks| == 2 && n.desks[0] == AskedFor(1, One(1)) && !Unrevoked(n.manager, One(0))
  {
    EndedSingle(o.manager, Tabs([2]));
  }

  lemma GrantedTwo(o: Office)
    requires Single(o.manager, Tabs([]), Active) && o.listener == 1
    requires o.desks == [AskedFor(1, One(1)), AskedFor(2, One(2))]
    ensures var n := OfficeNext(o, PlainEnv(), At(1, ApproveAccess(One(2), One(0), Tabs([2]))));
      Single(n.manager, Tabs([2]), Active) && n.listener == 1 && n.desks == [AskedFor(1, One(1)), NO_REQUESTS]
  {
    FirstTab(2);
    UpgradedSingle(o.manager, AddTab(2), Tabs([]), Tabs([2]));
    ApprovalStep(o, PlainEnv(), 1, One(2), One(0), Tabs([2]));
  }

  lemma RefusedOne(o: Office)
    requires Single(o.manager, Tabs([2]), Active) && o.listener == 1 && o.desks == [AskedFor(1, One(1)), NO_REQUESTS]
    ensures OfficeNext(o, PlainEnv(), At(0, ApproveAccess(One(1), One(0), Tabs([1])))) == o
  {
    SecondTab();
    ApprovalStep(o, PlainEnv(), 0, One(1), One(0), Tabs([1]));
  }
}
