/**
 * What asking for access, answering a request and the end of a session do to a host's maps in every run with handovers,
 * and what the host answers, told by the sessions that bear a name and by the maps themselves.
 */
module AccessEffects {
  import opened Bytes
  import opened Results
  import opened SessionAccess
  import opened TaskSessions
  import TaskSessionRuns
  import opened AccessHost
  import opened AccessHandover
  import Effects = TaskSessionEffects

  // ----- requests

  /** Whether the name is allowed and a lookup finds session r by it. */
  predicate Meant(m: Manager, env: Env, principal: Text, key: Text, r: nat) {
    Effects.Nameable(env, principal, key) && Effects.Found(m, r, env.trim(principal), key)
  }

  /** The answer about this session: a request for what the delta leads to, or why there is none. */
  function Answer(d: Desk, env: Env, s: Session, delta: Delta, requestId: Text): Outcome<AccessRequest, SessionError> {
    if s.state.Pending? then Err(NotFound)
    else
      match UpgradeSessionAccess(env.host, s.access, delta)
      case Err(_) => Err(InvalidSession)
      case Ok(access) =>
        if s.id in d.bySession then Err(SessionConflict) else Ok(AccessRequest(requestId, s.id, delta, access))
  }

  /** The request is in both maps, and nothing else changed. */
  predicate Entered(d: Desk, n: Desk, request: AccessRequest) {
    n == Desk(d.manager, d.pending[request.id := request], d.bySession[request.sessionId := request.id])
  }

  lemma PreviewOf(m: Manager, env: Env, principal: Text, key: Text, delta: Delta, r: nat)
    requires TaskSessionRuns.Inv(m) && Meant(m, env, principal, key, r)
    ensures var s := m.entries[r].session;
      PreviewUpgrade(m, env, principal, key, delta) ==
        if s.state.Pending? then Err(NotFound)
        else if UpgradeSessionAccess(env.host, s.access, delta).Err? then Err(InvalidSession)
        else Ok((s, UpgradeSessionAccess(env.host, s.access, delta).value))
  {
    Effects.NamedWorking(m, env, principal, key, r);
  }

  lemma RequestAnswered(d: Desk, env: Env, principal: Text, key: Text, delta: Delta, id: Text, r: nat)
    requires TaskSessionRuns.Inv(d.manager) && Meant(d.manager, env, principal, key, r)
    ensures var (n, answer) := RequestOn(d, env, true, principal, key, delta, id);
      && answer == Answer(d, env, d.manager.entries[r].session, delta, id)
      && if answer.Ok? then Entered(d, n, answer.value) else n == d
  {
    PreviewOf(d.manager, env, principal, key, delta, r);
  }

  lemma RequestUnanswered(d: Desk, env: Env, principal: Text, key: Text, delta: Delta, id: Text)
    requires TaskSessionRuns.Inv(d.manager)
    requires !exists r: nat :: Meant(d.manager, env, principal, key, r)
    ensures RequestOn(d, env, true, principal, key, delta, id) ==
      (d, Err(if Effects.Nameable(env, principal, key) then NotFound else InvalidSession))
  {
    assert forall r: nat :: Effects.Nameable(env, principal, key) ==>
      !Effects.Found(d.manager, r, env.trim(principal), key) by {
      forall r: nat | Effects.Nameable(env, principal, key)
        ensures !Effects.Found(d.manager, r, env.trim(principal), key)
      {
        assert !Meant(d.manager, env, principal, key, r);
      }
    }
    Effects.NoneWorking(d.manager, env, principal, key);
  }

  /**
   * Over every run with handovers: a trusted caller that asks for the session bearing a name gets a request exactly if
   * that session works, the delta leads somewhere and no request of it is pending, and then both maps have it. In every
   * other case the maps stay as they are.
   */
  lemma RequestEffect(o: Office, env: Env, trace: seq<OfficeEvent>, k: nat, trusted: bool, principal: Text, key: Text,
      delta: Delta, id: Text)
    requires Lawful(env.host) && Opening(o, env) && OfficeLegal(o, env, trace) && k < |OfficeRun(o, env, trace).desks|
    ensures var d := DeskOf(OfficeRun(o, env, trace), k);
      var (n, answer) := RequestOn(d, env, trusted, principal, key, delta, id);
      && (!trusted ==> n == d && answer == Err(InvalidSession))
      && (forall r: nat :: trusted && Meant(d.manager, env, principal, key, r) ==>
            && answer == Answer(d, env, d.manager.entries[r].session, delta, id)
            && if answer.Ok? then Entered(d, n, answer.value) else n == d)
      && ((exists r: nat :: Meant(d.manager, env, principal, key, r)) || !trusted ||
            (n == d && answer == Err(if Effects.Nameable(env, principal, key) then NotFound else InvalidSession)))
  {
    OfficeRunInv(o, env, trace);
    var d := DeskOf(OfficeRun(o, env, trace), k);
    if trusted {
      forall r: nat | Meant(d.manager, env, principal, key, r)
        ensures var (n, answer) := RequestOn(d, env, true, principal, key, delta, id);
          && answer == Answer(d, env, d.manager.entries[r].session, delta, id)
          && if answer.Ok? then Entered(d, n, answer.value) else n == d
      {
        RequestAnswered(d, env, principal, key, delta, id, r);
      }
      if !exists r: nat :: Meant(d.manager, env, principal, key, r) {
        RequestUnanswered(d, env, principal, key, delta, id);
      }
    }
  }

  // ----- answers of the browser

  /** The request is in neither map, and nothing else changed there. */
  predicate TakenOut(d: Desk, n: Desk, requestId: Text, sessionId: Text) {
    && n.pending == (map q | q in d.pending && q != requestId :: d.pending[q])
    && n.bySession == (map s | s in d.bySession && s != sessionId :: d.bySession[s])
  }

  /** A pending request of an active session, asked for this access, to which its delta still leads. */
  predicate Grants(d: Desk, env: Env, requestId: Text, sessionId: Text, access: Access) {
    && requestId in d.pending && d.pending[requestId].sessionId == sessionId && d.pending[requestId].requested == access
    && Known(d.manager, sessionId)
    && var s := d.manager.entries[d.manager.stored[sessionId]].session;
       s.state.Active? && UpgradeSessionAccess(env.host, s.access, d.pending[requestId].delta) == Ok(access)
  }

  /** Only this session's access is another. */
  predicate OnlyAccess(m: Manager, n: Manager, sessionId: Text, access: Access)
    requires Known(m, sessionId)
  {
    var e := m.entries[m.stored[sessionId]];
    && n.stored == m.stored && n.reusable == m.reusable
    && n.entries == m.entries[m.stored[sessionId] := e.(session := e.session.(access := access))]
  }

  lemma Without<T>(m: map<Text, T>, x: Text)
    ensures m - {x} == map y | y in m && y != x :: m[y]
  {
  }

  /**
   * Over every run with handovers: an approval sets the session's access and uses the request up exactly if it grants
   * one; a refusal takes out the request it names, with its session. All others change nothing.
   */
  lemma AnswerEffect(o: Office, env: Env, trace: seq<OfficeEvent>, k: nat, requestId: Text, sessionId: Text,
      access: Access)
    requires Lawful(env.host) && Opening(o, env) && OfficeLegal(o, env, trace) && k < |OfficeRun(o, env, trace).desks|
    ensures var d := DeskOf(OfficeRun(o, env, trace), k);
      var n := ApproveOn(d, env, requestId, sessionId, access);
      if Grants(d, env, requestId, sessionId, access) then
        TakenOut(d, n, requestId, sessionId) && OnlyAccess(d.manager, n.manager, sessionId, access)
      else n == d
    ensures var d := DeskOf(OfficeRun(o, env, trace), k);
      var n := DeclineOn(d, requestId, sessionId);
      if requestId in d.pending && d.pending[requestId].sessionId == sessionId then
        TakenOut(d, n, requestId, sessionId) && n.manager == d.manager
      else n == d
  {
    OfficeRunInv(o, env, trace);
    var d := DeskOf(OfficeRun(o, env, trace), k);
    assert Paired(d.pending, d.bySession);
    GrantIff(d, env, requestId, sessionId, access);
    assert Grantable(d, env, requestId, sessionId, access) <==> Grants(d, env, requestId, sessionId, access);
    Without(d.pending, requestId);
    Without(d.bySession, sessionId);
  }

  // ----- sessions that end

  /** The ID of a session that was not revoked before the step and is after it. */
  predicate EndsNow(m: Manager, n: Manager, sessionId: Text) {
    exists r :: 0 <= r < |m.entries| && r < |n.entries| && m.entries[r].session.id == sessionId
      && !m.entries[r].session.state.Revoked? && n.entries[r].session.state.Revoked?
  }

  lemma EndsNowIff(m: Manager, n: Manager, sessionId: Text)
    ensures sessionId in Ended(m, n) <==> EndsNow(m, n, sessionId)
  {
    if sessionId in Ended(m, n) {
      var r :| 0 <= r < |m.entries| && AccessHost.Ends(m, n, r) && m.entries[r].session.id == sessionId;
    }
    if EndsNow(m, n, sessionId) {
      var r :| 0 <= r < |m.entries| && r < |n.entries| && m.entries[r].session.id == sessionId
        && !m.entries[r].session.state.Revoked? && n.entries[r].session.state.Revoked?;
      assert AccessHost.Ends(m, n, r);
    }
  }

  lemma DropsThese(d: Desk, ended: set<Text>)
    requires Paired(d.pending, d.bySession)
    ensures Dropped(d, ended).pending == map q | q in d.pending && d.pending[q].sessionId !in ended :: d.pending[q]
    ensures Dropped(d, ended).bySession == map s | s in d.bySession && s !in ended :: d.bySession[s]
  {
    var n := Dropped(d, ended);
    forall q ensures q in n.pending <==> q in d.pending && d.pending[q].sessionId !in ended {
      if q in d.pending && d.pending[q].sessionId in ended {
        assert d.pending[q].sessionId in d.bySession;
      }
    }
  }

  /** Exactly the requests of sessions that did not end are left. */
  predicate LeftOver(d: Desk, next: Manager, n: Desk) {
    && n.manager == next
    && n.pending == (map q | q in d.pending && !EndsNow(d.manager, next, d.pending[q].sessionId) :: d.pending[q])
    && n.bySession == (map s | s in d.bySession && !EndsNow(d.manager, next, s) :: d.bySession[s])
  }

  lemma DropsEnded(d: Desk, next: Manager)
    requires Paired(d.pending, d.bySession)
    ensures LeftOver(d, next, Dropped(d.(manager := next), Ended(d.manager, next)))
  {
    DropsThese(d.(manager := next), Ended(d.manager, next));
    forall s ensures s in Ended(d.manager, next) <==> EndsNow(d.manager, next, s) {
      EndsNowIff(d.manager, next, s);
    }
  }

  lemma StepDrops(d: Desk, env: Env, event: Event)
    requires Paired(d.pending, d.bySession) && Enabled(d.manager, event)
    ensures LeftOver(d, Next(d.manager, env, event), SessionStep(d, env, event))
  {
    var next := Next(d.manager, env, event);
    assert SessionStep(d, env, event) == Dropped(d.(manager := next), Ended(d.manager, next));
    DropsEnded(d, next);
  }

  /** Its two maps are inverse, as at every host. */
  lemma DeskPaired(o: Office, env: Env, trace: seq<OfficeEvent>, k: nat)
    requires Lawful(env.host) && Opening(o, env) && OfficeLegal(o, env, trace) && k < |OfficeRun(o, env, trace).desks|
    ensures var d := DeskOf(OfficeRun(o, env, trace), k); Paired(d.pending, d.bySession)
  {
    OfficeRunInv(o, env, trace);
  }

  /**
   * Over every run with handovers: after a step of the sessions the host that listens has exactly the requests whose
   * session did not end in it.
   */
  lemma SessionsEffect(o: Office, env: Env, trace: seq<OfficeEvent>, k: nat, event: Event)
    requires Lawful(env.host) && Opening(o, env) && OfficeLegal(o, env, trace) && k < |OfficeRun(o, env, trace).desks|
    requires Enabled(OfficeRun(o, env, trace).manager, event)
    ensures var d := DeskOf(OfficeRun(o, env, trace), k);
      LeftOver(d, Next(d.manager, env, event), SessionStep(d, env, event))
  {
    DeskPaired(o, env, trace, k);
    StepDrops(DeskOf(OfficeRun(o, env, trace), k), env, event);
  }

  /** What happens at one host leaves the others' maps alone; a run that takes over listens, with maps of its own. */
  lemma OfficeEffect(o: Office, env: Env, event: OfficeEvent)
    requires OfficeEnabled(o, event)
    ensures var n := OfficeNext(o, env, event);
      match event
      case TakeOver(k) =>
        n.manager == o.manager && n.listener == k
        && n.desks == if k == |o.desks| then o.desks + [Maps(map[], map[])] else o.desks
      case At(k, e) =>
        && n.listener == o.listener && |n.desks| == |o.desks|
        && DeskOf(n, k) == HostNext(DeskOf(o, k), env, e)
        && forall j :: 0 <= j < |o.desks| && j != k ==> n.desks[j] == o.desks[j]
  {
  }
}
