/** The host's two maps of pending access requests, updated in place beside the session manager. */
module AccessDesks {
  import opened Bytes
  import opened Results
  import opened SessionAccess
  import opened TaskSessions
  import opened TaskSessionManagers
  import opened AccessHost

  class AccessDesk {
    const sessions: TaskSessionManager
    var pending: map<Text, AccessRequest>
    var bySession: map<Text, Text>

    ghost function View(): Desk reads this, sessions { Desk(sessions.View(), pending, bySession) }

    ghost predicate Valid() reads this, sessions {
      sessions.Valid() && forall s :: s in bySession ==> bySession[s] != []
    }

    constructor (sessions: TaskSessionManager)
      requires sessions.Valid()
      ensures Valid() && this.sessions == sessions && View() == Desk(sessions.View(), map[], map[])
    {
      this.sessions := sessions;
      pending, bySession := map[], map[];
    }

    method RequestAccess(env: Env, trusted: bool, principal: Text, key: Text, delta: Delta, requestId: Text)
      returns (result: Outcome<AccessRequest, SessionError>)
      requires Valid() && requestId != []
      modifies this
      ensures Valid()
      ensures View() == RequestOn(old(View()), env, trusted, principal, key, delta, requestId).0
      ensures result == RequestOn(old(View()), env, trusted, principal, key, delta, requestId).1
    {
      if !trusted {
        return Err(InvalidSession);
      }
      var preview :=
        PreviewUpgrade(Manager(sessions.entries, sessions.stored, sessions.reusable), env, principal, key, delta);
      if preview.Err? {
        return Err(preview.error);
      }
      var (session, access) := preview.value;
      if session.id in bySession {
        return Err(SessionConflict);
      }
      var request := AccessRequest(requestId, session.id, delta, access);
      pending := pending[requestId := request];
      bySession := bySession[session.id := requestId];
      return Ok(request);
    }

    /** The approval handler; a refused upgrade throws before either map is touched. */
    method ApproveAccess(env: Env, requestId: Text, sessionId: Text, access: Access)
      requires Valid()
      modifies this, sessions
      ensures Valid() && View() == ApproveOn(old(View()), env, requestId, sessionId, access)
    {
      if requestId !in pending {
        return;
      }
      var request := pending[requestId];
      if request.sessionId != sessionId || request.requested != access {
        return;
      }
      var upgraded := sessions.ApplyAccessUpgrade(env, request.sessionId, request.delta, request.requested);
      if upgraded.Err? {
        RefusedUpgrade(old(sessions.View()), env, request);
        return;
      }
      pending := pending - {request.id};
      bySession := bySession - {request.sessionId};
    }

    method DeclineAccess(requestId: Text, sessionId: Text)
      requires Valid()
      modifies this
      ensures Valid() && View() == DeclineOn(old(View()), requestId, sessionId)
    {
      if requestId !in pending || pending[requestId].sessionId != sessionId {
        return;
      }
      var request := pending[requestId];
      pending := pending - {request.id};
      bySession := bySession - {request.sessionId};
    }

    /** The listener's `revoked` branch. */
    method OnRevoked(sessionId: Text)
      requires Valid()
      modifies this
      ensures Valid() && View() == Dropped(old(View()), {sessionId})
    {
      if sessionId in bySession && bySession[sessionId] != [] {
        var requestId := bySession[sessionId];
        bySession := bySession - {sessionId};
        pending := pending - {requestId};
      }
      assert bySession == old(bySession) - {sessionId};
      assert pending == old(pending) - (set s | s in {sessionId} && s in old(bySession) :: old(bySession)[s]);
    }
  }

  lemma RefusedUpgrade(m: Manager, env: Env, request: AccessRequest)
    requires ApplyUpgrade(m, env, request.sessionId, request.delta, request.requested).result.Err?
    ensures ApplyUpgrade(m, env, request.sessionId, request.delta, request.requested).manager == m
  {
  }

  /** Hearing of ended sessions one after another drops what hearing of all of them at once drops. */
  lemma DroppedOneByOne(d: Desk, one: Text, others: set<Text>)
    ensures Dropped(Dropped(d, {one}), others) == Dropped(d, {one} + others)
  {
    var a, b := Dropped(Dropped(d, {one}), others), Dropped(d, {one} + others);
    assert a.bySession == b.bySession;
    forall q ensures q in a.pending <==> q in b.pending {
      if q in d.pending && q !in b.pending {
        var s :| s in {one} + others && s in d.bySession && d.bySession[s] == q;
        assert s != one ==> s in d.bySession - {one};
      }
    }
    assert a.pending == b.pending;
  }
}
