/**
 * The task session manager as the source writes it: maps and records updated in place. Every method leaves exactly
 * the state, and returns exactly the result, that the transition of the same name gives.
 */
module TaskSessionManagers {
  import opened Bytes
  import opened Results
  import opened Sorting
  import opened SessionAccess
  import opened TaskSessions
  import TaskSessionRuns

  /** Each stored ID names a record with that ID. */
  ghost predicate Indexed(m: Manager) {
    forall id :: id in m.stored ==> m.stored[id] < |m.entries| && m.entries[m.stored[id]].session.id == id
  }

  class TaskSessionManager {
    /** Every record ever created, in creation order; the closures of the source hold records by their place here. */
    var entries: seq<Entry>
    var stored: map<Text, nat>
    var reusable: map<(Text, Text), Text>

    ghost function View(): Manager reads this { Manager(entries, stored, reusable) }

    ghost predicate Valid() reads this { Indexed(View()) }

    constructor ()
      ensures Valid() && View() == EMPTY
    {
      entries, stored, reusable := [], map[], map[];
    }

    /** Writing a record's fields back. */
    method Save(r: nat, e: Entry)
      requires Valid() && r < |entries| && e.session.id == entries[r].session.id
      modifies this`entries
      ensures Valid() && View() == Put(old(View()), r, e)
    {
      entries := entries[r := e];
    }

    method Open(env: Env, input: OpenInput, id: Text, now: int) returns (result: Outcome<Session, SessionError>)
      requires Valid()
      modifies this
      ensures Valid()
      ensures View() == OpenSession(old(View()), env, input, id, now).manager
      ensures result == OpenSession(old(View()), env, input, id, now).result
    {
      var validated := Validate(env, input);
      if validated.Err? {
        return Err(validated.error);
      }
      var answer := FindReusable(validated.value, input.key);
      if answer.Some? {
        return answer.value;
      }
      result := Create(validated.value, input.key, input.ttlMs, id, now);
    }

    /** The named session that is already there, or a conflict; a key left by a session that is gone is dropped. */
    method FindReusable(q: Request, key: Option<Text>) returns (answer: Option<Outcome<Session, SessionError>>)
      requires Valid()
      modifies this`reusable
      ensures answer == Reuse(Existing(old(View()), q, key), q)
      ensures reusable == if answer.Some? then old(reusable) else Cleared(old(reusable), q, key)
    {
      if key.None? {
        return None;
      }
      var k := (q.principal, key.value);
      if k in reusable {
        if reusable[k] in stored {
          var existing := entries[stored[reusable[k]]].session;
          if existing.state == Active || existing.state == Reconnecting {
            return Some(if SameAuthority(existing, q) then Ok(existing) else Err(SessionConflict));
          }
          if existing.state == Pending {
            return Some(Err(if SameAuthority(existing, q) then NotActive else SessionConflict));
          }
        }
        reusable := reusable - {k};
      }
      assert reusable == Cleared(old(reusable), q, key);
      return None;
    }

    /** A new pending record, unless its ID is taken. */
    method Create(q: Request, key: Option<Text>, ttlMs: Option<int>, id: Text, now: int)
      returns (result: Outcome<Session, SessionError>)
      requires Valid()
      modifies this
      ensures Valid()
      ensures result == if id in old(stored) then Err(InvalidSession) else Ok(NewSession(q, id, now, ttlMs))
      ensures View() ==
        if id in old(stored) then old(View()) else Added(old(View()), q, key, NewSession(q, id, now, ttlMs))
    {
      var session := Session(id, q.principal, q.controllerName, q.taskLabel, Cdp(), q.access, now,
        if ttlMs.Some? then Some(now + ttlMs.value) else None, Pending, q.route);
      if id in stored {
        return Err(InvalidSession);
      }
      var e := Entry(session, key, None, NotStarted, false, ttlMs.Some?, None, NotRevoking, []);
      e := Noted(e, Emitted(PendingNotice));
      stored := stored[id := |entries|];
      entries := entries + [e];
      if key.Some? {
        reusable := reusable[(q.principal, key.value) := id];
      }
      assert e == Opened(session, key);
      return Ok(session);
    }

    /** The synchronous part of an approval: the relay is asked for, and the continuation waits. */
    method Approve(id: Text) returns (result: Outcome<bool, SessionError>)
      requires Valid()
      modifies this`entries
      ensures Valid()
      ensures View() == ApproveSession(old(View()), id).manager
      ensures result == ApproveSession(old(View()), id).result
    {
      if id !in stored {
        return Err(NotFound);
      }
      var r := stored[id];
      var e := entries[r];
      if e.session.state != Pending {
        return if e.start != NotStarted then Ok(false) else Err(NotPending);
      }
      e := e.(session := e.session.(state := Active));
      e := Noted(e.(start := Starting), RelayStarted);
      Save(r, e);
      return Ok(true);
    }

    /** The approval's continuation once the relay is there. */
    method OnRelayStarted(r: nat, relay: Relay)
      requires Valid() && Enabled(View(), StartResolved(r, relay))
      modifies this`entries
      ensures Valid() && View() == RelayResolved(old(View()), r, relay)
    {
      var e := entries[r];
      if e.session.state == Revoked {
        e := Noted(e.(start := LateClosing), RelayClosed);
      } else {
        e := e.(start := Resolved, relay := Some(relay));
      }
      Save(r, e);
    }

    /** The approval's catch block: after a rejected start, or after the late relay has been closed. */
    method OnStartFailed(r: nat, start: Start)
      requires Valid() && r < |entries|
      modifies this
      ensures Valid() && View() == StartFailed(old(View()), r, start)
    {
      var e := entries[r];
      Save(r, e.(start := start));
      var _ := Revoke(e.session.id, Ascii("relayStartFailed"));
    }

    method RelayReady(id: Text) returns (result: Outcome<Session, SessionError>)
      requires Valid()
      modifies this`entries
      ensures Valid()
      ensures View() == ReadySession(old(View()), id).manager
      ensures result == ReadySession(old(View()), id).result
    {
      if id !in stored {
        return Err(NotFound);
      }
      var r := stored[id];
      var e := entries[r];
      if (e.session.state != Active && e.session.state != Reconnecting) || e.relay.None? {
        return Err(NotActive);
      }
      var resumed := e.session.state == Reconnecting;
      var told := Emitted(ActiveNotice(e.relay.value.cdpUrl));
      e := e.(recoveryAt := None);
      if resumed {
        e := e.(session := e.session.(state := Active));
      }
      if !e.ready {
        e := Noted(e.(ready := true), told);
      } else if resumed {
        e := Noted(e, told);
      }
      Save(r, e);
      return Ok(e.session);
    }

    method RelayFailed(id: Text, reason: Text, now: int) returns (result: Answer)
      requires Valid()
      modifies this
      ensures Valid()
      ensures View() == FailRelay(old(View()), id, reason, now).manager
      ensures result == FailRelay(old(View()), id, reason, now).result
    {
      if id !in stored {
        return Settled(Err(NotFound));
      }
      if entries[stored[id]].ready {
        var recovering := BeginRecovery(stored[id], now);
        if recovering.Some? {
          return Settled(Ok(recovering.value));
        }
        assert entries == old(entries);
      }
      result := Revoke(id, reason);
    }

    method BeginRecovery(r: nat, now: int) returns (session: Option<Session>)
      requires Valid() && r < |entries|
      modifies this`entries
      ensures Valid() && View() == Put(old(View()), r, Recovering(old(entries)[r], now))
      ensures session ==
        if old(entries)[r].session.state in {Active, Reconnecting} then Some(entries[r].session) else None
    {
      var e := entries[r];
      assert entries[r := e] == entries;
      if e.session.state == Reconnecting {
        return Some(e.session);
      }
      if e.session.state != Active {
        return None;
      }
      e := e.(session := e.session.(state := Reconnecting));
      e := e.(ready := false);
      e := Noted(e.(recoveryAt := Some(now + ENDPOINT_RECOVERY_GRACE_MS)), Emitted(ReconnectingNotice));
      Save(r, e);
      return Some(e.session);
    }

    /** Every stored record is put into recovery; the returned sessions are those now reconnecting, in order. */
    method Suspend(now: int) returns (suspended: seq<Session>)
      requires Valid()
      modifies this`entries
      ensures Valid() && View() == SuspendAll(old(View()), now)
      ensures suspended == SuspendedUpTo(View(), |entries|)
    {
      suspended := [];
      var r := 0;
      ghost var m := View();
      SuspendEnds(m, now);
      while r < |entries|
        invariant 0 <= r <= |entries| == |m.entries| && Valid()
        invariant View() == SuspendedTo(m, r, now)
        invariant suspended == SuspendedUpTo(View(), r)
      {
        SuspendOne(m, r, now);
        ghost var after := SuspendedTo(m, r + 1, now);
        assert Live(View(), r) == Live(m, r) && entries[r] == m.entries[r];
        var session := None;
        if entries[r].session.id in stored && stored[entries[r].session.id] == r {
          session := BeginRecovery(r, now);
        }
        assert View() == after;
        suspended := suspended + if session.Some? then [session.value] else [];
        r := r + 1;
      }
    }

    method Revoke(id: Text, reason: Text) returns (result: Answer)
      requires Valid()
      modifies this
      ensures Valid()
      ensures View() == RevokeSession(old(View()), id, reason).manager
      ensures result == RevokeSession(old(View()), id, reason).result
    {
      if id !in stored {
        return Settled(Err(NotFound));
      }
      var r := stored[id];
      var e := entries[r];
      if e.session.state == Revoked {
        return RevokeAnswer(r, e);
      }
      ForgetReusable(r);
      e := e.(session := e.session.(state := Revoked));
      e := e.(ready := false);
      e := e.(ttlArmed := false, recoveryAt := None);
      var relay := e.relay;
      e := e.(relay := None);
      e := Noted(e, Emitted(RevokedNotice(reason)));
      if relay.Some? {
        Save(r, Noted(e.(closing := ClosingRelay), RelayClosed));
      } else {
        Save(r, e.(closing := CloseDone));
        CompactRevoked();
      }
      return RevokeAnswer(r, entries[r]);
    }

    /** The revocation's finally block, once the relay has closed, whether or not that went well. */
    method OnRelayClosed(r: nat, ok: bool)
      requires Valid() && r < |entries|
      modifies this
      ensures Valid() && View() == CloseSettled(old(View()), r, ok)
    {
      Save(r, entries[r].(closing := if ok then CloseDone else CloseFailed));
      CompactRevoked();
    }

    method ForgetReusable(r: nat)
      requires Valid() && r < |entries|
      modifies this`reusable
      ensures Valid() && reusable == Forgotten(old(reusable), entries[r])
    {
      if entries[r].key.Some? {
        var k := (entries[r].session.principal, entries[r].key.value);
        if k in reusable && reusable[k] == entries[r].session.id {
          reusable := reusable - {k};
        }
      }
    }

    method CompactRevoked()
      requires Valid()
      modifies this`stored
      ensures Valid() && View() == Compacted(old(View()))
    {
      var revoked: seq<nat> := [];
      var r := 0;
      while r < |entries|
        invariant 0 <= r <= |entries|
        invariant revoked == RevokedUpTo(View(), r)
      {
        var id := entries[r].session.id;
        if id in stored && stored[id] == r && entries[r].session.state == Revoked {
          revoked := revoked + [r];
        }
        r := r + 1;
      }
      revoked := Sort(Older(entries), revoked);
      ghost var all, m := revoked, View();
      RevokedAreLive(m);
      ghost var k := 0;
      while |revoked| > MAX_REVOKED_TASK_SESSION_TOMBSTONES
        invariant 0 <= k <= |all| && revoked == all[k..]
        invariant k == 0 || |revoked| >= MAX_REVOKED_TASK_SESSION_TOMBSTONES
        invariant stored == Without(m.stored, all[..k])
        decreases |revoked|
      {
        var oldest := revoked[0];
        revoked := revoked[1..];
        RemoveOne(m, all, k);
        stored := stored - {entries[oldest].session.id};
        k := k + 1;
      }
      assert k == Excess(m);
    }

    method RevokeNamed(env: Env, principal: Text, key: Text, reason: Text) returns (result: Answer)
      requires Valid()
      modifies this
      ensures Valid()
      ensures View() == RevokeNamedSession(old(View()), env, principal, key, reason).manager
      ensures result == RevokeNamedSession(old(View()), env, principal, key, reason).result
    {
      var named := NamedId(Manager(entries, stored, reusable), env, principal, key);
      if named.Err? {
        return Settled(Err(named.error));
      }
      var k := named.value;
      if k !in reusable || reusable[k] == [] {
        return Settled(Err(NotFound));
      }
      var id := reusable[k];
      if id !in stored || entries[stored[id]].session.state == Revoked {
        reusable := reusable - {k};
        return Settled(Err(NotFound));
      }
      result := Revoke(id, reason);
    }

    /** revokeAll and sweepExpired: each ID in turn, up to its first wait. */
    method RevokeMany(ids: seq<Text>, reason: Text)
      requires Valid()
      modifies this
      ensures Valid() && View() == RevokeEach(old(View()), ids, reason)
    {
      var i := 0;
      while i < |ids|
        invariant 0 <= i <= |ids| && Valid()
        invariant RevokeEach(View(), ids[i..], reason) == RevokeEach(old(View()), ids, reason)
      {
        assert ids[i..][1..] == ids[i + 1..];
        var _ := Revoke(ids[i], reason);
        i := i + 1;
      }
    }

    method ApplyAccessUpgrade(env: Env, id: Text, delta: Delta, expected: Access)
      returns (result: Outcome<Session, SessionError>)
      requires Valid()
      modifies this`entries
      ensures Valid()
      ensures View() == ApplyUpgrade(old(View()), env, id, delta, expected).manager
      ensures result == ApplyUpgrade(old(View()), env, id, delta, expected).result
    {
      if id !in stored {
        return Err(NotFound);
      }
      var r := stored[id];
      if entries[r].session.state != Active {
        return Err(NotActive);
      }
      var access := UpgradeSessionAccess(env.host, entries[r].session.access, delta);
      if access.Err? {
        return Err(InvalidSession);
      }
      if access.value != expected {
        return Err(SessionConflict);
      }
      Save(r, entries[r].(session := entries[r].session.(access := access.value)));
      return Ok(entries[r].session);
    }
  }

  /** The manager once the first `n` records have been visited. */
  ghost function SuspendedTo(m: Manager, n: nat, now: int): Manager
    requires n <= |m.entries|
  {
    m.(entries := SuspendAll(m, now).entries[..n] + m.entries[n..])
  }

  function SuspendedUpTo(m: Manager, n: nat): seq<Session>
    requires n <= |m.entries|
  {
    if n == 0 then [] else
    SuspendedUpTo(m, n - 1) +
      if Live(m, n - 1) && m.entries[n - 1].session.state.Reconnecting? then [m.entries[n - 1].session] else []
  }

  lemma {:induction false} SuspendedPrefix(a: Manager, b: Manager, n: nat)
    requires n <= |a.entries| == |b.entries| && a.stored == b.stored && a.entries[..n] == b.entries[..n]
    ensures SuspendedUpTo(a, n) == SuspendedUpTo(b, n)
  {
    if n > 0 {
      assert a.entries[..n][n - 1] == b.entries[..n][n - 1];
      assert a.entries[..n - 1] == a.entries[..n][..n - 1] && b.entries[..n - 1] == b.entries[..n][..n - 1];
      SuspendedPrefix(a, b, n - 1);
    }
  }

  lemma SuspendEnds(m: Manager, now: int)
    ensures SuspendedTo(m, 0, now) == m && SuspendedTo(m, |m.entries|, now) == SuspendAll(m, now)
  {
    assert SuspendedTo(m, 0, now).entries == m.entries;
    assert SuspendedTo(m, |m.entries|, now).entries == SuspendAll(m, now).entries;
  }

  /** Visiting one more record. */
  lemma SuspendOne(m: Manager, r: nat, now: int)
    requires r < |m.entries|
    ensures var before, after := SuspendedTo(m, r, now), SuspendedTo(m, r + 1, now);
      && before.entries[r] == m.entries[r] && (Live(before, r) <==> Live(m, r))
      && after == (if Live(m, r) then Put(before, r, Recovering(m.entries[r], now)) else before)
      && SuspendedUpTo(after, r) == SuspendedUpTo(before, r)
      && SuspendedUpTo(after, r + 1) == SuspendedUpTo(before, r) +
           if Live(m, r) && m.entries[r].session.state in {Active, Reconnecting} then [after.entries[r].session] else []
  {
    var before, after := SuspendedTo(m, r, now), SuspendedTo(m, r + 1, now);
    var e := if Live(m, r) then Recovering(m.entries[r], now) else m.entries[r];
    assert after.entries == before.entries[r := e];
    assert before.entries[..r] == after.entries[..r];
    SuspendedPrefix(before, after, r);
    assert after.entries[r] == e && (Live(after, r) <==> Live(m, r));
    if !Live(m, r) {
      assert before.entries[r := e] == before.entries;
    }
  }

  lemma RevokedAreLive(m: Manager)
    ensures forall i :: 0 <= i < |Tombstones(m)| ==> Live(m, Tombstones(m)[i])
    ensures Distinct(Tombstones(m))
  {
    TaskSessionRuns.TombstonesSorted(m);
    TaskSessionRuns.OlderOrder(m.entries);
    forall i | 0 <= i < |Tombstones(m)| ensures Live(m, Tombstones(m)[i]) {
      assert Tombstones(m)[i] in Tombstones(m);
    }
  }


  /** Deleting the ID of one more victim is leaving out one more victim. */
  lemma RemoveOne(m: Manager, all: seq<nat>, k: nat)
    requires k < |all| && Live(m, all[k])
    requires Indexed(m)
    ensures Without(m.stored, all[..k]) - {m.entries[all[k]].session.id} == Without(m.stored, all[..k + 1])
  {
    assert all[..k + 1] == all[..k] + [all[k]];
  }
}
