/**
 * What each call, timer and continuation does to the records and maps of a manager in any reachable state, field by
 * field: which record changes, to what, and that nothing else does.
 */
module TaskSessionEffects {
  import opened Bytes
  import opened Results
  import opened SessionAccess
  import Routes
  import opened TaskSessions
  import opened TaskSessionRuns
  import Sorting

  // ----- differences between two states

  /** Only this record may differ. */
  ghost predicate Only(m: Manager, n: Manager, r: nat) {
    && |n.entries| == |m.entries| && r < |m.entries|
    && forall i :: 0 <= i < |m.entries| && i != r ==> n.entries[i] == m.entries[i]
  }

  ghost predicate SameMaps(m: Manager, n: Manager) { n.stored == m.stored && n.reusable == m.reusable }

  /** A ready session is put into recovery: it keeps its relay, tells once, and has two minutes. */
  predicate Recovers(e: Entry, f: Entry, now: int) {
    f == Entry(e.session.(state := Reconnecting), e.key, e.relay, e.start, false, e.ttlArmed, Some(now + 120_000),
      e.closing, e.history + [Emitted(ReconnectingNotice)])
  }

  /** A session is revoked: it tells why, its timers are off, and a relay it held is closed. */
  predicate Ends(e: Entry, f: Entry, reason: Text) {
    if e.relay.Some? then
      f == Entry(e.session.(state := Revoked), e.key, None, e.start, false, false, None, ClosingRelay,
        e.history + [Emitted(RevokedNotice(reason)), RelayClosed])
    else
      f == Entry(e.session.(state := Revoked), e.key, None, e.start, false, false, None, CloseDone,
        e.history + [Emitted(RevokedNotice(reason))])
  }

  /** The key of a session that ended names nothing any more; all others are as they were. */
  predicate Unnamed(m: Manager, n: Manager, e: Entry) {
    n.reusable == if e.key.Some? then m.reusable - {(e.session.principal, e.key.value)} else m.reusable
  }

  /** Created later, or at the same time but opened later. */
  predicate Newer(entries: seq<Entry>, i: nat, r: nat)
    requires i < |entries| && r < |entries|
  {
    || entries[i].session.createdAt > entries[r].session.createdAt
    || (entries[i].session.createdAt == entries[r].session.createdAt && i > r)
  }

  /** The stored tombstones that are newer. */
  function NewerTombstones(m: Manager, r: nat): set<nat>
    requires r < |m.entries|
  {
    set i | 0 <= i < |m.entries| && Tombstone(m, i) && Newer(m.entries, i, r)
  }

  /** No ID is reassigned; exactly the tombstones with 64 newer ones are gone. */
  ghost predicate NewestKept(m: Manager, n: Manager) {
    && (forall id :: id in n.stored ==> id in m.stored && n.stored[id] == m.stored[id])
    && (forall i :: 0 <= i < |n.entries| ==>
          (Live(n, i) <==>
           Live(m.(entries := n.entries), i)
           && (n.entries[i].session.state.Revoked? ==> |NewerTombstones(m.(entries := n.entries), i)| < 64)))
  }

  /** Tombstones go unless there is a relay to be closed first. */
  ghost predicate OnlyTombstonesGo(m: Manager, n: Manager, r: nat)
    requires r < |m.entries|
  {
    if m.entries[r].relay.Some? then n.stored == m.stored else NewestKept(m, n)
  }

  ghost predicate Revokes(m: Manager, n: Manager, r: nat, reason: Text) {
    && Only(m, n, r) && Ends(m.entries[r], n.entries[r], reason)
    && Unnamed(m, n, m.entries[r]) && OnlyTombstonesGo(m, n, r)
  }

  // ----- compaction

  lemma {:induction false} SizeOfDistinct(s: seq<nat>, members: set<nat>)
    requires Sorting.Distinct(s) && forall i :: i in s <==> i in members
    ensures |s| == |members|
  {
    if s == [] {
      assert members == {};
    } else {
      assert s[0] in members && forall i :: i in s[1..] <==> i in members - {s[0]};
      SizeOfDistinct(s[1..], members - {s[0]});
    }
  }

  lemma LaterInOrder(entries: seq<Entry>, s: seq<nat>, k: nat, j: nat)
    requires Sorting.Ascending(Older(entries), s) && k < |s| && j < |s| && Older(entries)(s[k], s[j])
    ensures k < j
  {
    OlderOrder(entries);
  }

  /** In the list of tombstones by age, those behind one are the newer ones. */
  lemma BehindIsNewer(m: Manager, k: nat)
    requires k < |Tombstones(m)|
    ensures Tombstones(m)[k] < |m.entries|
    ensures |NewerTombstones(m, Tombstones(m)[k])| == |Tombstones(m)| - 1 - k
  {
    var all := Tombstones(m);
    TombstonesSorted(m);
    OlderOrder(m.entries);
    assert all[k] in all && Tombstone(m, all[k]);
    var rest := all[k + 1..];
    forall i ensures i in rest <==> i in NewerTombstones(m, all[k]) {
      if i in rest {
        var j :| 0 <= j < |rest| && rest[j] == i;
        assert all[k + 1 + j] == i && i in all && Older(m.entries)(all[k], i);
      }
      if i in NewerTombstones(m, all[k]) {
        assert i in all;
        var j :| 0 <= j < |all| && all[j] == i;
        assert Older(m.entries)(all[k], i);
        LaterInOrder(m.entries, all, k, j);
        assert rest[j - k - 1] == i;
      }
    }
    SizeOfDistinct(rest, NewerTombstones(m, all[k]));
  }

  lemma CompactsOldest(m: Manager, r: nat)
    requires r < |m.entries|
    ensures Live(Compacted(m), r) <==>
      Live(m, r) && (m.entries[r].session.state.Revoked? ==> |NewerTombstones(m, r)| < 64)
  {
    var all := Tombstones(m);
    TombstonesSorted(m);
    CompactedLive(m, r);
    if Tombstone(m, r) {
      assert r in all;
      var k :| 0 <= k < |all| && all[k] == r;
      BehindIsNewer(m, k);
      if r in all[..Excess(m)] {
        var j :| 0 <= j < Excess(m) && all[..Excess(m)][j] == r;
        assert all[j] == all[k];
        assert j == k by { OlderOrder(m.entries); }
      }
      if k < Excess(m) {
        assert all[..Excess(m)][k] == r;
      }
    } else {
      TakenAreMembers(all, Excess(m));
    }
  }

  lemma TakenAreMembers(s: seq<nat>, k: nat)
    requires k <= |s|
    ensures forall r :: r in s[..k] ==> r in s
  {
  }

  lemma CompactionKeeps(m: Manager, c: Manager)
    requires c.stored == m.stored && |c.entries| >= |m.entries|
    ensures NewestKept(m, Compacted(c))
  {
    var n := Compacted(c);
    forall i | 0 <= i < |n.entries|
      ensures Live(n, i) <==>
        Live(m.(entries := n.entries), i)
        && (n.entries[i].session.state.Revoked? ==> |NewerTombstones(m.(entries := n.entries), i)| < 64)
    {
      CompactsOldest(c, i);
      SameTombstones(c, m.(entries := n.entries), i);
    }
  }

  lemma SameTombstones(a: Manager, b: Manager, r: nat)
    requires b.entries == a.entries && b.stored == a.stored && r < |a.entries|
    ensures NewerTombstones(a, r) == NewerTombstones(b, r) && (Live(a, r) <==> Live(b, r))
  {
  }

  // ----- revoking

  lemma RevokedLiterally(e: Entry, reason: Text)
    ensures Ends(e, RevokedEntry(e, reason), reason)
  {
    var told, closed := Emitted(RevokedNotice(reason)), RelayClosed;
    assert e.history + [told] + [closed] == e.history + [told, closed];
  }

  lemma ForgottenLiterally(m: Manager, r: nat)
    requires StoredExact(m) && NamedExact(m) && r < |m.entries| && !m.entries[r].session.state.Revoked?
    ensures var e := m.entries[r];
      Forgotten(m.reusable, e) == if e.key.Some? then m.reusable - {(e.session.principal, e.key.value)} else m.reusable
  {
    var e := m.entries[r];
    if e.key.Some? {
      assert Named(e, (e.session.principal, e.key.value));
    }
  }

  lemma RevokeRecordRevokes(m: Manager, r: nat, reason: Text)
    requires Inv(m) && r < |m.entries| && !m.entries[r].session.state.Revoked?
    ensures Revokes(m, RevokeRecord(m, r, reason), r, reason)
  {
    var e, n := m.entries[r], RevokeRecord(m, r, reason);
    assert EntryOk(e);
    RevokedLiterally(e, reason);
    ForgottenLiterally(m, r);
    RevokedOk(e, reason);
    RevokeRecordInv(m, r, reason);
    if e.relay.None? {
      CompactionKeeps(m, Forgetting(m, r, reason));
    }
  }

  /** Revoking by ID: an unknown ID and a session that is revoked already change nothing. */
  ghost predicate RevokesById(m: Manager, n: Manager, id: Text, reason: Text) {
    if !Known(m, id) || m.entries[m.stored[id]].session.state.Revoked? then n == m
    else Revokes(m, n, m.stored[id], reason)
  }

  lemma RevokeById(m: Manager, id: Text, reason: Text)
    requires Inv(m)
    ensures RevokesById(m, RevokeSession(m, id, reason).manager, id, reason)
  {
    if Known(m, id) && !m.entries[m.stored[id]].session.state.Revoked? {
      RevokeRecordRevokes(m, m.stored[id], reason);
    }
  }

  lemma LiveRevoked(m: Manager, r: nat, reason: Text)
    requires Inv(m) && r < |m.entries| && !m.entries[r].session.state.Revoked?
    ensures Revokes(m, RevokeSession(m, m.entries[r].session.id, reason).manager, r, reason)
  {
    assert Live(m, r);
    RevokeById(m, m.entries[r].session.id, reason);
  }

  /** Over every run: a revocation by ID revokes exactly the session of that ID, if there is one not revoked yet. */
  lemma RevokeEffect(env: Env, trace: seq<Event>, id: Text, reason: Text)
    requires Legal(EMPTY, env, trace)
    ensures var m := Run(EMPTY, env, trace); RevokesById(m, Next(m, env, Revoke(id, reason)), id, reason)
    ensures var m := Run(EMPTY, env, trace);
      var n := Next(m, env, Revoke(id, reason));
      RevokeSession(m, id, reason).result ==
        if !Known(m, id) then Settled(Err(NotFound))
        else
          match n.entries[m.stored[id]].closing
          case ClosingRelay => AwaitsClose(m.stored[id])
          case CloseFailed => Settled(Err(RelayCloseFailed))
          case _ => Settled(Ok(n.entries[m.stored[id]].session))
  {
    Reached(env, trace);
    RevokeById(Run(EMPTY, env, trace), id, reason);
  }

  lemma TimersOfUnrevoked(m: Manager, r: nat)
    requires Inv(m) && r < |m.entries|
    ensures m.entries[r].ttlArmed || m.entries[r].recoveryAt.Some? ==> !m.entries[r].session.state.Revoked?
  {
    assert EntryOk(m.entries[r]);
  }

  lemma TtlStep(m: Manager, env: Env, r: nat)
    requires Inv(m) && Enabled(m, TtlFires(r))
    ensures Revokes(m, Next(m, env, TtlFires(r)), r, Ascii("ttlExpired"))
  {
    TimersOfUnrevoked(m, r);
    LiveRevoked(m, r, Ascii("ttlExpired"));
  }

  lemma RecoveryStep(m: Manager, env: Env, r: nat)
    requires Inv(m) && Enabled(m, RecoveryFires(r))
    ensures Revokes(m, Next(m, env, RecoveryFires(r)), r, Ascii("relayRecoveryExpired"))
  {
    TimersOfUnrevoked(m, r);
    LiveRevoked(m, r, Ascii("relayRecoveryExpired"));
  }

  /** Over every run, a timer revokes the very record that armed it, with its own reason. */
  lemma TimerEffect(env: Env, trace: seq<Event>, r: nat)
    requires Legal(EMPTY, env, trace)
    ensures var m := Run(EMPTY, env, trace);
      && (Enabled(m, TtlFires(r)) ==> Revokes(m, Next(m, env, TtlFires(r)), r, Ascii("ttlExpired")))
      && (Enabled(m, RecoveryFires(r)) ==> Revokes(m, Next(m, env, RecoveryFires(r)), r, Ascii("relayRecoveryExpired")))
  {
    Reached(env, trace);
    var m := Run(EMPTY, env, trace);
    if Enabled(m, TtlFires(r)) {
      TtlStep(m, env, r);
    }
    if Enabled(m, RecoveryFires(r)) {
      RecoveryStep(m, env, r);
    }
  }

  /** /^[A-Za-z0-9][A-Za-z0-9._:-]*$/, at most 128 characters. */
  predicate StableKey(t: Text) {
    && 0 < |t| <= 128
    && forall i :: 0 <= i < |t| ==>
         || 0x41 <= t[i] <= 0x5A || 0x61 <= t[i] <= 0x7A || 0x30 <= t[i] <= 0x39
         || (i > 0 && t[i] in {0x2E, 0x5F, 0x3A, 0x2D})
  }

  /** A session that is not revoked and has this principal and key. */
  predicate Bears(m: Manager, r: nat, principal: Text, key: Text) {
    && r < |m.entries| && !m.entries[r].session.state.Revoked?
    && m.entries[r].session.principal == principal && m.entries[r].key == Some(key)
  }

  predicate Nameable(env: Env, principal: Text, key: Text) { StableKey(key) && 0 < |env.trim(principal)| <= 256 }

  lemma NamedIdIff(env: Env, m: Manager, principal: Text, key: Text)
    ensures NamedId(m, env, principal, key) ==
      if Nameable(env, principal, key) then Ok((env.trim(principal), key)) else Err(InvalidSession)
  {
    assert IsStableSessionKey(key) == StableKey(key);
  }

  /** In a reachable state at most one session bears a name, and the index holds exactly the names that are borne. */
  lemma NameIndex(m: Manager, principal: Text, key: Text, r: nat)
    requires Inv(m) && Bears(m, r, principal, key)
    ensures (principal, key) in m.reusable && m.reusable[(principal, key)] == m.entries[r].session.id
    ensures m.entries[r].session.id in m.stored && m.stored[m.entries[r].session.id] == r
  {
    assert Named(m.entries[r], (principal, key)) && Live(m, r);
  }

  lemma NameFree(m: Manager, principal: Text, key: Text)
    requires Inv(m) && (principal, key) in m.reusable
    ensures exists r: nat :: Bears(m, r, principal, key)
  {
    var id := m.reusable[(principal, key)];
    assert Known(m, id) && Named(m.entries[m.stored[id]], (principal, key));
    assert Bears(m, m.stored[id], principal, key);
  }

  /** A lookup by name finds the session: it bears the name, and its ID is not the empty text, which stands for none. */
  predicate Found(m: Manager, r: nat, principal: Text, key: Text) {
    Bears(m, r, principal, key) && m.entries[r].session.id != []
  }

  lemma NameGivesSession(m: Manager, principal: Text, key: Text)
    requires Inv(m) && (principal, key) in m.reusable && m.reusable[(principal, key)] != []
    ensures exists r: nat :: Found(m, r, principal, key)
  {
    NameFree(m, principal, key);
    var r: nat :| Bears(m, r, principal, key);
    NameIndex(m, principal, key, r);
    assert Found(m, r, principal, key);
  }

  lemma NamedRevoked(m: Manager, env: Env, principal: Text, key: Text, reason: Text, r: nat)
    requires Inv(m) && Nameable(env, principal, key) && Found(m, r, env.trim(principal), key)
    ensures Revokes(m, RevokeNamedSession(m, env, principal, key, reason).manager, r, reason)
  {
    NamedIdIff(env, m, principal, key);
    NameIndex(m, env.trim(principal), key, r);
    RevokeById(m, m.entries[r].session.id, reason);
  }

  lemma NoneRevoked(m: Manager, env: Env, principal: Text, key: Text, reason: Text)
    requires Inv(m) && !(Nameable(env, principal, key) && exists r: nat :: Found(m, r, env.trim(principal), key))
    ensures RevokeNamedSession(m, env, principal, key, reason) ==
      Revocation(m, Settled(Err(if Nameable(env, principal, key) then NotFound else InvalidSession)))
  {
    var p := env.trim(principal);
    NamedIdIff(env, m, principal, key);
    if Nameable(env, principal, key) && (p, key) in m.reusable && m.reusable[(p, key)] != [] {
      NameGivesSession(m, p, key);
    }
  }

  lemma NamedStep(m: Manager, env: Env, principal: Text, key: Text, reason: Text)
    ensures Next(m, env, RevokeNamed(principal, key, reason)) ==
      RevokeNamedSession(m, env, principal, key, reason).manager
  {
  }

  /** Over every run, closing by name revokes exactly the session that bears the name; without one nothing changes. */
  lemma RevokeNamedEffect(env: Env, trace: seq<Event>, principal: Text, key: Text, reason: Text)
    requires Legal(EMPTY, env, trace)
    ensures var m := Run(EMPTY, env, trace);
      var n := Next(m, env, RevokeNamed(principal, key, reason));
      && (forall r: nat :: Nameable(env, principal, key) && Found(m, r, env.trim(principal), key) ==>
            Revokes(m, n, r, reason))
      && ((Nameable(env, principal, key) && exists r: nat :: Found(m, r, env.trim(principal), key)) ||
            (&& n == m
             && RevokeNamedSession(m, env, principal, key, reason).result ==
                  Settled(Err(if Nameable(env, principal, key) then NotFound else InvalidSession))))
  {
    var m := Run(EMPTY, env, trace);
    Reached(env, trace);
    NamedStep(m, env, principal, key, reason);
    forall r: nat | Nameable(env, principal, key) && Found(m, r, env.trim(principal), key)
      ensures Revokes(m, RevokeNamedSession(m, env, principal, key, reason).manager, r, reason)
    {
      NamedRevoked(m, env, principal, key, reason, r);
    }
    if !(Nameable(env, principal, key) && exists r: nat :: Found(m, r, env.trim(principal), key)) {
      NoneRevoked(m, env, principal, key, reason);
    }
  }

  /** A record that is revoked exactly if it is not revoked yet and its ID is meant. */
  predicate RevokedIf(e: Entry, f: Entry, meant: bool, reason: Text) {
    if meant && !e.session.state.Revoked? then Ends(e, f, reason) else f == e
  }

  lemma RecordRevoked(m: Manager, id: Text, reason: Text, r: nat)
    requires Inv(m) && r < |m.entries|
    ensures var n := RevokeSession(m, id, reason).manager;
      |n.entries| == |m.entries| && RevokedIf(m.entries[r], n.entries[r], m.entries[r].session.id == id, reason)
  {
    RevokeById(m, id, reason);
    if !m.entries[r].session.state.Revoked? {
      assert Live(m, r);
    }
  }

  lemma RevokedTwice(e: Entry, f: Entry, g: Entry, first: bool, more: bool, reason: Text)
    requires RevokedIf(e, f, first, reason) && RevokedIf(f, g, more, reason)
    ensures RevokedIf(e, g, first || more, reason)
  {
  }

  lemma {:induction false} RevokeEachEffect(m: Manager, ids: seq<Text>, reason: Text, r: nat)
    requires Inv(m) && r < |m.entries|
    ensures var n := RevokeEach(m, ids, reason);
      |n.entries| == |m.entries| && RevokedIf(m.entries[r], n.entries[r], m.entries[r].session.id in ids, reason)
    decreases |ids|
  {
    if ids != [] {
      var next := RevokeSession(m, ids[0], reason).manager;
      var id := m.entries[r].session.id;
      RecordRevoked(m, ids[0], reason, r);
      RevokeInv(m, ids[0], reason);
      RevokeEachEffect(next, ids[1..], reason, r);
      assert id in ids <==> id == ids[0] || id in ids[1..] by {
        assert ids == [ids[0]] + ids[1..];
      }
      var n := RevokeEach(next, ids[1..], reason);
      RevokedTwice(m.entries[r], next.entries[r], n.entries[r], id == ids[0], id in ids[1..], reason);
    }
  }

  lemma ManyStep(m: Manager, env: Env, ids: seq<Text>, reason: Text)
    ensures Next(m, env, RevokeMany(ids, reason)) == RevokeEach(m, ids, reason)
  {
  }

  /** Over every run, closing many sessions revokes exactly those listed that are not revoked yet. */
  lemma RevokeManyEffect(env: Env, trace: seq<Event>, ids: seq<Text>, reason: Text, r: nat)
    requires Legal(EMPTY, env, trace) && r < |Run(EMPTY, env, trace).entries|
    ensures var m := Run(EMPTY, env, trace);
      var n := Next(m, env, RevokeMany(ids, reason));
      |n.entries| == |m.entries| && RevokedIf(m.entries[r], n.entries[r], m.entries[r].session.id in ids, reason)
  {
    Reached(env, trace);
    RevokeEachEffect(Run(EMPTY, env, trace), ids, reason, r);
    ManyStep(Run(EMPTY, env, trace), env, ids, reason);
  }

  // ----- relay failures and suspension

  lemma RecoversLiterally(e: Entry, now: int)
    requires e.session.state.Active?
    ensures Recovers(e, Recovering(e, now), now)
  {
  }

  /**
   * Over every run, a relay failure puts a ready session into recovery, with its relay kept and nothing closed, and
   * revokes any other session that is not revoked yet; an unknown ID and a revoked session change nothing.
   */
  lemma RelayFailureEffect(env: Env, trace: seq<Event>, id: Text, reason: Text, now: int)
    requires Legal(EMPTY, env, trace)
    ensures var m := Run(EMPTY, env, trace);
      var n := Next(m, env, RelayFailed(id, reason, now));
      if Known(m, id) && m.entries[m.stored[id]].ready then
        var r := m.stored[id];
        && Only(m, n, r) && SameMaps(m, n)
        && m.entries[r].session.state.Active? && Recovers(m.entries[r], n.entries[r], now)
        && FailRelay(m, id, reason, now).result == Settled(Ok(n.entries[r].session))
      else RevokesById(m, n, id, reason)
  {
    var m := Run(EMPTY, env, trace);
    Reached(env, trace);
    RevokeById(m, id, reason);
    if Known(m, id) && m.entries[m.stored[id]].ready {
      assert EntryOk(m.entries[m.stored[id]]);
      RecoversLiterally(m.entries[m.stored[id]], now);
    }
  }

  /** Over every run, a suspension puts every active session into recovery and changes nothing else. */
  lemma SuspensionEffect(env: Env, trace: seq<Event>, now: int, r: nat)
    requires Legal(EMPTY, env, trace) && r < |Run(EMPTY, env, trace).entries|
    ensures var m := Run(EMPTY, env, trace);
      var n := Next(m, env, Suspend(now));
      && SameMaps(m, n) && |n.entries| == |m.entries|
      && (if m.entries[r].session.state.Active? then Recovers(m.entries[r], n.entries[r], now)
          else n.entries[r] == m.entries[r])
  {
    var m := Run(EMPTY, env, trace);
    Reached(env, trace);
    if m.entries[r].session.state.Active? {
      assert Live(m, r);
      RecoversLiterally(m.entries[r], now);
    }
  }

  // ----- approval, start and readiness

  /** Over every run, approving a pending session makes it active and starts its relay; other approvals do nothing. */
  lemma ApprovalEffect(env: Env, trace: seq<Event>, id: Text)
    requires Legal(EMPTY, env, trace)
    ensures var m := Run(EMPTY, env, trace);
      var step := ApproveSession(m, id);
      if Known(m, id) && m.entries[m.stored[id]].session.state.Pending? then
        var e := m.entries[m.stored[id]];
        && Only(m, step.manager, m.stored[id]) && SameMaps(m, step.manager) && step.result == Ok(true)
        && step.manager.entries[m.stored[id]] ==
             e.(session := e.session.(state := Active), start := Starting, history := e.history + [RelayStarted])
      else
        && step.manager == m
        && step.result ==
             if !Known(m, id) then Err(NotFound)
             else if m.entries[m.stored[id]].start.NotStarted? then Err(NotPending) else Ok(false)
  {
  }

  /**
   * Over every run, the relay that a start gives is kept by a session that is not revoked and closed, once, for one
   * that is.
   */
  lemma StartEffect(env: Env, trace: seq<Event>, r: nat, relay: Relay)
    requires Legal(EMPTY, env, trace) && Enabled(Run(EMPTY, env, trace), StartResolved(r, relay))
    ensures var m := Run(EMPTY, env, trace);
      var n := Next(m, env, StartResolved(r, relay));
      var e := m.entries[r];
      && Only(m, n, r) && SameMaps(m, n)
      && n.entries[r] ==
           if e.session.state.Revoked? then e.(start := LateClosing, history := e.history + [RelayClosed])
           else e.(start := Resolved, relay := Some(relay))
  {
  }

  /**
   * Over every run, a relay that reports ready wakes a session that holds one: it is active, its recovery timer is off,
   * and it tells so exactly if it was not ready or was reconnecting. Any other report changes nothing.
   */
  lemma ReadyEffect(env: Env, trace: seq<Event>, id: Text)
    requires Legal(EMPTY, env, trace)
    ensures var m := Run(EMPTY, env, trace);
      var step := ReadySession(m, id);
      if Known(m, id) && m.entries[m.stored[id]].relay.Some? then
        var (e, f) := (m.entries[m.stored[id]], step.manager.entries[m.stored[id]]);
        && Only(m, step.manager, m.stored[id]) && SameMaps(m, step.manager) && step.result == Ok(f.session)
        && f == e.(session := e.session.(state := Active), ready := true, recoveryAt := None, history := f.history)
        && f.history ==
             if !e.ready || e.session.state.Reconnecting?
             then e.history + [Emitted(ActiveNotice(e.relay.value.cdpUrl))] else e.history
      else step.manager == m && step.result == Err(if Known(m, id) then NotActive else NotFound)
  {
    var m := Run(EMPTY, env, trace);
    Reached(env, trace);
    if Known(m, id) {
      assert EntryOk(m.entries[m.stored[id]]);
    }
  }

  /** A session that is starting has no relay, so its end compacts at once. */
  lemma HeldStart(m: Manager, r: nat)
    requires Inv(m) && r < |m.entries| && !m.entries[r].session.state.Revoked? && m.entries[r].start.Starting?
    ensures var settled := Put(m, r, m.entries[r].(start := Rejected));
      m.entries[r].relay.None?
      && StartFailed(m, r, Rejected) == Compacted(Forgetting(settled, r, Ascii("relayStartFailed")))
  {
    assert EntryOk(m.entries[r]);
    SettledFrame(m, r, Rejected);
    assert Live(Put(m, r, m.entries[r].(start := Rejected)), r);
  }

  lemma HeldStartEnds(m: Manager, r: nat)
    requires Inv(m) && r < |m.entries| && !m.entries[r].session.state.Revoked? && m.entries[r].start.Starting?
    ensures var n := StartFailed(m, r, Rejected);
      && Only(m, n, r) && Ends(m.entries[r].(start := Rejected), n.entries[r], Ascii("relayStartFailed"))
      && Unnamed(m, n, m.entries[r])
  {
    HeldStart(m, r);
    RevokedLiterally(m.entries[r].(start := Rejected), Ascii("relayStartFailed"));
    ForgottenLiterally(m, r);
  }

  lemma HeldStartFails(m: Manager, r: nat)
    requires Inv(m) && r < |m.entries| && !m.entries[r].session.state.Revoked? && m.entries[r].start.Starting?
    ensures var n := StartFailed(m, r, Rejected);
      && Only(m, n, r) && Ends(m.entries[r].(start := Rejected), n.entries[r], Ascii("relayStartFailed"))
      && Unnamed(m, n, m.entries[r]) && OnlyTombstonesGo(m, n, r)
  {
    HeldStartEnds(m, r);
    HeldStart(m, r);
    CompactionKeeps(m, Forgetting(Put(m, r, m.entries[r].(start := Rejected)), r, Ascii("relayStartFailed")));
  }

  lemma TombstoneStartFails(m: Manager, r: nat, start: Start)
    requires Inv(m) && r < |m.entries| && m.entries[r].session.state.Revoked?
    requires (start.Rejected? && m.entries[r].start.Starting?) || (start.Resolved? && m.entries[r].start.LateClosing?)
    ensures var e := m.entries[r];
      var settled := m.(entries := m.entries[r := e.(start := start)]);
      RevokesById(settled, StartFailed(m, r, start), e.session.id, Ascii("relayStartFailed"))
  {
    var e := m.entries[r];
    var settled := m.(entries := m.entries[r := e.(start := start)]);
    SettledFrame(m, r, start);
    assert EntryOk(e);
    assert EntryOk(e.(start := start));
    assert EntriesOk(settled);
    RevokeById(settled, e.session.id, Ascii("relayStartFailed"));
  }

  /**
   * Over every run, a start that fails revokes its own session if that is not revoked yet. Otherwise, as after closing
   * a relay that came too late, the start is only marked as over, and whatever bears the ID by now is revoked.
   */
  lemma FailedStartEffect(env: Env, trace: seq<Event>, r: nat, event: Event)
    requires Legal(EMPTY, env, trace) && event in {StartRejected(r), LateCloseSettled(r)}
    requires Enabled(Run(EMPTY, env, trace), event)
    ensures var m := Run(EMPTY, env, trace);
      var (n, e) := (Next(m, env, event), m.entries[r]);
      var marked := e.(start := if event.StartRejected? then Rejected else Resolved);
      if e.session.state.Revoked? then
        RevokesById(m.(entries := m.entries[r := marked]), n, e.session.id, Ascii("relayStartFailed"))
      else
        && event.StartRejected? && Only(m, n, r) && Ends(marked, n.entries[r], Ascii("relayStartFailed"))
        && Unnamed(m, n, e) && OnlyTombstonesGo(m, n, r)
  {
    var m := Run(EMPTY, env, trace);
    Reached(env, trace);
    assert EntryOk(m.entries[r]);
    if !m.entries[r].session.state.Revoked? {
      HeldStartFails(m, r);
    } else if event.StartRejected? {
      TombstoneStartFails(m, r, Rejected);
    } else {
      TombstoneStartFails(m, r, Resolved);
    }
  }

  /** Over every run, when closing a relay has settled, only the record's own mark says so; only tombstones may go. */
  lemma ClosedEffect(env: Env, trace: seq<Event>, r: nat, ok: bool)
    requires Legal(EMPTY, env, trace) && Enabled(Run(EMPTY, env, trace), RelayCloseSettled(r, ok))
    ensures var m := Run(EMPTY, env, trace);
      var n := Next(m, env, RelayCloseSettled(r, ok));
      && Only(m, n, r) && n.entries[r] == m.entries[r].(closing := if ok then CloseDone else CloseFailed)
      && n.reusable == m.reusable && OnlyTombstonesGo(m, n, r)
  {
    var m := Run(EMPTY, env, trace);
    Reached(env, trace);
    assert EntryOk(m.entries[r]);
    CompactionKeeps(m, Put(m, r, m.entries[r].(closing := if ok then CloseDone else CloseFailed)));
  }

  /** Over every run, an upgrade of an active session that leads to the expected access sets it; others do nothing. */
  lemma UpgradeEffect(env: Env, trace: seq<Event>, id: Text, delta: Delta, expected: Access)
    requires Legal(EMPTY, env, trace)
    ensures var m := Run(EMPTY, env, trace);
      var step := ApplyUpgrade(m, env, id, delta, expected);
      if Known(m, id) && m.entries[m.stored[id]].session.state.Active?
         && UpgradeSessionAccess(env.host, m.entries[m.stored[id]].session.access, delta) == Ok(expected)
      then
        var e := m.entries[m.stored[id]];
        && Only(m, step.manager, m.stored[id]) && SameMaps(m, step.manager)
        && step.manager.entries[m.stored[id]] == e.(session := e.session.(access := expected))
        && step.result == Ok(e.session.(access := expected))
      else
        && step.manager == m
        && step.result == Err(
             if !Known(m, id) then NotFound
             else if !m.entries[m.stored[id]].session.state.Active? then NotActive
             else if UpgradeSessionAccess(env.host, m.entries[m.stored[id]].session.access, delta).Err? then
               InvalidSession
             else SessionConflict)
  {
  }

  lemma NamedWorking(m: Manager, env: Env, principal: Text, key: Text, r: nat)
    requires Inv(m) && Nameable(env, principal, key) && Found(m, r, env.trim(principal), key)
    ensures RequireNamed(m, env, principal, key) ==
      if m.entries[r].session.state.Pending? then Err(NotFound) else Ok(m.entries[r].session)
  {
    NamedIdIff(env, m, principal, key);
    NameIndex(m, env.trim(principal), key, r);
  }

  lemma NoneWorking(m: Manager, env: Env, principal: Text, key: Text)
    requires Inv(m)
    requires !(Nameable(env, principal, key) && exists r: nat :: Found(m, r, env.trim(principal), key))
    ensures RequireNamed(m, env, principal, key) ==
      Err(if Nameable(env, principal, key) then NotFound else InvalidSession)
  {
    NamedIdIff(env, m, principal, key);
    var p := env.trim(principal);
    if Nameable(env, principal, key) && (p, key) in m.reusable && m.reusable[(p, key)] != [] {
      NameGivesSession(m, p, key);
    }
  }

  /** Over every run, a preview answers with the working session that bears the name and where the delta leads it. */
  lemma PreviewEffect(env: Env, trace: seq<Event>, principal: Text, key: Text, delta: Delta)
    requires Legal(EMPTY, env, trace)
    ensures var m := Run(EMPTY, env, trace);
      var (p, answer) := (env.trim(principal), PreviewUpgrade(m, env, principal, key, delta));
      && (forall r: nat :: Nameable(env, principal, key) && Found(m, r, p, key) ==>
            var s := m.entries[r].session;
            answer ==
              if s.state.Pending? then Err(NotFound)
              else if UpgradeSessionAccess(env.host, s.access, delta).Err? then Err(InvalidSession)
              else Ok((s, UpgradeSessionAccess(env.host, s.access, delta).value)))
      && ((Nameable(env, principal, key) && exists r: nat :: Found(m, r, p, key)) ||
            answer == Err(if Nameable(env, principal, key) then NotFound else InvalidSession))
  {
    var m := Run(EMPTY, env, trace);
    var p := env.trim(principal);
    Reached(env, trace);
    forall r: nat | Nameable(env, principal, key) && Found(m, r, p, key)
      ensures RequireNamed(m, env, principal, key) ==
        if m.entries[r].session.state.Pending? then Err(NotFound) else Ok(m.entries[r].session)
    {
      NamedWorking(m, env, principal, key, r);
    }
    if !(Nameable(env, principal, key) && exists r: nat :: Found(m, r, p, key)) {
      NoneWorking(m, env, principal, key);
    }
  }

  // ----- opening

  /** What an open request must be to be taken, and what is taken from it. */
  predicate Opens(env: Env, input: OpenInput, q: Request) {
    && NormalizeSessionAccess(env.host, input.level, input.tabIds, input.domains) == Ok(q.access)
    && input.capabilities == [Ascii("cdp")]
    && (input.ttlMs.Some? ==> 0 < input.ttlMs.value <= 86_400_000)
    && q.principal == env.trim(input.principal) && 0 < |q.principal| <= 256
    && q.controllerName == env.trim(input.controllerName) && 0 < |q.controllerName| <= 128
    && q.taskLabel == env.trim(input.taskLabel) && 0 < |q.taskLabel| <= 128
    && (input.key.Some? ==> StableKey(input.key.value))
    && q.route.controllerPrincipalId == q.principal
    && q.route ==
         if input.route.Some? then input.route.value
         else Routes.Route(Routes.Local, env.localEndpointId, q.principal, Routes.LocalOnly, q.access, None, None, None)
  }

  lemma OpensIff(env: Env, input: OpenInput)
    ensures Validate(env, input).Ok? <==> exists q :: Opens(env, input, q)
    ensures forall q :: Opens(env, input, q) ==> Validate(env, input) == Ok(q)
    ensures Validate(env, input).Ok? ==> Opens(env, input, Validate(env, input).value)
  {
    if input.key.Some? {
      assert IsStableSessionKey(input.key.value) == StableKey(input.key.value);
    }
    if Validate(env, input).Ok? {
      assert Opens(env, input, Validate(env, input).value);
    }
  }

  /** The record a fresh open request creates. */
  function Fresh(q: Request, input: OpenInput, id: Text, now: int): Entry {
    var expiresAt := if input.ttlMs.Some? then Some(now + input.ttlMs.value) else None;
    var session := Session(
      id, q.principal, q.controllerName, q.taskLabel, [Ascii("cdp")], q.access, now, expiresAt, Pending, q.route);
    Entry(session, input.key, None, NotStarted, false, input.ttlMs.Some?, None, NotRevoking, [Emitted(PendingNotice)])
  }

  /** The session asked for again is the one there is: same task, access and route. */
  predicate Agrees(s: Session, q: Request) {
    s.taskLabel == q.taskLabel && s.capabilities == [Ascii("cdp")] && s.access == q.access && s.route == q.route
  }

  /** What an open request is answered when a session bears its name. */
  function NamedAnswer(s: Session, q: Request): Outcome<Session, SessionError> {
    if !Agrees(s, q) then Err(SessionConflict) else if s.state.Pending? then Err(NotActive) else Ok(s)
  }

  lemma NamedExisting(m: Manager, q: Request, key: Text, r: nat)
    requires Inv(m) && Bears(m, r, q.principal, key)
    ensures Existing(m, q, Some(key)) == Some(m.entries[r])
  {
    NameIndex(m, q.principal, key, r);
  }

  lemma NoneExisting(m: Manager, q: Request, key: Option<Text>)
    requires Inv(m) && (key.Some? ==> !exists r: nat :: Bears(m, r, q.principal, key.value))
    ensures Existing(m, q, key).None?
  {
    if key.Some? && (q.principal, key.value) in m.reusable {
      NameFree(m, q.principal, key.value);
    }
  }

  lemma OpensNamed(m: Manager, env: Env, input: OpenInput, id: Text, now: int, q: Request, r: nat)
    requires Inv(m) && Opens(env, input, q) && input.key.Some? && Bears(m, r, q.principal, input.key.value)
    ensures OpenSession(m, env, input, id, now) == Step(m, NamedAnswer(m.entries[r].session, q))
  {
    OpensIff(env, input);
    NamedExisting(m, q, input.key.value, r);
    ReuseAnswer(m.entries[r], q);
    Answers(m, env, input, id, now, q);
  }

  lemma ReuseAnswer(e: Entry, q: Request)
    requires !e.session.state.Revoked?
    ensures Reuse(Some(e), q) == Some(NamedAnswer(e.session, q))
  {
  }

  lemma Answers(m: Manager, env: Env, input: OpenInput, id: Text, now: int, q: Request)
    requires Validate(env, input) == Ok(q) && Reuse(Existing(m, q, input.key), q).Some?
    ensures OpenSession(m, env, input, id, now) == Step(m, Reuse(Existing(m, q, input.key), q).value)
  {
  }

  lemma FreshLiterally(q: Request, input: OpenInput, id: Text, now: int)
    ensures Opened(NewSession(q, id, now, input.ttlMs), input.key) == Fresh(q, input, id, now)
  {
  }

  lemma OpensFreshly(m: Manager, env: Env, input: OpenInput, id: Text, now: int, q: Request)
    requires Inv(m) && Opens(env, input, q)
    requires input.key.Some? ==> !exists r: nat :: Bears(m, r, q.principal, input.key.value)
    ensures OpenSession(m, env, input, id, now) ==
      if id in m.stored then Step(m, Err(InvalidSession))
      else Step(Grown(m, q, input, id, now), Ok(Fresh(q, input, id, now).session))
  {
    OpensIff(env, input);
    NoneExisting(m, q, input.key);
    OpensNew(m, env, input, id, now, q);
    FreshLiterally(q, input, id, now);
  }

  /** One fresh pending record more, stored under its ID and, if it has a key, named. */
  function Grown(m: Manager, q: Request, input: OpenInput, id: Text, now: int): Manager {
    Manager(m.entries + [Fresh(q, input, id, now)], m.stored[id := |m.entries|],
      if input.key.Some? then m.reusable[(q.principal, input.key.value) := id] else m.reusable)
  }

  /**
   * Over every run, opening: if a session bears the name asked for, the answer is that session when it works and
   * agrees, an error when it is pending or differs, and nothing changes. Otherwise a fresh pending record is added
   * under the offered ID, unless that ID is stored already.
   */
  lemma OpenEffect(env: Env, trace: seq<Event>, input: OpenInput, id: Text, now: int, q: Request)
    requires Legal(EMPTY, env, trace) && Opens(env, input, q)
    ensures var m := Run(EMPTY, env, trace);
      var step := OpenSession(m, env, input, id, now);
      && (forall r: nat :: input.key.Some? && Bears(m, r, q.principal, input.key.value) ==>
            step == Step(m, NamedAnswer(m.entries[r].session, q)))
      && ((input.key.Some? && exists r: nat :: Bears(m, r, q.principal, input.key.value)) ||
            step ==
              if id in m.stored then Step(m, Err(InvalidSession))
              else Step(Grown(m, q, input, id, now), Ok(Fresh(q, input, id, now).session)))
  {
    var m := Run(EMPTY, env, trace);
    Reached(env, trace);
    forall r: nat | input.key.Some? && Bears(m, r, q.principal, input.key.value)
      ensures OpenSession(m, env, input, id, now) == Step(m, NamedAnswer(m.entries[r].session, q))
    {
      OpensNamed(m, env, input, id, now, q, r);
    }
    if input.key.None? || !exists r: nat :: Bears(m, r, q.principal, input.key.value) {
      OpensFreshly(m, env, input, id, now, q);
    }
  }

  /** A request that may not be taken fails by its access, then its capabilities, then its lifetime, then the rest. */
  lemma OpenRefused(m: Manager, env: Env, input: OpenInput, id: Text, now: int)
    requires !exists q :: Opens(env, input, q)
    ensures var access := NormalizeSessionAccess(env.host, input.level, input.tabIds, input.domains);
      OpenSession(m, env, input, id, now) == Step(m, Err(
        if access.Err? then InvalidAccess(access.error)
        else if input.capabilities != [Ascii("cdp")] then UnsupportedCapability
        else if input.ttlMs.Some? && !(0 < input.ttlMs.value <= 86_400_000) then InvalidTtl
        else InvalidSession))
  {
    OpensIff(env, input);
  }
}
