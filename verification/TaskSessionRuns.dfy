/**
 * What holds of every run of the task session manager: relays are conserved, each session's notices follow one
 * lifecycle, the named-session index is exact, and compaction keeps the newest tombstones.
 */
module TaskSessionRuns {
  import opened Bytes
  import opened Results
  import opened Sorting
  import opened SessionAccess
  import opened TaskSessions

  // ----- reading a record's outputs

  function Notices(history: seq<Output>): seq<Notice> {
    if history == [] then []
    else
      var last := history[|history| - 1];
      Notices(history[..|history| - 1]) + if last.Emitted? then [last.notice] else []
  }

  function Starts(history: seq<Output>): nat {
    if history == [] then 0
    else Starts(history[..|history| - 1]) + if history[|history| - 1].RelayStarted? then 1 else 0
  }

  function Closes(history: seq<Output>): nat {
    if history == [] then 0
    else Closes(history[..|history| - 1]) + if history[|history| - 1].RelayClosed? then 1 else 0
  }

  lemma NotedReads(e: Entry, output: Output)
    ensures var h, n := e.history, Noted(e, output).history;
      && Notices(n) == Notices(h) + (if output.Emitted? then [output.notice] else [])
      && Starts(n) == Starts(h) + (if output.RelayStarted? then 1 else 0)
      && Closes(n) == Closes(h) + (if output.RelayClosed? then 1 else 0)
  {
    assert Noted(e, output).history[..|e.history|] == e.history;
  }

  /**
   * One `pending`, then `active` and `reconnecting` strictly alternating with either first, then at most one
   * `revoked` and nothing after it.
   */
  ghost predicate Lifecycle(ns: seq<Notice>) {
    && ns != [] && ns[0].PendingNotice?
    && forall i :: 0 < i < |ns| ==> Follows(ns[i - 1], ns[i])
  }

  predicate Follows(before: Notice, after: Notice) {
    match after
    case PendingNotice => false
    case ActiveNotice(_) => before.PendingNotice? || before.ReconnectingNotice?
    case ReconnectingNotice => before.PendingNotice? || before.ActiveNotice?
    case RevokedNotice(_) => !before.RevokedNotice?
  }

  /** The last notice says what the record's state is; an approved record that is not ready has told nothing yet. */
  predicate LastSays(last: Notice, state: SessionState, ready: bool) {
    match state
    case Pending => last.PendingNotice?
    case Active => if ready then last.ActiveNotice? else last.PendingNotice?
    case Reconnecting => last.ReconnectingNotice?
    case Revoked => last.RevokedNotice?
  }

  lemma LifecycleGrows(ns: seq<Notice>, n: Notice)
    requires Lifecycle(ns) && Follows(ns[|ns| - 1], n)
    ensures Lifecycle(ns + [n])
  {
    var more := ns + [n];
    forall i | 0 < i < |more| ensures Follows(more[i - 1], more[i]) {
      assert i < |ns| ==> Follows(ns[i - 1], ns[i]);
    }
  }

  // ----- what every record keeps

  predicate Working(e: Entry) { e.session.state.Active? || e.session.state.Reconnecting? }

  predicate StartFits(e: Entry) {
    && (e.session.state.Pending? ==> e.start.NotStarted?)
    && (Working(e) ==> e.start.Starting? || e.start.Resolved?)
    && (e.relay.Some? <==> Working(e) && e.start.Resolved?)
    && (e.closing.ClosingRelay? || e.closing.CloseFailed? ==> e.start.Resolved?)
  }

  predicate FlagsFit(e: Entry) {
    && (e.ready ==> e.session.state.Active? && e.relay.Some?)
    && (e.recoveryAt.Some? <==> e.session.state.Reconnecting?)
    && (e.ttlArmed <==> e.session.expiresAt.Some? && !e.session.state.Revoked?)
    && (e.closing.NotRevoking? <==> !e.session.state.Revoked?)
  }

  /** One relay per started session; it is closed once, exactly when it was obtained and is no longer held. */
  predicate Conserved(e: Entry) {
    && Starts(e.history) == (if e.start.NotStarted? then 0 else 1)
    && Closes(e.history) == (if (e.start.Resolved? || e.start.LateClosing?) && e.relay.None? then 1 else 0)
  }

  ghost predicate Told(e: Entry) {
    var ns := Notices(e.history);
    Lifecycle(ns) && LastSays(ns[|ns| - 1], e.session.state, e.ready)
  }

  ghost predicate EntryOk(e: Entry) { StartFits(e) && FlagsFit(e) && Conserved(e) && Told(e) }

  lemma OpenedOk(session: Session, key: Option<Text>)
    requires session.state.Pending?
    ensures EntryOk(Opened(session, key))
  {
    var h := Opened(session, key).history;
    assert h[..0] == [] && Notices(h) == [PendingNotice] && Starts(h) == 0 && Closes(h) == 0;
  }

  lemma ApprovedOk(e: Entry)
    requires EntryOk(e) && e.session.state.Pending?
    ensures EntryOk(Approved(e))
  {
    NotedReads(WithState(e, Active).(start := Starting), RelayStarted);
  }

  lemma DeliveredOk(e: Entry, relay: Relay)
    requires EntryOk(e) && e.start.Starting?
    ensures EntryOk(Delivered(e, relay))
  {
    NotedReads(e.(start := LateClosing), RelayClosed);
  }

  lemma ReadiedOk(e: Entry)
    requires EntryOk(e) && e.relay.Some?
    ensures EntryOk(Readied(e))
  {
    var told := Emitted(ActiveNotice(e.relay.value.cdpUrl));
    var ns := Notices(e.history);
    NotedReads(WithState(e, Active).(recoveryAt := None).(ready := true), told);
    if !e.ready || e.session.state.Reconnecting? {
      LifecycleGrows(ns, told.notice);
    }
  }

  lemma RecoveringOk(e: Entry, now: int)
    requires EntryOk(e)
    ensures EntryOk(Recovering(e, now))
  {
    if e.session.state.Active? {
      var awake := WithState(e, Reconnecting).(ready := false, recoveryAt := Some(now + ENDPOINT_RECOVERY_GRACE_MS));
      NotedReads(awake, Emitted(ReconnectingNotice));
      LifecycleGrows(Notices(e.history), ReconnectingNotice);
    }
  }

  lemma RevokedHistory(e: Entry, reason: Text)
    requires EntryOk(e) && !e.session.state.Revoked?
    ensures var h := RevokedEntry(e, reason).history;
      && Notices(h) == Notices(e.history) + [RevokedNotice(reason)]
      && Starts(h) == Starts(e.history)
      && Closes(h) == if e.relay.Some? then 1 else 0
  {
    var gone := WithState(e, Revoked).(ready := false, ttlArmed := false, recoveryAt := None, relay := None);
    var told := Noted(gone, Emitted(RevokedNotice(reason)));
    NotedReads(gone, Emitted(RevokedNotice(reason)));
    NotedReads(told.(closing := ClosingRelay), RelayClosed);
  }

  lemma RevokedOk(e: Entry, reason: Text)
    requires EntryOk(e) && !e.session.state.Revoked?
    ensures EntryOk(RevokedEntry(e, reason))
  {
    RevokedHistory(e, reason);
    LifecycleGrows(Notices(e.history), RevokedNotice(reason));
  }

  /** Revoking from the catch block of an approval whose start was rejected. */
  lemma RejectedOk(e: Entry, reason: Text)
    requires EntryOk(e) && !e.session.state.Revoked? && e.start.Starting?
    ensures EntryOk(RevokedEntry(e.(start := Rejected), reason))
  {
    RevokedOk(e, reason);
    assert RevokedEntry(e.(start := Rejected), reason) == RevokedEntry(e, reason).(start := Rejected);
  }

  // ----- what the maps keep

  /** Each stored ID names a record with that ID, and every record that is not revoked is stored. */
  ghost predicate StoredExact(m: Manager) {
    && (forall id :: id in m.stored ==> m.stored[id] < |m.entries| && m.entries[m.stored[id]].session.id == id)
    && (forall r :: 0 <= r < |m.entries| && !m.entries[r].session.state.Revoked? ==> Live(m, r))
  }

  predicate Named(e: Entry, k: (Text, Text)) {
    !e.session.state.Revoked? && e.session.principal == k.0 && e.key == Some(k.1)
  }

  /** The named-session index holds exactly the named sessions that are not revoked. */
  ghost predicate NamedExact(m: Manager) {
    && (forall k :: k in m.reusable ==>
          Known(m, m.reusable[k]) && Named(m.entries[m.stored[m.reusable[k]]], k))
    && (forall r, k :: 0 <= r < |m.entries| && Named(m.entries[r], k) ==>
          k in m.reusable && m.reusable[k] == m.entries[r].session.id)
  }

  ghost predicate EntriesOk(m: Manager) { forall r :: 0 <= r < |m.entries| ==> EntryOk(m.entries[r]) }

  function ClosingCount(entries: seq<Entry>): nat {
    if entries == [] then 0
    else ClosingCount(entries[..|entries| - 1]) + if entries[|entries| - 1].closing.ClosingRelay? then 1 else 0
  }

  /** Beyond the 64 kept, a tombstone waits only for a relay that is still closing. */
  predicate FewTombstones(m: Manager) {
    |Tombstones(m)| <= MAX_REVOKED_TASK_SESSION_TOMBSTONES + ClosingCount(m.entries)
  }

  ghost predicate Inv(m: Manager) { EntriesOk(m) && StoredExact(m) && NamedExact(m) && FewTombstones(m) }

  // ----- compaction

  predicate Tombstone(m: Manager, r: nat) { Live(m, r) && m.entries[r].session.state.Revoked? }

  lemma {:induction false} RevokedMembers(m: Manager, n: nat)
    requires n <= |m.entries|
    ensures forall r: nat :: r in RevokedUpTo(m, n) <==> r < n && Tombstone(m, r)
    ensures Distinct(RevokedUpTo(m, n))
  {
    if n > 0 {
      RevokedMembers(m, n - 1);
      var before := RevokedUpTo(m, n - 1);
      forall i | 0 <= i < |before| ensures before[i] != n - 1 {
        assert before[i] in before;
      }
    }
  }

  lemma OlderOrder(entries: seq<Entry>)
    ensures StrictOrder(Older(entries))
  {
  }

  lemma TombstonesSorted(m: Manager)
    ensures Ascending(Older(m.entries), Tombstones(m))
    ensures forall r: nat :: r in Tombstones(m) <==> Tombstone(m, r)
  {
    OlderOrder(m.entries);
    RevokedMembers(m, |m.entries|);
    SortAscending(Older(m.entries), RevokedUpTo(m, |m.entries|));
    SortMembers(Older(m.entries), RevokedUpTo(m, |m.entries|));
  }

  lemma CompactedLive(m: Manager, r: nat)
    ensures Live(Compacted(m), r) <==> Live(m, r) && r !in Tombstones(m)[..Excess(m)]
  {
  }

  lemma SplitMembers(s: seq<nat>, k: nat)
    requires k <= |s| && Distinct(s)
    ensures forall r :: r in s[k..] <==> r in s && r !in s[..k]
  {
    forall r ensures r in s[k..] <==> r in s && r !in s[..k] {
      assert s == s[..k] + s[k..];
      if r in s[k..] {
        var i :| k <= i < |s| && s[i] == r;
      }
    }
  }

  /** Compaction drops the oldest tombstones beyond 64 and nothing else: what is left are the newest, in order. */
  lemma CompactionKeepsNewest(m: Manager)
    ensures var c := Compacted(m);
      && c.entries == m.entries && c.reusable == m.reusable
      && Tombstones(c) == Tombstones(m)[Excess(m)..] && |Tombstones(c)| <= MAX_REVOKED_TASK_SESSION_TOMBSTONES
      && (forall r: nat :: Live(m, r) && !m.entries[r].session.state.Revoked? ==> Live(c, r))
      && (forall r: nat :: Live(c, r) ==> Live(m, r))
  {
    var c := Compacted(m);
    var all, k := Tombstones(m), Excess(m);
    var older := Older(m.entries);
    OlderOrder(m.entries);
    TombstonesSorted(m);
    TombstonesSorted(c);
    assert Distinct(all);
    SplitMembers(all, k);
    forall r: nat ensures Live(c, r) <==> Live(m, r) && r !in all[..k] {
      CompactedLive(m, r);
    }
    forall r ensures r in Tombstones(c) <==> r in all[k..] {
      assert r in all[k..] ==> Tombstone(m, r);
    }
    AscendingUnique(older, Tombstones(c), all[k..]);
    forall r: nat | Live(m, r) && !m.entries[r].session.state.Revoked? ensures Live(c, r) {
      assert r in all[..k] ==> r in all;
    }
  }

  /** No tombstone that is dropped is newer than one that is kept. */
  lemma CompactionByAge(m: Manager, dropped: nat, kept: nat)
    requires Tombstone(m, dropped) && !Live(Compacted(m), dropped) && Tombstone(Compacted(m), kept)
    ensures m.entries[dropped].session.createdAt <= m.entries[kept].session.createdAt
  {
    var all, k := Tombstones(m), Excess(m);
    TombstonesSorted(m);
    CompactionKeepsNewest(m);
    TombstonesSorted(Compacted(m));
    CompactedLive(m, dropped);
    assert dropped in all[..k] && kept in all[k..];
    var i :| 0 <= i < k && all[i] == dropped;
    var j :| k <= j < |all| && all[j] == kept;
    assert Older(m.entries)(all[i], all[j]);
  }

  // ----- steps that touch neither the maps nor who is revoked

  predicate SameOwner(a: Entry, b: Entry) {
    && a.session.id == b.session.id && a.session.principal == b.session.principal && a.key == b.key
    && (a.session.state.Revoked? <==> b.session.state.Revoked?)
  }

  ghost predicate SameOwners(m: Manager, n: Manager) {
    && n.stored == m.stored && n.reusable == m.reusable && |n.entries| == |m.entries|
    && forall r :: 0 <= r < |m.entries| ==> SameOwner(m.entries[r], n.entries[r])
  }

  lemma SameOwnersMaps(m: Manager, n: Manager)
    requires SameOwners(m, n) && StoredExact(m) && NamedExact(m)
    ensures StoredExact(n) && NamedExact(n)
  {
    forall id | id in n.stored ensures n.stored[id] < |n.entries| && n.entries[n.stored[id]].session.id == id {
      assert SameOwner(m.entries[m.stored[id]], n.entries[n.stored[id]]);
    }
    forall r | 0 <= r < |n.entries| && !n.entries[r].session.state.Revoked? ensures Live(n, r) {
      assert SameOwner(m.entries[r], n.entries[r]) && Live(m, r);
    }
    forall k | k in n.reusable ensures Known(n, n.reusable[k]) && Named(n.entries[n.stored[n.reusable[k]]], k) {
      assert Named(m.entries[m.stored[m.reusable[k]]], k);
      assert SameOwner(m.entries[m.stored[m.reusable[k]]], n.entries[m.stored[m.reusable[k]]]);
    }
    forall r, k | 0 <= r < |n.entries| && Named(n.entries[r], k)
      ensures k in n.reusable && n.reusable[k] == n.entries[r].session.id
    {
      assert SameOwner(m.entries[r], n.entries[r]) && Named(m.entries[r], k);
    }
  }

  lemma {:induction false} SameOwnersTombstones(m: Manager, n: Manager, upTo: nat)
    requires SameOwners(m, n) && upTo <= |m.entries|
    ensures RevokedUpTo(n, upTo) == RevokedUpTo(m, upTo)
  {
    if upTo > 0 {
      SameOwnersTombstones(m, n, upTo - 1);
      assert SameOwner(m.entries[upTo - 1], n.entries[upTo - 1]);
    }
  }

  lemma {:induction false} SameClosing(a: seq<Entry>, b: seq<Entry>)
    requires |a| == |b| && forall r :: 0 <= r < |a| ==> a[r].closing == b[r].closing
    ensures ClosingCount(a) == ClosingCount(b)
  {
    if a != [] {
      SameClosing(a[..|a| - 1], b[..|b| - 1]);
    }
  }

  lemma SameOwnersInv(m: Manager, n: Manager)
    requires Inv(m) && SameOwners(m, n) && EntriesOk(n)
    requires forall r :: 0 <= r < |m.entries| ==> m.entries[r].closing == n.entries[r].closing
    ensures Inv(n)
  {
    SameOwnersMaps(m, n);
    SameOwnersTombstones(m, n, |m.entries|);
    SameClosing(m.entries, n.entries);
  }

  lemma PutInv(m: Manager, r: nat, e: Entry)
    requires Inv(m) && r < |m.entries| && EntryOk(e) && SameOwner(m.entries[r], e) && e.closing == m.entries[r].closing
    ensures Inv(Put(m, r, e))
  {
    SameOwnersInv(m, Put(m, r, e));
  }

  lemma SuspendInv(m: Manager, now: int)
    requires Inv(m)
    ensures Inv(SuspendAll(m, now))
  {
    var n := SuspendAll(m, now);
    forall r | 0 <= r < |m.entries| ensures EntryOk(n.entries[r]) && SameOwner(m.entries[r], n.entries[r]) {
      RecoveringOk(m.entries[r], now);
    }
    SameOwnersInv(m, n);
  }

  lemma CompactedMaps(m: Manager)
    requires StoredExact(m) && NamedExact(m)
    ensures StoredExact(Compacted(m)) && NamedExact(Compacted(m)) && FewTombstones(Compacted(m))
  {
    var c := Compacted(m);
    CompactionKeepsNewest(m);
    forall k | k in c.reusable ensures Known(c, c.reusable[k]) && Named(c.entries[c.stored[c.reusable[k]]], k) {
      var r := m.stored[m.reusable[k]];
      assert Named(m.entries[r], k) && Live(m, r) && Live(c, r);
    }
  }

  // ----- revoking

  lemma {:induction false} ClosingPut(entries: seq<Entry>, r: nat, e: Entry)
    requires r < |entries|
    ensures ClosingCount(entries[r := e]) ==
      ClosingCount(entries)
      - (if entries[r].closing.ClosingRelay? then 1 else 0) + (if e.closing.ClosingRelay? then 1 else 0)
  {
    var n := |entries| - 1;
    var after := entries[r := e];
    if r == n {
      assert after[..n] == entries[..n];
    } else {
      assert after[..n] == entries[..n][r := e];
      ClosingPut(entries[..n], r, e);
    }
  }

  /** Changing one record of the same ID adds at most one tombstone. */
  lemma {:induction false} PutTombstones(m: Manager, n: Manager, r: nat, upTo: nat)
    requires r < |m.entries| == |n.entries| && n.stored == m.stored && upTo <= |m.entries|
    requires forall i :: 0 <= i < |m.entries| && i != r ==> n.entries[i] == m.entries[i]
    requires n.entries[r].session.id == m.entries[r].session.id
    ensures |RevokedUpTo(n, upTo)| <= |RevokedUpTo(m, upTo)| + if r < upTo then 1 else 0
  {
    if upTo > 0 {
      PutTombstones(m, n, r, upTo - 1);
    }
  }

  function Forgetting(m: Manager, r: nat, reason: Text): Manager
    requires r < |m.entries|
  {
    Put(m, r, RevokedEntry(m.entries[r], reason)).(reusable := Forgotten(m.reusable, m.entries[r]))
  }

  lemma RevokedStored(m: Manager, r: nat, reason: Text)
    requires StoredExact(m) && r < |m.entries| && !m.entries[r].session.state.Revoked?
    ensures StoredExact(Forgetting(m, r, reason))
  {
    var n := Forgetting(m, r, reason);
    assert n.entries[r].session.id == m.entries[r].session.id;
    forall i | 0 <= i < |n.entries| && !n.entries[i].session.state.Revoked? ensures Live(n, i) {
      assert i != r && Live(m, i);
    }
  }

  lemma ForgottenKey(m: Manager, r: nat, k: (Text, Text))
    requires StoredExact(m) && NamedExact(m) && r < |m.entries|
    requires k in Forgotten(m.reusable, m.entries[r])
    ensures k in m.reusable && Known(m, m.reusable[k]) && m.stored[m.reusable[k]] != r
    ensures Named(m.entries[m.stored[m.reusable[k]]], k)
  {
    assert Known(m, m.reusable[k]) && Named(m.entries[m.stored[m.reusable[k]]], k);
    assert m.entries[m.stored[m.reusable[k]]].session.id == m.reusable[k];
  }

  lemma KeptKey(m: Manager, r: nat, i: nat, k: (Text, Text))
    requires StoredExact(m) && NamedExact(m) && r < |m.entries| && i < |m.entries| && i != r
    requires !m.entries[r].session.state.Revoked? && Named(m.entries[i], k)
    ensures k in Forgotten(m.reusable, m.entries[r])
    ensures Forgotten(m.reusable, m.entries[r])[k] == m.entries[i].session.id
  {
    assert Live(m, i) && Live(m, r);
    assert m.entries[i].session.id != m.entries[r].session.id;
  }

  lemma RevokedMaps(m: Manager, r: nat, reason: Text)
    requires StoredExact(m) && NamedExact(m) && r < |m.entries| && !m.entries[r].session.state.Revoked?
    ensures StoredExact(Forgetting(m, r, reason)) && NamedExact(Forgetting(m, r, reason))
  {
    var n := Forgetting(m, r, reason);
    RevokedStored(m, r, reason);
    forall k | k in n.reusable ensures Known(n, n.reusable[k]) && Named(n.entries[n.stored[n.reusable[k]]], k) {
      ForgottenKey(m, r, k);
    }
    assert n.entries[r].session.state.Revoked?;
    forall i, k | 0 <= i < |n.entries| && Named(n.entries[i], k)
      ensures k in n.reusable && n.reusable[k] == n.entries[i].session.id
    {
      KeptKey(m, r, i, k);
    }
  }

  /** Revoking a record that is not revoked, given that what it becomes is well-formed. */
  lemma RevokeRecordInv(m: Manager, r: nat, reason: Text)
    requires StoredExact(m) && NamedExact(m) && FewTombstones(m)
    requires r < |m.entries| && !m.entries[r].session.state.Revoked? && m.entries[r].closing.NotRevoking?
    requires forall i :: 0 <= i < |m.entries| && i != r ==> EntryOk(m.entries[i])
    requires EntryOk(RevokedEntry(m.entries[r], reason))
    ensures Inv(RevokeRecord(m, r, reason))
  {
    var e := m.entries[r];
    var revoked := Forgetting(m, r, reason);
    RevokedMaps(m, r, reason);
    if e.relay.Some? {
      PutTombstones(m, revoked, r, |m.entries|);
      ClosingPut(m.entries, r, RevokedEntry(e, reason));
    } else {
      CompactedMaps(revoked);
      CompactionKeepsNewest(revoked);
    }
  }

  lemma RevokeInv(m: Manager, id: Text, reason: Text)
    requires Inv(m)
    ensures Inv(RevokeSession(m, id, reason).manager)
  {
    if Known(m, id) && !m.entries[m.stored[id]].session.state.Revoked? {
      var r := m.stored[id];
      RevokedOk(m.entries[r], reason);
      RevokeRecordInv(m, r, reason);
    }
  }

  lemma {:induction false} RevokeEachInv(m: Manager, ids: seq<Text>, reason: Text)
    requires Inv(m)
    ensures Inv(RevokeEach(m, ids, reason))
    decreases |ids|
  {
    if ids != [] {
      RevokeInv(m, ids[0], reason);
      RevokeEachInv(RevokeSession(m, ids[0], reason).manager, ids[1..], reason);
    }
  }

  lemma RevokeNamedInv(m: Manager, env: Env, principal: Text, key: Text, reason: Text)
    requires Inv(m)
    ensures Inv(RevokeNamedSession(m, env, principal, key, reason).manager)
  {
    match NamedId(m, env, principal, key) {
      case Err(_) =>
      case Ok(k) =>
        if k in m.reusable && m.reusable[k] != [] {
          assert Known(m, m.reusable[k]) && Named(m.entries[m.stored[m.reusable[k]]], k);
          RevokeInv(m, m.reusable[k], reason);
        }
    }
  }

  /** Setting where the start of a record stands touches no map and no tombstone. */
  lemma SettledFrame(m: Manager, r: nat, start: Start)
    requires StoredExact(m) && NamedExact(m) && FewTombstones(m) && r < |m.entries|
    ensures var settled := Put(m, r, m.entries[r].(start := start));
      StoredExact(settled) && NamedExact(settled) && FewTombstones(settled)
  {
    var settled := Put(m, r, m.entries[r].(start := start));
    SameOwnersMaps(m, settled);
    SameOwnersTombstones(m, settled, |m.entries|);
    SameClosing(m.entries, settled.entries);
  }

  lemma StartFailedRevoked(m: Manager, r: nat, start: Start)
    requires Inv(m) && r < |m.entries| && m.entries[r].session.state.Revoked?
    requires (start.Rejected? && m.entries[r].start.Starting?) || (start.Resolved? && m.entries[r].start.LateClosing?)
    ensures Inv(StartFailed(m, r, start))
  {
    var e := m.entries[r].(start := start);
    var settled := Put(m, r, e);
    SettledFrame(m, r, start);
    assert EntryOk(m.entries[r]);
    assert EntryOk(e);
    assert EntriesOk(settled);
    RevokeInv(settled, m.entries[r].session.id, Ascii("relayStartFailed"));
  }

  lemma StartFailedHeld(m: Manager, r: nat)
    requires Inv(m) && r < |m.entries| && !m.entries[r].session.state.Revoked? && m.entries[r].start.Starting?
    ensures Inv(StartFailed(m, r, Rejected))
  {
    var e := m.entries[r];
    var settled := Put(m, r, e.(start := Rejected));
    var reason := Ascii("relayStartFailed");
    SettledFrame(m, r, Rejected);
    assert Live(settled, r) && EntryOk(e);
    RejectedOk(e, reason);
    RevokeRecordInv(settled, r, reason);
    assert StartFailed(m, r, Rejected) == RevokeRecord(settled, r, reason);
  }

  lemma StartFailedInv(m: Manager, r: nat, start: Start)
    requires Inv(m) && r < |m.entries|
    requires (start.Rejected? && m.entries[r].start.Starting?) || (start.Resolved? && m.entries[r].start.LateClosing?)
    ensures Inv(StartFailed(m, r, start))
  {
    assert EntryOk(m.entries[r]);
    if m.entries[r].session.state.Revoked? {
      StartFailedRevoked(m, r, start);
    } else {
      StartFailedHeld(m, r);
    }
  }

  lemma SettledOk(e: Entry, ok: bool)
    requires EntryOk(e) && e.closing.ClosingRelay?
    ensures EntryOk(e.(closing := if ok then CloseDone else CloseFailed))
  {
  }

  lemma CloseSettledInv(m: Manager, r: nat, ok: bool)
    requires Inv(m) && r < |m.entries| && m.entries[r].closing.ClosingRelay?
    ensures Inv(CloseSettled(m, r, ok))
  {
    var e := m.entries[r].(closing := if ok then CloseDone else CloseFailed);
    SettledOk(m.entries[r], ok);
    ReplacedInv(m, r, e);
  }

  /** Putting back a well-formed record of the same owner, then compacting. */
  lemma ReplacedInv(m: Manager, r: nat, e: Entry)
    requires Inv(m) && r < |m.entries| && EntryOk(e) && SameOwner(m.entries[r], e)
    ensures Inv(Compacted(Put(m, r, e)))
  {
    var done := Put(m, r, e);
    SameOwnersMaps(m, done);
    CompactedMaps(done);
    CompactionKeepsNewest(done);
  }

  // ----- opening

  lemma {:induction false} AddedTombstones(m: Manager, n: Manager, id: Text, upTo: nat)
    requires upTo <= |m.entries| && |n.entries| == |m.entries| + 1 && n.entries[..|m.entries|] == m.entries
    requires id !in m.stored && n.stored == m.stored[id := |m.entries|]
    ensures RevokedUpTo(n, upTo) == RevokedUpTo(m, upTo)
  {
    if upTo > 0 {
      AddedTombstones(m, n, id, upTo - 1);
      assert n.entries[upTo - 1] == m.entries[upTo - 1];
    }
  }

  /** By exactness of the index, a key whose session may be opened anew is not in the index at all. */
  lemma KeyIsFree(m: Manager, q: Request, key: Text)
    requires StoredExact(m) && NamedExact(m)
    requires Existing(m, q, Some(key)).Some? ==> Existing(m, q, Some(key)).value.session.state.Revoked?
    ensures (q.principal, key) !in m.reusable
  {
  }

  function WithEntry(m: Manager, e: Entry): Manager {
    Manager(m.entries + [e], m.stored[e.session.id := |m.entries|],
      if e.key.Some? then m.reusable[(e.session.principal, e.key.value) := e.session.id] else m.reusable)
  }

  lemma AddedMaps(m: Manager, e: Entry)
    requires StoredExact(m) && NamedExact(m)
    requires e.session.state.Pending? && e.session.id !in m.stored
    requires e.key.Some? ==> (e.session.principal, e.key.value) !in m.reusable
    ensures StoredExact(WithEntry(m, e)) && NamedExact(WithEntry(m, e))
  {
    var n := WithEntry(m, e);
    forall r | 0 <= r < |n.entries| && !n.entries[r].session.state.Revoked? ensures Live(n, r) {
      assert r < |m.entries| ==> n.entries[r] == m.entries[r] && Live(m, r);
    }
    forall k | k in n.reusable ensures Known(n, n.reusable[k]) && Named(n.entries[n.stored[n.reusable[k]]], k) {
      if e.key.Some? && k == (e.session.principal, e.key.value) {
        assert n.entries[|m.entries|] == e;
      } else {
        assert Named(m.entries[m.stored[m.reusable[k]]], k);
      }
    }
    forall r, k | 0 <= r < |n.entries| && Named(n.entries[r], k)
      ensures k in n.reusable && n.reusable[k] == n.entries[r].session.id
    {
      if r < |m.entries| {
        assert Named(m.entries[r], k);
      }
    }
  }

  lemma AddedFew(m: Manager, e: Entry)
    requires FewTombstones(m) && e.session.state.Pending? && e.closing.NotRevoking? && e.session.id !in m.stored
    ensures FewTombstones(WithEntry(m, e))
  {
    var n := WithEntry(m, e);
    AddedTombstones(m, n, e.session.id, |m.entries|);
    assert n.entries[..|n.entries| - 1] == m.entries;
    assert RevokedUpTo(n, |n.entries|) == RevokedUpTo(m, |m.entries|);
  }

  lemma AddInv(m: Manager, e: Entry)
    requires Inv(m) && EntryOk(e)
    requires e.session.state.Pending? && e.session.id !in m.stored
    requires e.key.Some? ==> (e.session.principal, e.key.value) !in m.reusable
    ensures Inv(WithEntry(m, e))
  {
    AddedMaps(m, e);
    AddedFew(m, e);
    var n := WithEntry(m, e);
    forall r | 0 <= r < |n.entries| ensures EntryOk(n.entries[r]) {
      if r < |m.entries| {
        assert n.entries[r] == m.entries[r];
      }
    }
  }

  lemma OpenInv(m: Manager, env: Env, input: OpenInput, id: Text, now: int)
    requires Inv(m)
    ensures Inv(OpenSession(m, env, input, id, now).manager)
  {
    match Validate(env, input) {
      case Err(_) =>
      case Ok(q) =>
        var existing := Existing(m, q, input.key);
        if existing.None? || existing.value.session.state.Revoked? {
          if input.key.Some? {
            KeyIsFree(m, q, input.key.value);
            assert m.reusable - {(q.principal, input.key.value)} == m.reusable;
          }
          var session := NewSession(q, id, now, input.ttlMs);
          OpenedOk(session, input.key);
          if id !in m.stored {
            AddInv(m, Opened(session, input.key));
          }
        }
    }
  }

  // ----- the remaining calls

  lemma ApproveInv(m: Manager, id: Text)
    requires Inv(m)
    ensures Inv(ApproveSession(m, id).manager)
  {
    if Known(m, id) && m.entries[m.stored[id]].session.state.Pending? {
      ApprovedOk(m.entries[m.stored[id]]);
      PutInv(m, m.stored[id], Approved(m.entries[m.stored[id]]));
    }
  }

  lemma ReadyInv(m: Manager, id: Text)
    requires Inv(m)
    ensures Inv(ReadySession(m, id).manager)
  {
    if Known(m, id) && m.entries[m.stored[id]].relay.Some? {
      ReadiedOk(m.entries[m.stored[id]]);
      PutInv(m, m.stored[id], Readied(m.entries[m.stored[id]]));
    }
  }

  lemma FailInv(m: Manager, id: Text, reason: Text, now: int)
    requires Inv(m)
    ensures Inv(FailRelay(m, id, reason, now).manager)
  {
    if Known(m, id) {
      var e := m.entries[m.stored[id]];
      if e.ready && e.session.state in {Active, Reconnecting} {
        RecoveringOk(e, now);
        PutInv(m, m.stored[id], Recovering(e, now));
      } else {
        RevokeInv(m, id, reason);
      }
    }
  }

  lemma UpgradeInv(m: Manager, env: Env, id: Text, delta: Delta, expected: Access)
    requires Inv(m)
    ensures Inv(ApplyUpgrade(m, env, id, delta, expected).manager)
  {
    if Known(m, id) {
      var e := m.entries[m.stored[id]];
      match UpgradeSessionAccess(env.host, e.session.access, delta) {
        case Err(_) =>
        case Ok(access) =>
          var upgraded := e.(session := e.session.(access := access));
          assert EntryOk(upgraded);
          PutInv(m, m.stored[id], upgraded);
      }
    }
  }

  lemma ResolvedInv(m: Manager, r: nat, relay: Relay)
    requires Inv(m) && r < |m.entries| && m.entries[r].start.Starting?
    ensures Inv(RelayResolved(m, r, relay))
  {
    DeliveredOk(m.entries[r], relay);
    PutInv(m, r, Delivered(m.entries[r], relay));
  }

  // ----- every run

  lemma NextInv(m: Manager, env: Env, event: Event)
    requires Inv(m) && Enabled(m, event)
    ensures Inv(Next(m, env, event))
  {
    match event {
      case Open(input, id, now) => OpenInv(m, env, input, id, now);
      case Approve(id) => ApproveInv(m, id);
      case RelayReady(id) => ReadyInv(m, id);
      case RelayFailed(id, reason, now) => FailInv(m, id, reason, now);
      case Suspend(now) => SuspendInv(m, now);
      case Revoke(id, reason) => RevokeInv(m, id, reason);
      case RevokeNamed(principal, key, reason) => RevokeNamedInv(m, env, principal, key, reason);
      case RevokeMany(ids, reason) => RevokeEachInv(m, ids, reason);
      case Upgrade(id, delta, expected) => UpgradeInv(m, env, id, delta, expected);
      case StartResolved(r, relay) => ResolvedInv(m, r, relay);
      case StartRejected(r) => StartFailedInv(m, r, Rejected);
      case LateCloseSettled(r) => StartFailedInv(m, r, Resolved);
      case RelayCloseSettled(r, ok) => CloseSettledInv(m, r, ok);
      case TtlFires(r) => RevokeInv(m, m.entries[r].session.id, Ascii("ttlExpired"));
      case RecoveryFires(r) => RevokeInv(m, m.entries[r].session.id, Ascii("relayRecoveryExpired"));
    }
  }

  lemma {:induction false} RunInv(m: Manager, env: Env, trace: seq<Event>)
    requires Inv(m) && Legal(m, env, trace)
    ensures Inv(Run(m, env, trace))
    decreases |trace|
  {
    if trace != [] {
      NextInv(m, env, trace[0]);
      RunInv(Next(m, env, trace[0]), env, trace[1..]);
    }
  }

  lemma EmptyInv()
    ensures Inv(EMPTY)
  {
  }

  // ----- the theorems

  lemma Reached(env: Env, trace: seq<Event>)
    requires Legal(EMPTY, env, trace)
    ensures Inv(Run(EMPTY, env, trace))
  {
    EmptyInv();
    RunInv(EMPTY, env, trace);
  }

  /**
   * Over every interleaving a session starts at most one relay. Once that relay has been obtained it is either held
   * by an active or reconnecting session and was never closed, or its session is revoked and it was closed exactly
   * once; a relay that was never obtained is never closed.
   */
  lemma RelayConservation(env: Env, trace: seq<Event>, r: nat)
    requires Legal(EMPTY, env, trace) && r < |Run(EMPTY, env, trace).entries|
    ensures var e := Run(EMPTY, env, trace).entries[r];
      && Starts(e.history) <= 1 && Closes(e.history) <= Starts(e.history)
      && (e.start.Resolved? || e.start.LateClosing? ==>
            || (e.relay.Some? && Working(e) && Closes(e.history) == 0)
            || (e.relay.None? && e.session.state.Revoked? && Closes(e.history) == 1))
      && (e.start.NotStarted? || e.start.Starting? || e.start.Rejected? ==> e.relay.None? && Closes(e.history) == 0)
      && (e.start.NotStarted? <==> Starts(e.history) == 0)
  {
    Reached(env, trace);
    assert EntryOk(Run(EMPTY, env, trace).entries[r]);
  }

  /** Every session's notices follow the lifecycle and end on its state; flags and timers agree with the state. */
  lemma SessionLifecycle(env: Env, trace: seq<Event>, r: nat)
    requires Legal(EMPTY, env, trace) && r < |Run(EMPTY, env, trace).entries|
    ensures var e := Run(EMPTY, env, trace).entries[r];
      && Lifecycle(Notices(e.history))
      && LastSays(Notices(e.history)[|Notices(e.history)| - 1], e.session.state, e.ready)
      && (e.ready ==> e.session.state.Active? && e.relay.Some?)
      && (e.recoveryAt.Some? <==> e.session.state.Reconnecting?)
      && (e.ttlArmed <==> e.session.expiresAt.Some? && !e.session.state.Revoked?)
  {
    Reached(env, trace);
    assert EntryOk(Run(EMPTY, env, trace).entries[r]);
  }

  /** Each (principal, key) in the index names the one stored session that is not revoked, and no other is named. */
  lemma NamedIndexExact(env: Env, trace: seq<Event>, r: nat, k: (Text, Text))
    requires Legal(EMPTY, env, trace) && r < |Run(EMPTY, env, trace).entries|
    ensures var m := Run(EMPTY, env, trace);
      && (Named(m.entries[r], k) <==>
            k in m.reusable && m.reusable[k] == m.entries[r].session.id && Live(m, r))
      && (k in m.reusable ==> Known(m, m.reusable[k]) && Named(m.entries[m.stored[m.reusable[k]]], k))
      && (!m.entries[r].session.state.Revoked? ==> Live(m, r))
  {
    Reached(env, trace);
    var m := Run(EMPTY, env, trace);
    if k in m.reusable {
      assert Known(m, m.reusable[k]) && Named(m.entries[m.stored[m.reusable[k]]], k);
    }
  }

  /** At most 64 tombstones stay, besides those still waiting for their relay to close. */
  lemma TombstonesBounded(env: Env, trace: seq<Event>)
    requires Legal(EMPTY, env, trace)
    ensures var m := Run(EMPTY, env, trace);
      |Tombstones(m)| <= MAX_REVOKED_TASK_SESSION_TOMBSTONES + ClosingCount(m.entries)
  {
    Reached(env, trace);
  }

  // ----- what one step may change of a record

  /** A record keeps its identity and its past; revoked is final; a running recovery deadline is never moved. */
  predicate Evolves(a: Entry, b: Entry) {
    && b.session == a.session.(state := b.session.state, access := b.session.access) && b.key == a.key
    && a.history <= b.history
    && (a.session.state.Revoked? ==> b.session == a.session && !b.ready && b.relay.None? == a.relay.None?)
    && (a.recoveryAt.Some? && b.recoveryAt.Some? ==> a.recoveryAt == b.recoveryAt)
    && (a.relay.Some? && !b.session.state.Revoked? ==> b.relay == a.relay)
    && (a.closing.CloseDone? || a.closing.CloseFailed? ==> b.closing == a.closing)
    && (a.closing.ClosingRelay? ==> !b.closing.NotRevoking?)
  }

  predicate Kept(a: Entry, b: Entry) { Evolves(a, b) && b.session.access == a.session.access }

  ghost predicate AllKept(m: Manager, n: Manager) {
    |m.entries| <= |n.entries| && forall r :: 0 <= r < |m.entries| ==> Kept(m.entries[r], n.entries[r])
  }

  lemma KeptItself(e: Entry)
    requires EntryOk(e)
    ensures Kept(e, e)
  {
  }

  lemma UnchangedKept(m: Manager)
    requires EntriesOk(m)
    ensures AllKept(m, m)
  {
  }

  lemma PutKept(m: Manager, r: nat, e: Entry)
    requires EntriesOk(m) && r < |m.entries| && Kept(m.entries[r], e)
    ensures AllKept(m, Put(m, r, e))
  {
    forall i | 0 <= i < |m.entries| ensures Kept(m.entries[i], Put(m, r, e).entries[i]) {
      KeptItself(m.entries[i]);
    }
  }

  predicate Gone(a: Entry, b: Entry, reason: Text) {
    b == a || (!a.session.state.Revoked? && b == RevokedEntry(a, reason))
  }

  ghost predicate OnlyRevokes(m: Manager, n: Manager, reason: Text) {
    |m.entries| == |n.entries| && forall r :: 0 <= r < |m.entries| ==> Gone(m.entries[r], n.entries[r], reason)
  }

  lemma RevokeOnlyRevokes(m: Manager, id: Text, reason: Text)
    ensures OnlyRevokes(m, RevokeSession(m, id, reason).manager, reason)
  {
  }

  lemma {:induction false} RevokeEachOnlyRevokes(m: Manager, ids: seq<Text>, reason: Text)
    ensures OnlyRevokes(m, RevokeEach(m, ids, reason), reason)
    decreases |ids|
  {
    if ids != [] {
      var next := RevokeSession(m, ids[0], reason).manager;
      RevokeOnlyRevokes(m, ids[0], reason);
      RevokeEachOnlyRevokes(next, ids[1..], reason);
      var last := RevokeEach(next, ids[1..], reason);
      forall r | 0 <= r < |m.entries| ensures Gone(m.entries[r], last.entries[r], reason) {
        assert Gone(m.entries[r], next.entries[r], reason) && Gone(next.entries[r], last.entries[r], reason);
      }
    }
  }

  lemma GoneKept(a: Entry, b: Entry, reason: Text)
    requires EntryOk(a) && Gone(a, b, reason)
    ensures Kept(a, b)
  {
    if b != a {
      assert a.history <= b.history;
    }
  }

  lemma OnlyRevokesKept(m: Manager, n: Manager, reason: Text)
    requires EntriesOk(m) && OnlyRevokes(m, n, reason)
    ensures AllKept(m, n)
  {
    forall r | 0 <= r < |m.entries| ensures Kept(m.entries[r], n.entries[r]) {
      assert Gone(m.entries[r], n.entries[r], reason);
      GoneKept(m.entries[r], n.entries[r], reason);
    }
  }

  lemma StartFailedKept(m: Manager, r: nat, start: Start)
    requires EntriesOk(m) && r < |m.entries| && m.entries[r].relay.None?
    ensures AllKept(m, StartFailed(m, r, start))
  {
    var settled := Put(m, r, m.entries[r].(start := start));
    var n := StartFailed(m, r, start);
    var reason := Ascii("relayStartFailed");
    RevokeOnlyRevokes(settled, m.entries[r].session.id, reason);
    forall i | 0 <= i < |m.entries| ensures Kept(m.entries[i], n.entries[i]) {
      assert Gone(settled.entries[i], n.entries[i], reason);
      assert EntryOk(m.entries[i]);
      if i != r {
        GoneKept(m.entries[i], n.entries[i], reason);
      } else {
        GoneKept(m.entries[r], n.entries[r].(start := m.entries[r].start), reason);
      }
    }
  }

  /** The one call that changes access: from what the stored record has, by the delta, to exactly what is expected. */
  predicate Upgraded(env: Env, m: Manager, n: Manager, id: Text, delta: Delta, expected: Access) {
    && Known(m, id) && m.entries[m.stored[id]].session.state.Active?
    && UpgradeSessionAccess(env.host, m.entries[m.stored[id]].session.access, delta) == Ok(expected)
    && n ==
      Put(m, m.stored[id], m.entries[m.stored[id]].(session := m.entries[m.stored[id]].session.(access := expected)))
  }

  /**
   * Whatever happens in one step, every record keeps its identity, its past and its recovery deadline, revoked stays
   * revoked, and access stays what it was, except that an upgrade call sets one active record's access to the
   * expected value that its delta leads to.
   */
  lemma StepKeepsRecords(m: Manager, env: Env, event: Event)
    requires Inv(m) && Enabled(m, event)
    ensures var n := Next(m, env, event);
      AllKept(m, n) || (event.Upgrade? && Upgraded(env, m, n, event.id, event.delta, event.expected))
  {
    match event {
      case Open(input, id, now) => OpenKept(m, env, input, id, now);
      case Approve(id) => ApproveKept(m, id);
      case RelayReady(id) => ReadyKept(m, id);
      case RelayFailed(id, reason, now) => FailKept(m, id, reason, now);
      case Suspend(now) => SuspendKept(m, now);
      case Revoke(id, reason) => RevokedKept(m, id, reason);
      case RevokeNamed(principal, key, reason) => RevokeNamedKept(m, env, principal, key, reason);
      case RevokeMany(ids, reason) => RevokeManyKept(m, ids, reason);
      case Upgrade(id, delta, expected) => UpgradeKept(m, env, id, delta, expected);
      case StartResolved(r, relay) => ResolvedKept(m, r, relay);
      case StartRejected(r) => RejectedKept(m, r);
      case LateCloseSettled(r) => LateKept(m, r);
      case RelayCloseSettled(r, ok) => CloseSettledKept(m, r, ok);
      case TtlFires(r) => RevokedKept(m, m.entries[r].session.id, Ascii("ttlExpired"));
      case RecoveryFires(r) => RevokedKept(m, m.entries[r].session.id, Ascii("relayRecoveryExpired"));
    }
  }

  lemma ApproveKept(m: Manager, id: Text)
    requires EntriesOk(m)
    ensures AllKept(m, ApproveSession(m, id).manager)
  {
    UnchangedKept(m);
    if Known(m, id) && m.entries[m.stored[id]].session.state.Pending? {
      PutKept(m, m.stored[id], Approved(m.entries[m.stored[id]]));
    }
  }

  lemma ReadyKept(m: Manager, id: Text)
    requires EntriesOk(m)
    ensures AllKept(m, ReadySession(m, id).manager)
  {
    UnchangedKept(m);
    if Known(m, id) && m.entries[m.stored[id]].relay.Some? {
      PutKept(m, m.stored[id], Readied(m.entries[m.stored[id]]));
    }
  }

  lemma FailKept(m: Manager, id: Text, reason: Text, now: int)
    requires EntriesOk(m)
    ensures AllKept(m, FailRelay(m, id, reason, now).manager)
  {
    if Known(m, id) && m.entries[m.stored[id]].ready
      && m.entries[m.stored[id]].session.state in {Active, Reconnecting} {
      PutKept(m, m.stored[id], Recovering(m.entries[m.stored[id]], now));
    } else {
      RevokedKept(m, id, reason);
    }
  }

  lemma RevokeNamedKept(m: Manager, env: Env, principal: Text, key: Text, reason: Text)
    requires EntriesOk(m)
    ensures AllKept(m, RevokeNamedSession(m, env, principal, key, reason).manager)
  {
    UnchangedKept(m);
    match NamedId(m, env, principal, key) {
      case Err(_) =>
      case Ok(k) =>
        if k in m.reusable {
          RevokedKept(m, m.reusable[k], reason);
        }
    }
  }

  lemma RevokeManyKept(m: Manager, ids: seq<Text>, reason: Text)
    requires EntriesOk(m)
    ensures AllKept(m, RevokeEach(m, ids, reason))
  {
    RevokeEachOnlyRevokes(m, ids, reason);
    OnlyRevokesKept(m, RevokeEach(m, ids, reason), reason);
  }

  lemma UpgradeKept(m: Manager, env: Env, id: Text, delta: Delta, expected: Access)
    requires EntriesOk(m)
    ensures var n := ApplyUpgrade(m, env, id, delta, expected).manager;
      AllKept(m, n) || Upgraded(env, m, n, id, delta, expected)
  {
    UnchangedKept(m);
  }

  lemma ResolvedKept(m: Manager, r: nat, relay: Relay)
    requires EntriesOk(m) && r < |m.entries| && m.entries[r].start.Starting?
    ensures AllKept(m, RelayResolved(m, r, relay))
  {
    assert EntryOk(m.entries[r]);
    PutKept(m, r, Delivered(m.entries[r], relay));
  }

  lemma RejectedKept(m: Manager, r: nat)
    requires EntriesOk(m) && r < |m.entries| && m.entries[r].start.Starting?
    ensures AllKept(m, StartFailed(m, r, Rejected))
  {
    assert EntryOk(m.entries[r]);
    StartFailedKept(m, r, Rejected);
  }

  lemma LateKept(m: Manager, r: nat)
    requires EntriesOk(m) && r < |m.entries| && m.entries[r].start.LateClosing?
    ensures AllKept(m, StartFailed(m, r, Resolved))
  {
    assert EntryOk(m.entries[r]);
    StartFailedKept(m, r, Resolved);
  }

  lemma CloseSettledKept(m: Manager, r: nat, ok: bool)
    requires EntriesOk(m) && r < |m.entries| && m.entries[r].closing.ClosingRelay?
    ensures AllKept(m, CloseSettled(m, r, ok))
  {
    assert EntryOk(m.entries[r]);
    PutKept(m, r, m.entries[r].(closing := if ok then CloseDone else CloseFailed));
  }

  lemma RevokedKept(m: Manager, id: Text, reason: Text)
    requires EntriesOk(m)
    ensures AllKept(m, RevokeSession(m, id, reason).manager)
  {
    RevokeOnlyRevokes(m, id, reason);
    OnlyRevokesKept(m, RevokeSession(m, id, reason).manager, reason);
  }

  lemma SuspendKept(m: Manager, now: int)
    requires EntriesOk(m)
    ensures AllKept(m, SuspendAll(m, now))
  {
    forall r | 0 <= r < |m.entries| ensures Kept(m.entries[r], SuspendAll(m, now).entries[r]) {
      assert EntryOk(m.entries[r]);
    }
  }

  lemma OpenKept(m: Manager, env: Env, input: OpenInput, id: Text, now: int)
    requires Inv(m)
    ensures AllKept(m, OpenSession(m, env, input, id, now).manager)
  {
    var n := OpenSession(m, env, input, id, now).manager;
    assert n.entries[..|m.entries|] == m.entries;
    forall r | 0 <= r < |m.entries| ensures Kept(m.entries[r], n.entries[r]) {
      assert n.entries[r] == n.entries[..|m.entries|][r];
      KeptItself(m.entries[r]);
    }
  }

  /** Only opening creates records. */
  lemma OnlyOpenAdds(m: Manager, env: Env, event: Event)
    requires Enabled(m, event) && !event.Open?
    ensures |Next(m, env, event).entries| == |m.entries|
  {
    if event.RevokeMany? {
      RevokeEachOnlyRevokes(m, event.ids, event.reason);
    }
  }

  /** Upgrades included, every record evolves. */
  lemma StepEvolves(m: Manager, env: Env, event: Event, r: nat)
    requires Inv(m) && Enabled(m, event) && r < |m.entries|
    ensures r < |Next(m, env, event).entries| && Evolves(m.entries[r], Next(m, env, event).entries[r])
  {
    StepKeepsRecords(m, env, event);
    var n := Next(m, env, event);
    if AllKept(m, n) {
      assert Kept(m.entries[r], n.entries[r]);
    } else {
      UpgradedEvolves(m, n, env, event, r);
    }
  }

  lemma UpgradedEvolves(m: Manager, n: Manager, env: Env, event: Event, r: nat)
    requires Inv(m) && r < |m.entries| && event.Upgrade? && Upgraded(env, m, n, event.id, event.delta, event.expected)
    ensures r < |n.entries| && Evolves(m.entries[r], n.entries[r])
  {
    assert EntryOk(m.entries[r]);
  }

  /** The record is reconnecting in every state of a run. */
  predicate StaysReconnecting(m: Manager, env: Env, trace: seq<Event>, r: nat)
    requires Legal(m, env, trace)
    decreases |trace|
  {
    && r < |m.entries| && m.entries[r].session.state.Reconnecting?
    && (trace != [] ==> StaysReconnecting(Next(m, env, trace[0]), env, trace[1..], r))
  }

  lemma {:induction false} DeadlineHeld(m: Manager, env: Env, trace: seq<Event>, r: nat)
    requires Inv(m) && Legal(m, env, trace) && StaysReconnecting(m, env, trace, r)
    ensures r < |Run(m, env, trace).entries|
    ensures m.entries[r].recoveryAt.Some? && Run(m, env, trace).entries[r].recoveryAt == m.entries[r].recoveryAt
    decreases |trace|
  {
    assert EntryOk(m.entries[r]);
    if trace != [] {
      StepEvolves(m, env, trace[0], r);
      NextInv(m, env, trace[0]);
      DeadlineHeld(Next(m, env, trace[0]), env, trace[1..], r);
    }
  }

  /**
   * The recovery deadline of a run: however often a session is suspended or its relay fails while it stays
   * reconnecting, it ends with the deadline it began with.
   */
  lemma DeadlineNeverMoves(env: Env, before: seq<Event>, during: seq<Event>, r: nat)
    requires Legal(EMPTY, env, before) && Legal(Run(EMPTY, env, before), env, during)
    requires StaysReconnecting(Run(EMPTY, env, before), env, during, r)
    ensures var m := Run(EMPTY, env, before);
      var n := Run(m, env, during);
      && r < |n.entries| && m.entries[r].recoveryAt.Some? && n.entries[r].recoveryAt == m.entries[r].recoveryAt
  {
    Reached(env, before);
    DeadlineHeld(Run(EMPTY, env, before), env, during, r);
  }

  lemma {:induction false} AnswerHeld(m: Manager, env: Env, trace: seq<Event>, r: nat)
    requires Inv(m) && Legal(m, env, trace) && r < |m.entries| && m.entries[r].session.state.Revoked?
    ensures r < |Run(m, env, trace).entries| && Run(m, env, trace).entries[r].session == m.entries[r].session
    ensures RevokeAnswer(r, m.entries[r]).Settled? ==>
      RevokeAnswer(r, Run(m, env, trace).entries[r]) == RevokeAnswer(r, m.entries[r])
    decreases |trace|
  {
    assert EntryOk(m.entries[r]);
    if trace != [] {
      StepEvolves(m, env, trace[0], r);
      NextInv(m, env, trace[0]);
      AnswerHeld(Next(m, env, trace[0]), env, trace[1..], r);
    }
  }

  /**
   * A session is revoked with one answer: while its relay is closing every revocation waits for the same settlement,
   * the settlement decides the answer, and from then on it never changes.
   */
  lemma OneRevocationAnswer(env: Env, before: seq<Event>, later: seq<Event>, r: nat, ok: bool)
    requires Legal(EMPTY, env, before) && r < |Run(EMPTY, env, before).entries|
    requires Enabled(Run(EMPTY, env, before), RelayCloseSettled(r, ok))
    requires Legal(Next(Run(EMPTY, env, before), env, RelayCloseSettled(r, ok)), env, later)
    ensures var m := Run(EMPTY, env, before);
      var n := Run(Next(m, env, RelayCloseSettled(r, ok)), env, later);
      && RevokeAnswer(r, m.entries[r]) == AwaitsClose(r) && r < |n.entries|
      && RevokeAnswer(r, n.entries[r]) == Settled(if ok then Ok(m.entries[r].session) else Err(RelayCloseFailed))
  {
    var m := Run(EMPTY, env, before);
    Reached(env, before);
    assert EntryOk(m.entries[r]);
    NextInv(m, env, RelayCloseSettled(r, ok));
    AnswerHeld(Next(m, env, RelayCloseSettled(r, ok)), env, later, r);
  }

  /** Suspending again changes nothing: deadlines stay where the first suspension put them. */
  lemma SuspendTwice(m: Manager, first: int, second: int)
    ensures SuspendAll(SuspendAll(m, first), second) == SuspendAll(m, first)
  {
    var n := SuspendAll(m, first);
    assert SuspendAll(n, second).entries == n.entries by {
      forall r | 0 <= r < |m.entries| ensures SuspendAll(n, second).entries[r] == n.entries[r] {
        assert Live(n, r) == Live(m, r);
      }
    }
  }

  /**
   * Opening either fails and changes nothing, or returns the stored session the key then names: the working one of
   * the same authority, with nothing changed, or a fresh pending one under the offered ID.
   */
  lemma OpenOutcome(m: Manager, env: Env, input: OpenInput, id: Text, now: int)
    requires Inv(m)
    ensures var step := OpenSession(m, env, input, id, now);
      match step.result
      case Err(_) => step.manager == m
      case Ok(session) =>
        var q := Validate(env, input);
        && q.Ok?
        && Known(step.manager, session.id)
        && step.manager.entries[step.manager.stored[session.id]].session == session
        && (input.key.Some? ==>
              (q.value.principal, input.key.value) in step.manager.reusable
              && step.manager.reusable[(q.value.principal, input.key.value)] == session.id)
        && (|| (step.manager == m && session.state in {Active, Reconnecting} && SameAuthority(session, q.value))
            || (session == NewSession(q.value, id, now, input.ttlMs) && id !in m.stored
                && step.manager.entries == m.entries + [Opened(session, input.key)]))
  {
    match Validate(env, input) {
      case Err(_) =>
      case Ok(q) =>
        var existing := Existing(m, q, input.key);
        if existing.None? || existing.value.session.state.Revoked? {
          OpensNew(m, env, input, id, now, q);
          AddedOutcome(m, q, input.key, NewSession(q, id, now, input.ttlMs));
        } else {
          OpensExisting(m, env, input, id, now, q, existing.value);
        }
    }
  }

  /** With a session to reuse, opening returns it or fails, and changes nothing. */
  lemma OpensExisting(m: Manager, env: Env, input: OpenInput, id: Text, now: int, q: Request, e: Entry)
    requires StoredExact(m) && Validate(env, input) == Ok(q) && Existing(m, q, input.key) == Some(e)
    requires !e.session.state.Revoked?
    ensures var step := OpenSession(m, env, input, id, now);
      && step.manager == m
      && (step.result.Ok? ==>
            && step.result.value == e.session
            && e.session.state in {Active, Reconnecting} && SameAuthority(e.session, q)
            && input.key.Some? && (q.principal, input.key.value) in m.reusable
            && m.reusable[(q.principal, input.key.value)] == e.session.id
            && Known(m, e.session.id) && m.entries[m.stored[e.session.id]] == e)
  {
  }

  /** Without a session to reuse, opening adds one, unless its ID is taken. */
  lemma OpensNew(m: Manager, env: Env, input: OpenInput, id: Text, now: int, q: Request)
    requires StoredExact(m) && NamedExact(m) && Validate(env, input) == Ok(q)
    requires Existing(m, q, input.key).Some? ==> Existing(m, q, input.key).value.session.state.Revoked?
    ensures OpenSession(m, env, input, id, now) ==
      if id in m.stored then Step(m, Err(InvalidSession))
      else Step(Added(m, q, input.key, NewSession(q, id, now, input.ttlMs)), Ok(NewSession(q, id, now, input.ttlMs)))
  {
    if input.key.Some? {
      KeyIsFree(m, q, input.key.value);
      assert m.reusable - {(q.principal, input.key.value)} == m.reusable;
    }
    assert Cleared(m.reusable, q, input.key) == m.reusable;
  }

  lemma AddedOutcome(m: Manager, q: Request, key: Option<Text>, session: Session)
    ensures var n := Added(m, q, key, session);
      && Known(n, session.id) && n.entries[n.stored[session.id]].session == session
      && (key.Some? ==> (q.principal, key.value) in n.reusable && n.reusable[(q.principal, key.value)] == session.id)
      && n.entries == m.entries + [Opened(session, key)]
  {
  }
}
