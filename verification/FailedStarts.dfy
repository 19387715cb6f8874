/**
 * Whom a failed start revokes. The catch block of an approval revokes by ID, so it reaches the session that the ID
 * names by then: exactly when that is another, and never while no ID is opened twice.
 */
module FailedStarts {
  import opened Bytes
  import opened Results
  import opened Sorting
  import opened SessionAccess
  import opened Routes
  import opened TaskSessions
  import opened TaskSessionRuns

  // ----- one failed start

  /** The record's ID names another session by now, and that one is not revoked. */
  predicate Reassigned(m: Manager, r: nat)
    requires r < |m.entries|
  {
    var id := m.entries[r].session.id;
    Known(m, id) && m.stored[id] != r && !m.entries[m.stored[id]].session.state.Revoked?
  }

  ghost predicate OthersUntouched(m: Manager, n: Manager, r: nat) {
    |n.entries| == |m.entries| && forall i :: 0 <= i < |m.entries| && i != r ==> n.entries[i] == m.entries[i]
  }

  /** A failed start leaves every other record alone if and only if the ID has not passed to one that is not revoked. */
  lemma TouchesOthersIff(m: Manager, r: nat, start: Start)
    requires r < |m.entries|
    ensures OthersUntouched(m, StartFailed(m, r, start), r) <==> !Reassigned(m, r)
    ensures Reassigned(m, r) ==>
      var s := m.stored[m.entries[r].session.id];
      StartFailed(m, r, start).entries[s] == RevokedEntry(m.entries[s], Ascii("relayStartFailed"))
  {
    var n := StartFailed(m, r, start);
    if Reassigned(m, r) {
      var s := m.stored[m.entries[r].session.id];
      assert n.entries[s] != m.entries[s];
    }
  }

  // ----- runs that open no ID twice

  function OpenedIds(trace: seq<Event>): seq<Text>
    decreases |trace|
  {
    if trace == [] then [] else (if trace[0].Open? then [trace[0].id] else []) + OpenedIds(trace[1..])
  }

  /** Records have different IDs, and none of them is among those still to be opened. */
  ghost predicate IdsApart(m: Manager, coming: seq<Text>) {
    && (forall i, j :: 0 <= i < j < |m.entries| ==> m.entries[i].session.id != m.entries[j].session.id)
    && (forall i :: 0 <= i < |m.entries| ==> m.entries[i].session.id !in coming)
    && Distinct(coming)
  }

  ghost predicate SameIds(m: Manager, n: Manager) {
    |m.entries| <= |n.entries| && forall i :: 0 <= i < |m.entries| ==>
      n.entries[i].session.id == m.entries[i].session.id
  }

  lemma StepKeepsIds(m: Manager, env: Env, event: Event)
    requires Inv(m) && Enabled(m, event)
    ensures SameIds(m, Next(m, env, event))
    ensures !event.Open? ==> |Next(m, env, event).entries| == |m.entries|
    ensures event.Open? ==>
      var n := Next(m, env, event);
      |n.entries| == |m.entries| || (|n.entries| == |m.entries| + 1 && n.entries[|m.entries|].session.id == event.id)
  {
    var n := Next(m, env, event);
    forall i | 0 <= i < |m.entries| ensures i < |n.entries| && n.entries[i].session.id == m.entries[i].session.id {
      StepEvolves(m, env, event, i);
    }
    if event.Open? {
      OpenOutcome(m, env, event.input, event.id, event.now);
    } else {
      OnlyOpenAdds(m, env, event);
    }
  }

  lemma SameIdsApart(m: Manager, n: Manager, coming: seq<Text>)
    requires IdsApart(m, coming) && SameIds(m, n) && |n.entries| == |m.entries|
    ensures IdsApart(n, coming)
  {
  }

  lemma OneMoreApart(m: Manager, n: Manager, id: Text, coming: seq<Text>)
    requires IdsApart(m, [id] + coming) && SameIds(m, n)
    requires |n.entries| == |m.entries| + 1 && n.entries[|m.entries|].session.id == id
    ensures IdsApart(n, coming)
  {
    FewerApart(m, id, coming);
    var all := [id] + coming;
    forall i | 0 <= i < |m.entries| ensures n.entries[i].session.id != id && n.entries[i].session.id !in coming {
      assert all[0] == id && m.entries[i].session.id !in all;
    }
    assert id !in coming by {
      forall k | 0 <= k < |coming| ensures coming[k] != id {
        assert all[0] != all[k + 1];
      }
    }
  }

  lemma FewerApart(m: Manager, id: Text, coming: seq<Text>)
    requires IdsApart(m, [id] + coming)
    ensures IdsApart(m, coming)
  {
    var all := [id] + coming;
    assert Distinct(coming) by {
      forall i, j | 0 <= i < j < |coming| ensures coming[i] != coming[j] {
        assert all[i + 1] != all[j + 1];
      }
    }
    forall i | 0 <= i < |m.entries| ensures m.entries[i].session.id !in coming {
      assert m.entries[i].session.id !in all;
    }
  }

  lemma NextApart(m: Manager, env: Env, event: Event, coming: seq<Text>)
    requires Inv(m) && Enabled(m, event)
    requires IdsApart(m, (if event.Open? then [event.id] else []) + coming)
    ensures IdsApart(Next(m, env, event), coming)
  {
    var n := Next(m, env, event);
    StepKeepsIds(m, env, event);
    if event.Open? {
      if |n.entries| == |m.entries| {
        FewerApart(m, event.id, coming);
        SameIdsApart(m, n, coming);
      } else {
        OneMoreApart(m, n, event.id, coming);
      }
    } else {
      assert [] + coming == coming;
      SameIdsApart(m, n, coming);
    }
  }

  lemma {:induction false} RunApart(m: Manager, env: Env, trace: seq<Event>)
    requires Inv(m) && Legal(m, env, trace) && IdsApart(m, OpenedIds(trace))
    ensures IdsApart(Run(m, env, trace), [])
    decreases |trace|
  {
    if trace != [] {
      NextApart(m, env, trace[0], OpenedIds(trace[1..]));
      NextInv(m, env, trace[0]);
      RunApart(Next(m, env, trace[0]), env, trace[1..]);
    }
  }

  /** As long as no run opens an ID twice, no failed start touches another session. */
  lemma FailedStartsStayHome(env: Env, trace: seq<Event>, event: Event)
    requires Legal(EMPTY, env, trace) && Distinct(OpenedIds(trace))
    requires event.StartRejected? || event.LateCloseSettled?
    requires Enabled(Run(EMPTY, env, trace), event)
    ensures OthersUntouched(Run(EMPTY, env, trace), Next(Run(EMPTY, env, trace), env, event), event.r)
  {
    var m := Run(EMPTY, env, trace);
    EmptyInv();
    RunApart(EMPTY, env, trace);
    Reached(env, trace);
    TouchesOthersIff(m, event.r, if event.StartRejected? then Rejected else Resolved);
  }

  /** And in any run at all, it touches another exactly when its ID has passed on. */
  lemma FailedStartTouchesIff(env: Env, trace: seq<Event>, event: Event)
    requires Legal(EMPTY, env, trace)
    requires event.StartRejected? || event.LateCloseSettled?
    requires Enabled(Run(EMPTY, env, trace), event)
    ensures var m := Run(EMPTY, env, trace);
      OthersUntouched(m, Next(m, env, event), event.r) <==> !Reassigned(m, event.r)
  {
    TouchesOthersIff(Run(EMPTY, env, trace), event.r, if event.StartRejected? then Rejected else Resolved);
  }

  // ----- a run in which it happens

  function Name(i: nat): (t: Text)
    ensures |t| == i + 1
  {
    seq(i + 1, _ => 0x61)
  }

  function PlainEnv(): Env { Env(Host(t => t, t => None), t => t, Name(0)) }

  function Ask(): OpenInput { OpenInput(Name(0), Name(0), Name(0), Cdp(), Some(Full), [], [], None, None, None) }

  function Asked(): Request {
    Request(Name(0), Name(0), Name(0), Access(Full, [], []), LocalRoute(Name(0), Name(0), Access(Full, [], [])))
  }

  function Opening(id: Text, now: int): Event { Open(Ask(), id, now) }

  function Revoking(id: Text): Event { Revoke(id, []) }

  lemma AskIsValid()
    ensures Validate(PlainEnv(), Ask()) == Ok(Asked())
  {
    assert Dedupe<int>([]) == [] && Sort(IntLess, []) == [];
    assert Dedupe<Text>([]) == [] && Sort(TextLess, []) == [];
    assert NormalizeSessionAccess(PlainEnv().host, Some(Full), [], []) == Ok(Access(Full, [], []));
    assert Trimmed(PlainEnv(), Name(0), 256) == Some(Name(0)) && Trimmed(PlainEnv(), Name(0), 128) == Some(Name(0));
  }

  lemma OpensFresh(m: Manager, id: Text, now: int)
    requires id !in m.stored
    ensures Next(m, PlainEnv(), Opening(id, now)) == Added(m, Asked(), None, NewSession(Asked(), id, now, None))
  {
    AskIsValid();
  }

  predicate Buried(m: Manager, i: nat) {
    Tombstone(m, i) && m.entries[i].session.id == Name(i) && m.entries[i].session.createdAt == i
  }

  /**
   * Sessions 0, 1, …, k - 1 were opened at times 0, 1, …, k - 1 and are revoked; the start of the first still waits.
   */
  ghost predicate Aged(m: Manager, k: nat) {
    && |m.entries| == k && m.reusable == map[]
    && (forall i :: 0 <= i < k ==> Buried(m, i))
    && (forall id :: id in m.stored ==> m.stored[id] < k && id == Name(m.stored[id]))
    && (k > 0 ==> m.entries[0].start.Starting?)
  }

  lemma {:induction false} FewRevoked(m: Manager, n: nat)
    requires n <= |m.entries|
    ensures |RevokedUpTo(m, n)| <= n
  {
    if n > 0 {
      FewRevoked(m, n - 1);
    }
  }

  /** Up to 64 records there is nothing to compact. */
  lemma NothingToCompact(m: Manager)
    requires |m.entries| <= MAX_REVOKED_TASK_SESSION_TOMBSTONES
    ensures Compacted(m) == m
  {
    FewRevoked(m, |m.entries|);
    assert Excess(m) == 0;
    assert Without(m.stored, []) == m.stored;
  }

  /** The records and maps after revoking record k, the newest, before compaction. */
  lemma BuriedNext(m: Manager, k: nat, e: Entry, n: Manager)
    requires |m.entries| == k && m.reusable == map[] && (forall i :: 0 <= i < k ==> Buried(m, i))
    requires forall id :: id in m.stored ==> m.stored[id] < k && id == Name(m.stored[id])
    requires e.session.state.Revoked? && e.session.id == Name(k) && e.session.createdAt == k
    requires n == Manager(m.entries + [e], m.stored[Name(k) := k], map[])
    requires k > 0 ==> m.entries[0].start.Starting?
    requires k == 0 ==> e.start.Starting?
    ensures Aged(n, k + 1)
  {
    forall i | 0 <= i < k + 1 ensures Buried(n, i) {
      if i < k {
        assert Buried(m, i) && n.entries[i] == m.entries[i];
        assert |Name(i)| != |Name(k)|;
      }
    }
  }

  lemma FreshName(m: Manager, k: nat)
    requires Aged(m, k)
    ensures Name(k) !in m.stored
  {
    assert |Name(k)| == k + 1;
  }

  lemma RevokesNewest(m: Manager, k: nat, e: Entry)
    requires |m.entries| == k + 1 && m.entries[k] == e && e.session.id == Name(k)
    requires Name(k) in m.stored && m.stored[Name(k)] == k && m.reusable == map[]
    requires !e.session.state.Revoked? && e.relay.None? && e.key.None?
    ensures Next(m, PlainEnv(), Revoking(Name(k))) == Compacted(m.(entries := m.entries[k := RevokedEntry(e, [])]))
  {
  }

  /** The first round also asks for the relay, whose start is left waiting. */
  lemma FirstRound() returns (m: Manager)
    ensures var trace := [Opening(Name(0), 0), Approve(Name(0)), Revoking(Name(0))];
      Legal(EMPTY, PlainEnv(), trace) && m == Run(EMPTY, PlainEnv(), trace)
    ensures Aged(m, 1)
  {
    var env := PlainEnv();
    var e0, e1, e2 := Opening(Name(0), 0), Approve(Name(0)), Revoking(Name(0));
    OpensFresh(EMPTY, Name(0), 0);
    var m1 := Next(EMPTY, env, e0);
    var m2 := Next(m1, env, e1);
    var asked := Approved(Opened(NewSession(Asked(), Name(0), 0, None), None));
    assert m2.entries == [asked];
    RevokesNewest(m2, 0, asked);
    m := Next(m2, env, e2);
    var revoked := RevokedEntry(asked, []);
    NothingToCompact(m2.(entries := m2.entries[0 := revoked]));
    assert m.entries == EMPTY.entries + [revoked];
    BuriedNext(EMPTY, 0, revoked, m);
    ThreeSteps(EMPTY, env, e0, e1, e2);
  }

  lemma ThreeSteps(m: Manager, env: Env, a: Event, b: Event, c: Event)
    requires a.Open? && b.Approve? && c.Revoke?
    ensures Legal(m, env, [a, b, c]) && Run(m, env, [a, b, c]) == Next(Next(Next(m, env, a), env, b), env, c)
  {
    var n := Next(Next(m, env, a), env, b);
    assert [a, b, c][1..] == [b, c] && [b, c][1..] == [c] && [c][1..] == [];
    assert Legal(n, env, [c]) && Run(n, env, [c]) == Next(n, env, c);
    assert Legal(Next(m, env, a), env, [b, c]) && Run(Next(m, env, a), env, [b, c]) == Next(n, env, c);
  }

  lemma TwoSteps(m: Manager, env: Env, a: Event, b: Event)
    requires a.Open? && b.Revoke?
    ensures Legal(m, env, [a, b]) && Run(m, env, [a, b]) == Next(Next(m, env, a), env, b)
  {
    var n := Next(m, env, a);
    assert [a, b][1..] == [b] && [b][1..] == [];
    assert Legal(n, env, [b]) && Run(n, env, [b]) == Next(n, env, b);
  }

  /** A later round: session k is opened at time k and revoked; what is left of compaction is the caller's. */
  lemma LaterRound(m: Manager, k: nat) returns (buried: Manager)
    requires Aged(m, k) && k > 0
    ensures Aged(buried, k + 1)
    ensures var trace := [Opening(Name(k), k), Revoking(Name(k))];
      Legal(m, PlainEnv(), trace) && Run(m, PlainEnv(), trace) == Compacted(buried)
  {
    var env := PlainEnv();
    var pending := Opened(NewSession(Asked(), Name(k), k, None), None);
    FreshName(m, k);
    OpensFresh(m, Name(k), k);
    var m1 := Next(m, env, Opening(Name(k), k));
    assert m1.entries[k] == pending;
    RevokesNewest(m1, k, pending);
    var revoked := RevokedEntry(pending, []);
    buried := m1.(entries := m1.entries[k := revoked]);
    assert buried.entries == m.entries + [revoked];
    BuriedNext(m, k, revoked, buried);
    TwoSteps(m, env, Opening(Name(k), k), Revoking(Name(k)));
  }

  lemma {:induction false} RunOn(m: Manager, env: Env, first: seq<Event>, more: seq<Event>)
    requires Legal(m, env, first) && Legal(Run(m, env, first), env, more)
    ensures Legal(m, env, first + more) && Run(m, env, first + more) == Run(Run(m, env, first), env, more)
    decreases |first|
  {
    if first == [] {
      assert first + more == more;
    } else {
      RunOn(Next(m, env, first[0]), env, first[1..], more);
      assert (first + more)[1..] == first[1..] + more;
    }
  }

  lemma {:induction false} Rounds(k: nat) returns (trace: seq<Event>)
    requires 1 <= k <= MAX_REVOKED_TASK_SESSION_TOMBSTONES
    ensures Legal(EMPTY, PlainEnv(), trace) && Aged(Run(EMPTY, PlainEnv(), trace), k)
  {
    if k == 1 {
      var m := FirstRound();
      trace := [Opening(Name(0), 0), Approve(Name(0)), Revoking(Name(0))];
    } else {
      var before := Rounds(k - 1);
      var m := Run(EMPTY, PlainEnv(), before);
      var buried := LaterRound(m, k - 1);
      NothingToCompact(buried);
      var round := [Opening(Name(k - 1), k - 1), Revoking(Name(k - 1))];
      RunOn(EMPTY, PlainEnv(), before, round);
      trace := before + round;
    }
  }

  function UpTo(n: nat): (s: seq<nat>)
    ensures |s| == n
  {
    seq(n, i requires 0 <= i < n => i)
  }

  lemma {:induction false} AllRevoked(m: Manager, k: nat, n: nat)
    requires Aged(m, k) && n <= k
    ensures RevokedUpTo(m, n) == UpTo(n)
  {
    if n > 0 {
      AllRevoked(m, k, n - 1);
      assert Buried(m, n - 1);
    }
  }

  /** The 65th tombstone pushes out the first. */
  lemma OldestGoes(m: Manager)
    requires Aged(m, MAX_REVOKED_TASK_SESSION_TOMBSTONES + 1)
    ensures var c := Compacted(m); c.entries == m.entries && c.reusable == map[] && Name(0) !in c.stored
  {
    var k := MAX_REVOKED_TASK_SESSION_TOMBSTONES + 1;
    AllRevoked(m, k, k);
    OlderOrder(m.entries);
    forall i, j | 0 <= i < j < k ensures Older(m.entries)(UpTo(k)[i], UpTo(k)[j]) {
      assert Buried(m, i) && Buried(m, j);
    }
    SortIdempotent(Older(m.entries), UpTo(k));
    assert Tombstones(m)[..Excess(m)] == [0];
    if Name(0) in m.stored {
      assert |Name(m.stored[Name(0)])| == |Name(0)|;
    }
  }

  lemma OneStep(m: Manager, env: Env, a: Event)
    requires Enabled(m, a)
    ensures Legal(m, env, [a]) && Run(m, env, [a]) == Next(m, env, a)
  {
    assert [a][1..] == [];
  }

  /**
   * It happens: session 0 is approved and revoked while its relay starts; 64 newer tombstones push its own out; its
   * ID is opened again, as session 65; then the start of session 0 fails, and session 65 is revoked.
   */
  lemma ReopenedIdRevoked() returns (trace: seq<Event>)
    ensures Legal(EMPTY, PlainEnv(), trace)
    ensures var m := Run(EMPTY, PlainEnv(), trace);
      && |m.entries| == 66 && m.entries[65].session.id == m.entries[0].session.id
        && m.entries[65].session.state.Pending?
      && Enabled(m, StartRejected(0)) && Reassigned(m, 0)
      && Next(m, PlainEnv(), StartRejected(0)).entries[65].session.state.Revoked?
  {
    var env := PlainEnv();
    var before := Rounds(64);
    var buried := LaterRound(Run(EMPTY, env, before), 64);
    var round := [Opening(Name(64), 64), Revoking(Name(64))];
    RunOn(EMPTY, env, before, round);
    var m := Run(EMPTY, env, before + round);
    OldestGoes(buried);
    OpensFresh(m, Name(0), 65);
    OneStep(m, env, Opening(Name(0), 65));
    RunOn(EMPTY, env, before + round, [Opening(Name(0), 65)]);
    trace := before + round + [Opening(Name(0), 65)];
    assert Buried(buried, 0);
    TouchesOthersIff(Run(EMPTY, env, trace), 0, Rejected);
  }
}
