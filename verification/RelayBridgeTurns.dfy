/**
 * Auxiliary sessions when socket messages and timers come one per turn of the event loop, all continuations having
 * run in between; and what can go wrong when two messages share a turn.
 */
module RelayBridgeTurns {
  import opened Bytes
  import opened Results
  import opened RelayBridge
  import opened RelayBridgeRuns
  import CanonicalJson

  /** A continuation, or the end of dispose, which waits for nothing but continuations and its own timer. */
  predicate Continues(event: Event) { event.RunJob? || event.DisposeEnds? }

  /** Messages, timers and closings come only once every continuation has run. */
  predicate OnePerTurn(b: Bridge, trace: seq<Event>)
    requires Legal(b, trace)
    decreases |trace|
  {
    trace != [] ==> (Continues(trace[0]) || b.jobs == []) && OnePerTurn(Next(b, trace[0]), trace[1..])
  }

  // ----- what holds between the continuations of one turn

  /** A request is woken only for an attached tab. */
  ghost predicate WokenHeld(jobs: seq<Job>, tabs: map<nat, Tab>) {
    forall k :: 0 <= k < |jobs| && jobs[k].Woken? ==> Held(tabs, jobs[k].tabId)
  }

  /** A settled attach promise is about to be cleared. */
  ghost predicate SettledCleared(jobs: seq<Job>, tabs: map<nat, Tab>) {
    forall t :: t in tabs && tabs[t].attaching.Some? && tabs[t].attaching.value.Settled? ==>
      AttachFinally(t, tabs[t].handle) in jobs
  }

  ghost predicate InTurn(b: Bridge) { WokenHeld(b.jobs, b.tabs) && SettledCleared(b.jobs, b.tabs) }

  predicate NoWoken(jobs: seq<Job>) { forall k :: 0 <= k < |jobs| ==> !jobs[k].Woken? }

  ghost predicate NoSettled(tabs: map<nat, Tab>) {
    forall t :: t in tabs ==> !(tabs[t].attaching.Some? && tabs[t].attaching.value.Settled?)
  }

  /** While a message is handled: before anything is woken, and after. */
  ghost predicate Quiet(b: Bridge) { NoWoken(b.jobs) && NoSettled(b.tabs) }

  ghost predicate Waking(b: Bridge) { WokenHeld(b.jobs, b.tabs) && NoSettled(b.tabs) }

  // ----- commands add jobs but wake no request

  lemma SettleTurn(b: Bridge, q: nat, ok: bool)
    requires q in b.pending
    ensures Quiet(b) ==> Quiet(Settle(b, q, ok))
    ensures Waking(b) ==> Waking(Settle(b, q, ok))
    ensures InTurn(b) ==> InTurn(Settle(b, q, ok))
  {
    var n := Settle(b, q, ok);
    assert forall k :: 0 <= k < |b.jobs| ==> n.jobs[k] == b.jobs[k];
    assert forall k :: |b.jobs| <= k < |n.jobs| ==> n.jobs[k].AttachReturned?;
  }

  lemma CallTurn(b: Bridge, c: Command)
    ensures Quiet(b) ==> Quiet(Call(b, c))
    ensures Waking(b) ==> Waking(Call(b, c))
    ensures InTurn(b) ==> InTurn(Call(b, c))
  {
    if b.extension.None? {
      SettleTurn(b.(nextSeq := b.nextSeq + 1, pending := b.pending[b.nextSeq := c]), b.nextSeq, false);
    }
  }

  lemma {:induction false} SettleEachTurn(b: Bridge, qs: seq<nat>)
    ensures Quiet(b) ==> Quiet(SettleEach(b, qs))
    ensures InTurn(b) ==> InTurn(SettleEach(b, qs))
    decreases |qs|
  {
    if qs != [] {
      if qs[0] in b.pending {
        SettleTurn(b, qs[0], false);
      }
      SettleEachTurn(if qs[0] in b.pending then Settle(b, qs[0], false) else b, qs[1..]);
    }
  }

  // ----- detaching, before anything is woken

  lemma {:induction false} UnattachEachQuiet(b: Bridge, tabIds: seq<nat>)
    requires Quiet(b)
    ensures Quiet(UnattachEach(b, tabIds))
    decreases |tabIds|
  {
    if tabIds != [] {
      UnattachEachQuiet(Unattach(b, tabIds[0]), tabIds[1..]);
    }
  }

  lemma {:induction false} DropMissingQuiet(b: Bridge, tabIds: seq<nat>, snapshot: seq<nat>)
    requires Quiet(b)
    ensures Quiet(DropMissing(b, tabIds, snapshot))
    decreases |tabIds|
  {
    if tabIds != [] {
      DropMissingQuiet(if tabIds[0] in snapshot then b else Drop(b, tabIds[0]), tabIds[1..], snapshot);
    }
  }

  lemma {:induction false} DetachEachQuiet(b: Bridge, tabIds: seq<nat>)
    requires Quiet(b)
    ensures Quiet(DetachEach(b, tabIds))
    decreases |tabIds|
  {
    if tabIds != [] {
      CallTurn(Unattach(b, tabIds[0]), Detach(tabIds[0]));
      DetachEachQuiet(
        if Attached(b, tabIds[0]) then Call(Unattach(b, tabIds[0]), Detach(tabIds[0])) else b, tabIds[1..]);
    }
  }

  lemma GoneQuiet(b: Bridge)
    requires Quiet(b)
    ensures Quiet(Gone(b))
  {
    var cut := b.(extension := None);
    SettleEachTurn(cut, PendingBelow(cut.pending, cut.nextSeq));
    UnattachEachQuiet(RejectAll(cut), RejectAll(cut).order);
  }

  // ----- claiming

  lemma RewriteWaking(b: Bridge, tabId: nat, tab: Tab)
    requires Waking(b) && tabId in b.tabs && tab.attached == b.tabs[tabId].attached
    requires !(tab.attaching.Some? && tab.attaching.value.Settled?)
    ensures Waking(b.(tabs := b.tabs[tabId := tab]))
  {
    var tabs := b.tabs[tabId := tab];
    forall k | 0 <= k < |b.jobs| && b.jobs[k].Woken? ensures Held(tabs, b.jobs[k].tabId) {
      assert Held(b.tabs, b.jobs[k].tabId);
    }
  }

  lemma ClaimWaking(b: Bridge, tabId: nat, waiter: Option<Waiter>)
    requires Waking(b)
    ensures Waking(Claim(b, tabId, waiter))
  {
    if tabId in b.tabs {
      var tab := b.tabs[tabId];
      if tab.attached.Some? {
        var n := b.(jobs := b.jobs + WokenBy(tabId, waiter));
        forall k | 0 <= k < |n.jobs| && n.jobs[k].Woken? ensures Held(n.tabs, n.jobs[k].tabId) {
          assert k < |b.jobs| ==> n.jobs[k] == b.jobs[k];
        }
      } else if tab.attaching.None? {
        var waiting := tab.(attaching := Some(InFlight(Listed(waiter))));
        RewriteWaking(b, tabId, waiting);
        CallTurn(b.(tabs := b.tabs[tabId := waiting]), Attach(tabId, tab.handle));
      } else if tab.attaching.value.InFlight? {
        RewriteWaking(b, tabId, tab.(attaching := Some(InFlight(tab.attaching.value.waiters + Listed(waiter)))));
      }
    }
  }

  lemma {:induction false} ClaimEachWaking(b: Bridge, tabIds: seq<nat>)
    requires Waking(b)
    ensures Waking(ClaimEach(b, tabIds))
    decreases |tabIds|
  {
    if tabIds != [] {
      ClaimWaking(b, tabIds[0], None);
      ClaimEachWaking(Claim(b, tabIds[0], None), tabIds[1..]);
    }
  }

  lemma ReportWaking(b: Bridge, tabId: nat)
    requires Waking(b)
    ensures Waking(Report(b, tabId))
  {
    if tabId !in b.tabs {
      var n := Added(b, tabId);
      forall k | 0 <= k < |b.jobs| && b.jobs[k].Woken? ensures Held(n.tabs, b.jobs[k].tabId) {
        assert Held(b.tabs, b.jobs[k].tabId);
      }
      assert Waking(n);
      ClaimWaking(n, tabId, None);
    }
  }

  lemma {:induction false} ReportEachWaking(b: Bridge, tabIds: seq<nat>)
    requires Waking(b)
    ensures Waking(ReportEach(b, tabIds))
    decreases |tabIds|
  {
    if tabIds != [] {
      ReportWaking(b, tabIds[0]);
      ReportEachWaking(Report(b, tabIds[0]), tabIds[1..]);
    }
  }

  lemma SyncTabsWaking(b: Bridge, snapshot: seq<nat>)
    requires Quiet(b)
    ensures Waking(SyncTabs(b, snapshot))
  {
    DropMissingQuiet(b, b.order, snapshot);
    ReportEachWaking(DropMissing(b, b.order, snapshot), snapshot);
  }

  // ----- one message

  lemma ExtensionTurn(b: Bridge, event: Event)
    requires Quiet(b) && FromExtension(event)
    ensures Waking(NextOfExtension(b, event))
  {
    if !b.closing {
      match event {
        case ExtensionConnects => GoneQuiet(b);
        case Hello(socket, snapshot) => SyncTabsWaking(b.(extension := Some(socket)), snapshot);
        case Answered(q, ok) => if q in b.pending { SettleTurn(b, q, ok); }
        case DebuggerEvent(tabId, child, announced) =>
        case TabsReported(snapshot) => SyncTabsWaking(b, snapshot);
        case DebuggerDetached(tabId) => UnattachEachQuiet(b, [tabId]);
      }
    }
  }

  lemma ClientTurn(b: Bridge, event: Event)
    requires Quiet(b) && FromClient(event) && event.client in b.clients
    ensures Waking(NextOfClient(b, event))
  {
    match event {
      case ClientCloses(client) =>
        var n := b.(
          clients := b.clients - {client},
          browserSessions := map x | x in b.browserSessions && b.browserSessions[x] != client :: b.browserSessions[x],
          auxiliary := map x | x in b.auxiliary && b.auxiliary[x].client != client :: b.auxiliary[x]);
        DetachEachQuiet(n, n.order);
      case AttachToBrowserTarget(client) =>
      case SetAutoAttach(client, on) => ClaimEachWaking(b.(clients := b.clients[client := on]), b.order);
      case AttachToTarget(client, tabId, parent) => ClaimWaking(b, tabId, Some(Waiter(client, parent)));
      case DetachTarget(client, id) => DetachTargetQuiet(b, client, id);
      case PageCommand(client, id) =>
        if PageOf(b, id).Some? {
          CallTurn(b, PageOf(b, id).value);
        }
      case TabCommand(client) => CallTurn(b, OnTabs);
    }
  }

  lemma DetachTargetQuiet(b: Bridge, client: nat, id: Text)
    requires Quiet(b)
    ensures Quiet(DetachFromTarget(b, client, id))
  {
    var root := RootTab(b, b.order, id);
    if root.Some? {
      CallTurn(Unattach(b, root.value), Detach(root.value));
    }
  }

  lemma OtherTurn(b: Bridge, event: Event)
    requires Quiet(b) && Enabled(b, event) && !FromClient(event) && !FromExtension(event) && !Continues(event)
    ensures Waking(Next(b, event))
  {
    match event {
      case ExtensionCloses(socket) => GoneQuiet(b);
      case PingFails => GoneQuiet(b);
      case TimesOut(q) => SettleTurn(b, q, false);
      case ClientConnects(client) =>
      case Dispose => DisposeQuiet(b);
    }
  }

  lemma {:induction false} CallEachQuiet(b: Bridge, tabIds: seq<nat>)
    requires Quiet(b)
    ensures Quiet(CallEach(b, tabIds))
    decreases |tabIds|
  {
    if tabIds != [] {
      CallTurn(b, Detach(tabIds[0]));
      CallEachQuiet(Call(b, Detach(tabIds[0])), tabIds[1..]);
    }
  }

  lemma DisposeQuiet(b: Bridge)
    requires Quiet(b)
    ensures Quiet(StartDispose(b))
  {
    var closing := b.(closing := true);
    SettleEachTurn(closing, PendingBelow(closing.pending, closing.nextSeq));
    CallEachQuiet(Withdrawn(RejectAll(closing)), AttachedIn(b, b.order));
  }

  lemma MessageTurn(b: Bridge, event: Event)
    requires InTurn(b) && b.jobs == [] && Enabled(b, event) && !Continues(event)
    ensures InTurn(Next(b, event))
  {
    assert Quiet(b);
    if FromClient(event) {
      ClientTurn(b, event);
    } else if FromExtension(event) {
      ExtensionTurn(b, event);
    } else {
      OtherTurn(b, event);
    }
  }

  // ----- one continuation

  lemma WithoutMembers(jobs: seq<Job>, k: nat)
    requires k < |jobs|
    ensures forall j :: j in Without(jobs, k) ==> j in jobs
    ensures forall j :: j in jobs && j != jobs[k] ==> j in Without(jobs, k)
  {
    var rest := Without(jobs, k);
    forall j | j in jobs && j != jobs[k] ensures j in rest {
      var i :| 0 <= i < |jobs| && jobs[i] == j;
      assert rest[if i < k then i else i - 1] == j;
    }
  }

  ghost predicate WokenMembers(jobs: seq<Job>, tabs: map<nat, Tab>) {
    forall j :: j in jobs && j.Woken? ==> Held(tabs, j.tabId)
  }

  lemma WokenEither(jobs: seq<Job>, tabs: map<nat, Tab>)
    ensures WokenHeld(jobs, tabs) <==> WokenMembers(jobs, tabs)
  {
    if WokenMembers(jobs, tabs) {
      forall k | 0 <= k < |jobs| && jobs[k].Woken? ensures Held(tabs, jobs[k].tabId) {
        assert jobs[k] in jobs;
      }
    }
  }

  lemma {:induction false} WakeEachMembers(tabId: nat, waiters: seq<Waiter>)
    ensures forall j :: j in WakeEach(tabId, waiters) ==> j.Woken? && j.tabId == tabId
  {
    if waiters != [] {
      WakeEachMembers(tabId, waiters[1..]);
    }
  }

  /** Settling the attach promise of a tab; it wakes requests only when the tab is attached. */
  lemma FinishTurn(b: Bridge, tabId: nat, ok: bool)
    requires tabId in b.tabs && (ok ==> Held(b.tabs, tabId))
    requires WokenMembers(b.jobs, b.tabs)
    requires forall t ::
      t in b.tabs && t != tabId && b.tabs[t].attaching.Some? && b.tabs[t].attaching.value.Settled? ==>
        AttachFinally(t, b.tabs[t].handle) in b.jobs
    ensures InTurn(Finish(b, tabId, ok))
  {
    var n := Finish(b, tabId, ok);
    var tab := b.tabs[tabId];
    var waiters := if tab.attaching.Some? && tab.attaching.value.InFlight? then tab.attaching.value.waiters else [];
    WakeEachMembers(tabId, waiters);
    forall j | j in n.jobs && j.Woken? ensures Held(n.tabs, j.tabId) {
      assert j in b.jobs || (ok && j in WakeEach(tabId, waiters));
      assert j in b.jobs ==> Held(b.tabs, j.tabId);
    }
    WokenEither(n.jobs, n.tabs);
    forall t | t in n.tabs && n.tabs[t].attaching.Some? && n.tabs[t].attaching.value.Settled?
      ensures AttachFinally(t, n.tabs[t].handle) in n.jobs
    {
      assert t != tabId ==> AttachFinally(t, b.tabs[t].handle) in b.jobs;
    }
  }

  /** What is left of a turn once job k has been taken. */
  lemma TakenTurn(b: Bridge, k: nat)
    requires InTurn(b) && k < |b.jobs|
    ensures var rest := Without(b.jobs, k);
      && WokenMembers(rest, b.tabs)
      && (forall t :: t in b.tabs && b.tabs[t].attaching.Some? && b.tabs[t].attaching.value.Settled? ==>
            AttachFinally(t, b.tabs[t].handle) == b.jobs[k] || AttachFinally(t, b.tabs[t].handle) in rest)
  {
    WithoutMembers(b.jobs, k);
    WokenEither(b.jobs, b.tabs);
  }

  lemma ReturnedTurn(b: Bridge, tabId: nat, handle: nat, ok: bool)
    requires InTurn(b)
    ensures InTurn(AttachGoesOn(b, tabId, handle, ok))
  {
    WokenEither(b.jobs, b.tabs);
    if !ok {
      if SameTab(b, tabId, handle) {
        FinishTurn(b, tabId, false);
      }
    } else {
      var id := TabSession(tabId, b.nextOrdinal);
      if !SameTab(b, tabId, handle) {
        CallTurn(Issue(b, id), Detach(tabId));
      } else {
        var held := AttachedAs(Issue(b, id), tabId, id);
        forall j | j in held.jobs && j.Woken? ensures Held(held.tabs, j.tabId) {
          assert Held(b.tabs, j.tabId);
        }
        FinishTurn(held, tabId, true);
      }
    }
  }

  lemma ClearedTurn(b: Bridge, k: nat)
    requires InTurn(b) && k < |b.jobs| && b.jobs[k].AttachFinally?
    ensures InTurn(Next(b, RunJob(k)))
  {
    TakenTurn(b, k);
    var rest := b.(jobs := Without(b.jobs, k));
    var n := AttachCleared(rest, b.jobs[k].tabId, b.jobs[k].handle);
    assert Next(b, RunJob(k)) == n;
    forall j | j in n.jobs && j.Woken? ensures Held(n.tabs, j.tabId) {
      assert Held(b.tabs, j.tabId);
    }
    WokenEither(n.jobs, n.tabs);
  }

  lemma JobTurn(b: Bridge, k: nat)
    requires InTurn(b) && k < |b.jobs|
    ensures InTurn(Next(b, RunJob(k))) && !Strays(b, RunJob(k))
  {
    if b.jobs[k].AttachFinally? {
      ClearedTurn(b, k);
    } else {
      var rest := b.(jobs := Without(b.jobs, k));
      TakenTurn(b, k);
      WokenEither(rest.jobs, rest.tabs);
      assert InTurn(rest);
      match b.jobs[k] {
        case AttachReturned(tabId, handle, ok) => ReturnedTurn(rest, tabId, handle, ok);
        case Woken(tabId, w) => assert Held(b.tabs, tabId);
      }
    }
  }

  lemma StepTurn(b: Bridge, event: Event)
    requires InTurn(b) && Enabled(b, event) && (Continues(event) || b.jobs == [])
    ensures InTurn(Next(b, event)) && !Strays(b, event)
  {
    if event.RunJob? {
      JobTurn(b, event.k);
    } else if event.DisposeEnds? {
      SettleEachTurn(b, PendingBelow(b.pending, b.nextSeq));
    } else {
      MessageTurn(b, event);
    }
  }

  lemma {:induction false} TurnsNeverStray(b: Bridge, trace: seq<Event>)
    requires InTurn(b) && Legal(b, trace) && OnePerTurn(b, trace)
    ensures NeverStrays(b, trace)
    decreases |trace|
  {
    if trace != [] {
      StepTurn(b, trace[0]);
      TurnsNeverStray(Next(b, trace[0]), trace[1..]);
    }
  }

  /** With one message per turn every auxiliary session's tab is attached, in every state of every run. */
  lemma AuxiliaryHeldOnePerTurn(trace: seq<Event>)
    requires Legal(EMPTY, trace) && OnePerTurn(EMPTY, trace)
    ensures AlwaysHeld(EMPTY, trace)
  {
    TurnsNeverStray(EMPTY, trace);
    AuxiliaryHeldIff(trace);
  }

  // ----- two messages in one turn

  /** A client asks for an alias of an attached tab and, in the same turn, has the tab's root session detached. */
  function SharedTurn(client: nat, tabId: nat, parent: Text, root: Text): seq<Event> {
    [AttachToTarget(client, tabId, Some(parent)), DetachTarget(client, root), RunJob(0)]
  }

  /** The request finds the tab attached and goes on in a job of its own. */
  lemma Asked(b: Bridge, client: nat, tabId: nat, parent: Text)
    requires b.jobs == [] && client in b.clients && Attached(b, tabId)
    ensures Next(b, AttachToTarget(client, tabId, Some(parent))) ==
      b.(jobs := [Woken(tabId, Waiter(client, Some(parent)))])
  {
  }

  lemma RootDetached(b: Bridge, client: nat, tabId: nat, root: Text)
    requires client in b.clients && Attached(b, tabId) && RootTab(b, b.order, root) == Some(tabId)
    requires root !in b.browserSessions && root !in b.auxiliary
    ensures var n := Next(b, DetachTarget(client, root));
      n.jobs == b.jobs && n.browserSessions == b.browserSessions && !Held(n.tabs, tabId)
  {
    var loose := Unattach(b, tabId);
    assert DetachFromTarget(b, client, root) == Call(loose, Detach(tabId));
  }

  lemma AliasMade(b: Bridge, tabId: nat, w: Waiter)
    requires b.jobs == [Woken(tabId, w)] && !Held(b.tabs, tabId)
    requires w.parent.Some? && w.parent.value in b.browserSessions && b.browserSessions[w.parent.value] == w.client
    ensures !Aux(Next(b, RunJob(0)))
  {
    var n := Next(b, RunJob(0));
    assert n == AttachToTargetGoesOn(b.(jobs := Without(b.jobs, 0)), tabId, w);
    assert n.auxiliary[TabSession(tabId, b.nextOrdinal)].tabId == tabId;
  }

  lemma ThreeSteps(b: Bridge, x: Event, y: Event, z: Event)
    requires Enabled(b, x) && Enabled(Next(b, x), y) && Enabled(Next(Next(b, x), y), z)
    ensures Legal(b, [x, y, z]) && Run(b, [x, y, z]) == Next(Next(Next(b, x), y), z)
  {
    LegalAppend(b, [], x);
    LegalAppend(b, [x], y);
    LegalAppend(b, [x, y], z);
    assert [] + [x] == [x] && [x] + [y] == [x, y] && [x, y] + [z] == [x, y, z];
  }

  /** From every state in which that can be asked for, it leaves an auxiliary session on a tab that is not attached. */
  lemma SharedTurnStrays(b: Bridge, client: nat, tabId: nat, parent: Text, root: Text)
    requires b.jobs == [] && client in b.clients && parent in b.browserSessions && b.browserSessions[parent] == client
    requires Attached(b, tabId) && RootTab(b, b.order, root) == Some(tabId)
    requires root !in b.browserSessions && root !in b.auxiliary
    ensures var trace := SharedTurn(client, tabId, parent, root);
      Legal(b, trace) && !Aux(Run(b, trace))
  {
    var w := Waiter(client, Some(parent));
    var b1 := Next(b, AttachToTarget(client, tabId, Some(parent)));
    Asked(b, client, tabId, parent);
    SameRoot(b, b1, b.order, root);
    RootDetached(b1, client, tabId, root);
    var b2 := Next(b1, DetachTarget(client, root));
    AliasMade(b2, tabId, w);
    ThreeSteps(b, AttachToTarget(client, tabId, Some(parent)), DetachTarget(client, root), RunJob(0));
  }

  lemma {:induction false} SameRoot(a: Bridge, b: Bridge, order: seq<nat>, root: Text)
    requires a.tabs == b.tabs
    ensures RootTab(a, order, root) == RootTab(b, order, root)
  {
    if order != [] {
      SameRoot(a, b, order[1..], root);
    }
  }

  lemma {:induction false} LegalAppend(b: Bridge, first: seq<Event>, event: Event)
    requires Legal(b, first) && Enabled(Run(b, first), event)
    ensures Legal(b, first + [event]) && Run(b, first + [event]) == Next(Run(b, first), event)
    decreases |first|
  {
    if first == [] {
      assert first + [event] == [event] && [event][1..] == [];
    } else {
      assert (first + [event])[1..] == first[1..] + [event];
      LegalAppend(Next(b, first[0]), first[1..], event);
    }
  }

  /** One client with a browser-level session, and one tab whose attach command is on its way. */
  function Attaching1(): Bridge {
    EMPTY.(clients := map[0 := false], extension := Some(7), order := [1], nextObject := 1,
      tabs := map[1 := Tab(0, None, Some(InFlight([Waiter(0, None)])))],
      browserSessions := map[BrowserSession(1) := 0], nextOrdinal := 2, issued := [BrowserSession(1)],
      pending := map[1 := Attach(1, 0)], nextSeq := 2)
  }

  lemma ReachesAttaching() returns (trace: seq<Event>)
    ensures Legal(EMPTY, trace) && Run(EMPTY, trace) == Attaching1()
  {
    trace := [];
    LegalAppend(EMPTY, trace, ClientConnects(0));
    trace := trace + [ClientConnects(0)];
    var b1 := EMPTY.(clients := map[0 := false]);
    assert Run(EMPTY, trace) == b1;
    LegalAppend(EMPTY, trace, Hello(7, [1]));
    trace := trace + [Hello(7, [1])];
    var b2 := b1.(extension := Some(7), tabs := map[1 := Tab(0, None, None)], order := [1], nextObject := 1);
    FirstHello(b1);
    LegalAppend(EMPTY, trace, AttachToBrowserTarget(0));
    trace := trace + [AttachToBrowserTarget(0)];
    var b3 := b2.(browserSessions := map[BrowserSession(1) := 0], nextOrdinal := 2, issued := [BrowserSession(1)]);
    FirstBrowserSession(b2);
    LegalAppend(EMPTY, trace, AttachToTarget(0, 1, None));
    trace := trace + [AttachToTarget(0, 1, None)];
    FirstClaim(b3);
  }

  lemma FirstBrowserSession(b: Bridge)
    requires b.browserSessions == map[] && b.nextOrdinal == 1 && b.issued == [] && 0 in b.clients
    ensures Next(b, AttachToBrowserTarget(0)) ==
      b.(browserSessions := map[BrowserSession(1) := 0], nextOrdinal := 2, issued := [BrowserSession(1)])
  {
    assert [] + [BrowserSession(1)] == [BrowserSession(1)];
  }

  lemma FirstClaim(b: Bridge)
    requires b.tabs == map[1 := Tab(0, None, None)] && b.extension.Some? && b.pending == map[] && b.nextSeq == 1
    requires 0 in b.clients
    ensures Next(b, AttachToTarget(0, 1, None)) ==
      b.(tabs := map[1 := Tab(0, None, Some(InFlight([Waiter(0, None)])))],
         pending := map[1 := Attach(1, 0)], nextSeq := 2)
  {
    assert Listed(Some(Waiter(0, None))) == [Waiter(0, None)];
  }

  /** An ordinary run reaches such a state: one client, one tab, attached, and every continuation run. */
  lemma OrdinaryRun() returns (trace: seq<Event>)
    ensures Legal(EMPTY, trace)
    ensures var b := Run(EMPTY, trace);
      && b.jobs == [] && 0 in b.clients && b.browserSessions == map[BrowserSession(1) := 0] && b.auxiliary == map[]
      && b.order == [1] && 1 in b.tabs && b.tabs[1].attached == Some(TabSession(1, 2))
  {
    trace := ReachesAttaching();
    var b4 := Attaching1();
    LegalAppend(EMPTY, trace, Answered(1, true));
    trace := trace + [Answered(1, true)];
    var b5 := b4.(pending := map[], settled := [1], jobs := [AttachReturned(1, 0, true)]);
    FirstAnswer(b4);
    LegalAppend(EMPTY, trace, RunJob(0));
    trace := trace + [RunJob(0)];
    var b6 := Next(b5, RunJob(0));
    FirstAttach(b5, b6);
    LegalAppend(EMPTY, trace, RunJob(0));
    trace := trace + [RunJob(0)];
    var b7 := Next(b6, RunJob(0));
    NoAlias(b6);
    LegalAppend(EMPTY, trace, RunJob(0));
    trace := trace + [RunJob(0)];
    LastCleared(b7);
  }

  lemma FirstAnswer(b: Bridge)
    requires !b.closing && b.pending == map[1 := Attach(1, 0)] && b.settled == [] && b.jobs == []
    ensures Next(b, Answered(1, true)) == b.(pending := map[], settled := [1], jobs := [AttachReturned(1, 0, true)])
  {
    assert b.pending - {1} == map[] && [] + [1] == [1];
  }

  lemma NoAlias(b: Bridge)
    requires b.jobs == [Woken(1, Waiter(0, None)), AttachFinally(1, 0)]
    ensures Next(b, RunJob(0)) == b.(jobs := [AttachFinally(1, 0)])
  {
    assert Without(b.jobs, 0) == [AttachFinally(1, 0)];
  }

  lemma LastCleared(b: Bridge)
    requires b.jobs == [AttachFinally(1, 0)]
    ensures var n := Next(b, RunJob(0));
      && n == b.(jobs := [], tabs := n.tabs)
      && (1 in b.tabs ==> 1 in n.tabs && n.tabs[1].attached == b.tabs[1].attached)
  {
    assert Without(b.jobs, 0) == [];
  }

  lemma FirstHello(b: Bridge)
    requires b.tabs == map[] && b.order == [] && b.clients == map[0 := false] && !b.closing && b.nextObject == 0
    ensures Next(b, Hello(7, [1])) ==
      b.(extension := Some(7), tabs := map[1 := Tab(0, None, None)], order := [1], nextObject := 1)
  {
    var up := b.(extension := Some(7));
    assert !AutoAttaches(up);
    assert up.order + [1] == [1] && [1][1..] == [];
    assert ReportEach(up, [1]) == Report(up, 1);
  }

  lemma FirstAttach(b: Bridge, n: Bridge)
    requires b.jobs == [AttachReturned(1, 0, true)] && n == Next(b, RunJob(0)) && b.nextOrdinal == 2
    requires b.tabs == map[1 := Tab(0, None, Some(InFlight([Waiter(0, None)])))]
    ensures n.jobs == [Woken(1, Waiter(0, None)), AttachFinally(1, 0)]
    ensures n.tabs == map[1 := Tab(0, Some(TabSession(1, 2)), Some(Settled(true)))]
    ensures n.clients == b.clients && n.browserSessions == b.browserSessions && n.auxiliary == b.auxiliary
    ensures n.order == b.order
  {
    assert Without(b.jobs, 0) == [];
    assert [Waiter(0, None)][1..] == [];
    assert WakeEach(1, [Waiter(0, None)]) == [Woken(1, Waiter(0, None))];
  }

  /** So an auxiliary session can outlive its tab's attachment: the invariant needs one message per turn. */
  lemma AuxiliaryCanStray() returns (trace: seq<Event>)
    ensures Legal(EMPTY, trace) && !Aux(Run(EMPTY, trace))
  {
    var first := OrdinaryRun();
    var b := Run(EMPTY, first);
    var root := TabSession(1, 2);
    DifferentIds();
    assert b.order[1..] == [];
    SharedTurnStrays(b, 0, 1, BrowserSession(1), root);
    var events := SharedTurn(0, 1, BrowserSession(1), root);
    trace := first + events;
    LegalJoin(EMPTY, first, events);
  }

  lemma DifferentIds()
    ensures TabSession(1, 2) != BrowserSession(1)
  {
    if TabSession(1, 2) == BrowserSession(1) {
      OrdinalUnique(Ascii("agent-tab-bridge-tab-") + CanonicalJson.Decimal(1), 2, Ascii("agent-tab-bridge-browser"), 1);
    }
  }

  lemma {:induction false} LegalJoin(b: Bridge, first: seq<Event>, second: seq<Event>)
    requires Legal(b, first) && Legal(Run(b, first), second)
    ensures Legal(b, first + second) && Run(b, first + second) == Run(Run(b, first), second)
    decreases |first|
  {
    if first == [] {
      assert first + second == second;
    } else {
      assert (first + second)[1..] == first[1..] + second;
      LegalJoin(Next(b, first[0]), first[1..], second);
    }
  }
}
