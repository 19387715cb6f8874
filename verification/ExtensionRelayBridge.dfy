/**
 * The relay bridge as the source writes it: maps and counters updated in place, loops over tabs and sessions. Every
 * method leaves exactly the state that the step of the same event gives.
 */
module ExtensionRelayBridges {
  import opened Bytes
  import opened Results
  import opened RelayBridge

  class ExtensionRelayBridge {
    var extension: Option<nat>
    var clients: map<nat, bool>
    var tabs: map<nat, Tab>
    var order: seq<nat>
    var browserSessions: map<Text, nat>
    var auxiliary: map<Text, Auxiliary>
    var children: map<Text, nat>
    var pending: map<nat, Command>
    var jobs: seq<Job>
    var nextSeq: nat
    var nextOrdinal: nat
    var nextObject: nat
    var closing: bool
    ghost var settled: seq<nat>
    ghost var issued: seq<Text>

    ghost function View(): Bridge reads this {
      Bridge(extension, clients, tabs, order, browserSessions, auxiliary, children, pending, jobs, nextSeq, nextOrdinal,
        nextObject, closing, settled, issued)
    }

    constructor ()
      ensures View() == EMPTY
    {
      extension, clients, tabs, order := None, map[], map[], [];
      browserSessions, auxiliary, children := map[], map[], map[];
      pending, jobs, nextSeq, nextOrdinal, nextObject, closing := map[], [], 1, 1, 0, false;
      settled, issued := [], [];
    }

    // ----- commands

    /** A pending command is taken out, its timer cleared, and its continuation queued. */
    method SettleCommand(q: nat, ok: bool)
      requires q in pending
      modifies this`pending, this`jobs, this`settled
      ensures View() == Settle(old(View()), q, ok)
    {
      var waiting := pending[q];
      pending := pending - {q};
      settled := settled + [q];
      if waiting.Attach? {
        jobs := jobs + [AttachReturned(waiting.tabId, waiting.handle, ok)];
      } else {
        assert jobs + [] == jobs;
      }
    }

    method CallExtension(c: Command)
      modifies this`pending, this`jobs, this`settled, this`nextSeq
      ensures View() == Call(old(View()), c)
    {
      var q := nextSeq;
      nextSeq := nextSeq + 1;
      pending := pending[q := c];
      if extension == None {
        SettleCommand(q, false);
      }
    }

    method RejectPending()
      modifies this`pending, this`jobs, this`settled
      ensures View() == RejectAll(old(View()))
    {
      ghost var start := View();
      var q := 0;
      var last := nextSeq;
      while q < last
        invariant 0 <= q <= last == start.nextSeq
        invariant View() == SettleEach(start, PendingBelow(start.pending, q))
        invariant forall x :: x >= q ==> (x in pending <==> x in start.pending)
      {
        SettleNext(start, PendingBelow(start.pending, q), q);
        assert PendingBelow(start.pending, q) + [] == PendingBelow(start.pending, q);
        if q in pending {
          assert PendingBelow(start.pending, q + 1) == PendingBelow(start.pending, q) + [q];
          SettleCommand(q, false);
        } else {
          assert PendingBelow(start.pending, q + 1) == PendingBelow(start.pending, q);
        }
        q := q + 1;
      }
    }

    /** result and error messages; a command that is not pending any more is ignored. */
    method OnAnswer(q: nat, ok: bool)
      modifies this
      ensures View() == NextOfExtension(old(View()), Answered(q, ok))
    {
      if closing {
        return;
      }
      if q in pending {
        SettleCommand(q, ok);
      }
    }

    // ----- tabs

    method DeleteAliasesOn(tabId: nat)
      modifies this`auxiliary
      ensures auxiliary == map x | x in old(auxiliary) && old(auxiliary)[x].tabId != tabId :: old(auxiliary)[x]
    {
      ghost var start := auxiliary;
      var ids := auxiliary.Keys;
      while ids != {}
        invariant ids <= start.Keys
        invariant forall x :: x in auxiliary <==> x in start && (x in ids || start[x].tabId != tabId)
        invariant forall x :: x in auxiliary ==> auxiliary[x] == start[x]
        decreases |ids|
      {
        var x :| x in ids;
        if auxiliary[x].tabId == tabId {
          auxiliary := auxiliary - {x};
        }
        ids := ids - {x};
      }
    }

    method DeleteChildrenOf(tabId: nat)
      modifies this`children
      ensures children == map x | x in old(children) && old(children)[x] != tabId :: old(children)[x]
    {
      ghost var start := children;
      var ids := children.Keys;
      while ids != {}
        invariant ids <= start.Keys
        invariant forall x :: x in children <==> x in start && (x in ids || start[x] != tabId)
        invariant forall x :: x in children ==> children[x] == start[x]
        decreases |ids|
      {
        var x :| x in ids;
        if children[x] == tabId {
          children := children - {x};
        }
        ids := ids - {x};
      }
    }

    method EmitDetachedFromTarget(tabId: nat)
      modifies this`auxiliary, this`children
      ensures View() == Emit(old(View()), tabId)
    {
      DeleteAliasesOn(tabId);
      DeleteChildrenOf(tabId);
    }

    method DetachTab(tabId: nat)
      modifies this`tabs, this`auxiliary, this`children
      ensures View() == Unattach(old(View()), tabId)
    {
      if tabId in tabs && tabs[tabId].attached.Some? {
        tabs := tabs[tabId := tabs[tabId].(attached := None)];
        EmitDetachedFromTarget(tabId);
      }
    }

    /** The extension reports that the debugger left a tab. */
    method OnDebuggerDetached(tabId: nat)
      modifies this`tabs, this`auxiliary, this`children
      ensures View() == NextOfExtension(old(View()), DebuggerDetached(tabId))
    {
      if !closing {
        DetachTab(tabId);
      }
    }

    method DetachTabs()
      modifies this`tabs, this`auxiliary, this`children
      ensures View() == UnattachEach(old(View()), old(order))
    {
      ghost var start := View();
      var i := 0;
      while i < |order|
        invariant 0 <= i <= |order|
        invariant UnattachEach(View(), order[i..]) == UnattachEach(start, start.order)
      {
        assert order[i..][1..] == order[i + 1..];
        DetachTab(order[i]);
        i := i + 1;
      }
    }

    method HandleExtensionGone()
      modifies this
      ensures View() == Gone(old(View()))
    {
      ghost var start := View();
      extension := None;
      assert View() == start.(extension := None);
      RejectPending();
      ghost var rejected := View();
      assert rejected == RejectAll(start.(extension := None));
      DetachTabs();
      ghost var loose := View();
      ForgetTabs();
      assert View() == TabsForgotten(loose);
    }

    method ForgetTabs()
      modifies this`tabs, this`order, this`children
      ensures View() == TabsForgotten(old(View()))
    {
      tabs, order, children := map[], [], map[];
    }

    method ClaimAndAttachTab(tabId: nat, waiter: Option<Waiter>)
      modifies this
      ensures View() == Claim(old(View()), tabId, waiter)
    {
      if tabId !in tabs {
        return;
      }
      var tab := tabs[tabId];
      var listed := if waiter.Some? then [waiter.value] else [];
      var woken := if waiter.Some? then [Woken(tabId, waiter.value)] else [];
      if tab.attached.Some? {
        jobs := jobs + woken;
        return;
      }
      if tab.attaching.None? {
        tabs := tabs[tabId := tab.(attaching := Some(InFlight(listed)))];
        CallExtension(Attach(tabId, tab.handle));
        return;
      }
      match tab.attaching.value {
        case InFlight(waiters) => tabs := tabs[tabId := tab.(attaching := Some(InFlight(waiters + listed)))];
        case Settled(ok) =>
          if ok {
            jobs := jobs + woken;
          }
      }
    }

    method AddTab(tabId: nat)
      modifies this`tabs, this`order, this`nextObject
      ensures View() == Added(old(View()), tabId)
    {
      tabs := tabs[tabId := Tab(nextObject, None, None)];
      order := order + [tabId];
      nextObject := nextObject + 1;
    }

    method ReportTab(tabId: nat)
      modifies this
      ensures View() == Report(old(View()), tabId)
    {
      if tabId in tabs {
        return;
      }
      AddTab(tabId);
      if exists c :: c in clients && clients[c] {
        ClaimAndAttachTab(tabId, None);
      }
    }

    method DropTab(tabId: nat)
      modifies this`tabs, this`order, this`auxiliary, this`children
      ensures View() == Drop(old(View()), tabId)
    {
      if tabId in tabs && tabs[tabId].attached.Some? {
        EmitDetachedFromTarget(tabId);
      }
      tabs := tabs - {tabId};
      order := Remove(order, tabId);
    }

    method SyncTabsWith(snapshot: seq<nat>)
      modifies this
      ensures View() == SyncTabs(old(View()), snapshot)
    {
      ghost var start := View();
      var known := order;
      var i := 0;
      while i < |known|
        invariant 0 <= i <= |known| && known == start.order
        invariant DropMissing(View(), known[i..], snapshot) == DropMissing(start, known, snapshot)
      {
        assert known[i..][1..] == known[i + 1..];
        if known[i] !in snapshot {
          DropTab(known[i]);
        }
        i := i + 1;
      }
      ghost var dropped := View();
      i := 0;
      while i < |snapshot|
        invariant 0 <= i <= |snapshot|
        invariant ReportEach(View(), snapshot[i..]) == ReportEach(dropped, snapshot)
      {
        assert snapshot[i..][1..] == snapshot[i + 1..];
        ReportTab(snapshot[i]);
        i := i + 1;
      }
    }

    // ----- continuations

    method SettleAttach(tabId: nat, ok: bool)
      requires tabId in tabs
      modifies this`tabs, this`jobs
      ensures View() == Finish(old(View()), tabId, ok)
    {
      var tab := tabs[tabId];
      tabs := tabs[tabId := tab.(attaching := Some(Settled(ok)))];
      if ok && tab.attaching.Some? && tab.attaching.value.InFlight? {
        jobs := jobs + WakeEach(tabId, tab.attaching.value.waiters);
      } else {
        assert jobs + [] == jobs;
      }
      jobs := jobs + [AttachFinally(tabId, tab.handle)];
    }

    method OnAttachReturned(tabId: nat, handle: nat, ok: bool)
      modifies this
      ensures View() == AttachGoesOn(old(View()), tabId, handle, ok)
    {
      if !ok {
        if tabId in tabs && tabs[tabId].handle == handle {
          SettleAttach(tabId, false);
        }
        return;
      }
      var sessionId := NextTabSession(tabId);
      if tabId !in tabs || tabs[tabId].handle != handle {
        CallExtension(Detach(tabId));
        return;
      }
      RecordAttached(tabId, sessionId);
      SettleAttach(tabId, true);
    }

    method NextTabSession(tabId: nat) returns (sessionId: Text)
      modifies this`nextOrdinal, this`issued
      ensures sessionId == TabSession(tabId, old(nextOrdinal)) && View() == Issue(old(View()), sessionId)
    {
      sessionId := TabSession(tabId, nextOrdinal);
      nextOrdinal := nextOrdinal + 1;
      issued := issued + [sessionId];
    }

    method RecordAttached(tabId: nat, sessionId: Text)
      requires tabId in tabs
      modifies this`tabs
      ensures View() == AttachedAs(old(View()), tabId, sessionId)
    {
      tabs := tabs[tabId := tabs[tabId].(attached := Some(sessionId))];
    }

    method OnAttachFinally(tabId: nat, handle: nat)
      modifies this`tabs
      ensures View() == AttachCleared(old(View()), tabId, handle)
    {
      if tabId in tabs && tabs[tabId].handle == handle {
        tabs := tabs[tabId := tabs[tabId].(attaching := None)];
      }
    }

    method OnAttachedToTarget(tabId: nat, w: Waiter)
      modifies this
      ensures View() == AttachToTargetGoesOn(old(View()), tabId, w)
    {
      if w.parent.Some? && w.parent.value in browserSessions && browserSessions[w.parent.value] == w.client {
        var sessionId := NextTabSession(tabId);
        auxiliary := auxiliary[sessionId := Auxiliary(tabId, w.parent.value, w.client)];
      }
    }

    method RunNextJob(k: nat)
      requires k < |jobs|
      modifies this
      ensures View() == Next(old(View()), RunJob(k))
    {
      var job := jobs[k];
      jobs := jobs[..k] + jobs[k + 1..];
      match job {
        case AttachReturned(tabId, handle, ok) => OnAttachReturned(tabId, handle, ok);
        case AttachFinally(tabId, handle) => OnAttachFinally(tabId, handle);
        case Woken(tabId, w) => OnAttachedToTarget(tabId, w);
      }
    }

    // ----- clients

    method DeleteBrowserSessionsOf(client: nat)
      modifies this`browserSessions
      ensures browserSessions ==
        map x | x in old(browserSessions) && old(browserSessions)[x] != client :: old(browserSessions)[x]
    {
      ghost var start := browserSessions;
      var ids := browserSessions.Keys;
      while ids != {}
        invariant ids <= start.Keys
        invariant forall x :: x in browserSessions <==> x in start && (x in ids || start[x] != client)
        invariant forall x :: x in browserSessions ==> browserSessions[x] == start[x]
        decreases |ids|
      {
        var x :| x in ids;
        if browserSessions[x] == client {
          browserSessions := browserSessions - {x};
        }
        ids := ids - {x};
      }
    }

    method DeleteAliasesOf(client: nat)
      modifies this`auxiliary
      ensures auxiliary == map x | x in old(auxiliary) && old(auxiliary)[x].client != client :: old(auxiliary)[x]
    {
      ghost var start := auxiliary;
      var ids := auxiliary.Keys;
      while ids != {}
        invariant ids <= start.Keys
        invariant forall x :: x in auxiliary <==> x in start && (x in ids || start[x].client != client)
        invariant forall x :: x in auxiliary ==> auxiliary[x] == start[x]
        decreases |ids|
      {
        var x :| x in ids;
        if auxiliary[x].client == client {
          auxiliary := auxiliary - {x};
        }
        ids := ids - {x};
      }
    }

    method OnClientClose(client: nat)
      requires client in clients
      modifies this
      ensures View() == CloseClient(old(View()), client)
    {
      clients := clients - {client};
      DeleteBrowserSessionsOf(client);
      DeleteAliasesOf(client);
      DetachAllWhenIdle();
    }

    method DetachAllWhenIdle()
      modifies this
      ensures View() ==
        if old(clients) == map[] && old(extension).Some? then DetachEach(old(View()), old(order)) else old(View())
    {
      if |clients| > 0 || extension == None {
        return;
      }
      assert clients == map[];
      ghost var start := View();
      var i := 0;
      while i < |order|
        invariant 0 <= i <= |order| && order == start.order
        invariant DetachEach(View(), order[i..]) == DetachEach(start, start.order)
      {
        assert order[i..][1..] == order[i + 1..];
        if order[i] in tabs && tabs[order[i]].attached.Some? {
          DetachTab(order[i]);
          CallExtension(Detach(order[i]));
        }
        i := i + 1;
      }
    }

    /** The attached tab with this root session. */
    method FindRootTab(id: Text) returns (found: Option<nat>)
      ensures found == RootTab(View(), order, id)
    {
      var i := 0;
      while i < |order|
        invariant 0 <= i <= |order|
        invariant RootTab(View(), order[i..], id) == RootTab(View(), order, id)
      {
        assert order[i..][1..] == order[i + 1..];
        if order[i] in tabs && tabs[order[i]].attached == Some(id) {
          return Some(order[i]);
        }
        i := i + 1;
      }
      return None;
    }

    method OnAttachToBrowserTarget(client: nat) returns (sessionId: Text)
      requires client in clients
      modifies this
      ensures View() == NextOfClient(old(View()), AttachToBrowserTarget(client))
      ensures sessionId == BrowserSession(old(nextOrdinal))
    {
      sessionId := BrowserSession(nextOrdinal);
      nextOrdinal := nextOrdinal + 1;
      issued := issued + [sessionId];
      browserSessions := browserSessions[sessionId := client];
    }

    method OnSetAutoAttach(client: nat, on: bool)
      requires client in clients
      modifies this
      ensures View() == NextOfClient(old(View()), SetAutoAttach(client, on))
    {
      clients := clients[client := on];
      if !on {
        return;
      }
      ghost var start := View();
      var known := order;
      var i := 0;
      while i < |known|
        invariant 0 <= i <= |known| && known == start.order
        invariant ClaimEach(View(), known[i..]) == ClaimEach(start, start.order)
      {
        assert known[i..][1..] == known[i + 1..];
        ClaimAndAttachTab(known[i], None);
        i := i + 1;
      }
    }

    method DeleteAliasesThrough(parent: Text, client: nat)
      modifies this`auxiliary
      ensures auxiliary == map x | x in old(auxiliary)
        && !(old(auxiliary)[x].parent == parent && old(auxiliary)[x].client == client) :: old(auxiliary)[x]
    {
      ghost var start := auxiliary;
      var ids := auxiliary.Keys;
      while ids != {}
        invariant ids <= start.Keys
        invariant forall x :: x in auxiliary <==>
          x in start && (x in ids || !(start[x].parent == parent && start[x].client == client))
        invariant forall x :: x in auxiliary ==> auxiliary[x] == start[x]
        decreases |ids|
      {
        var x :| x in ids;
        if auxiliary[x].parent == parent && auxiliary[x].client == client {
          auxiliary := auxiliary - {x};
        }
        ids := ids - {x};
      }
    }

    method OnDetachFromTarget(client: nat, id: Text)
      requires client in clients
      modifies this
      ensures View() == DetachFromTarget(old(View()), client, id)
    {
      if id in browserSessions && browserSessions[id] == client {
        browserSessions := browserSessions - {id};
        DeleteAliasesThrough(id, client);
        return;
      }
      if id in auxiliary {
        if auxiliary[id].client == client {
          auxiliary := auxiliary - {id};
        }
        return;
      }
      var root := FindRootTab(id);
      if root.Some? && root.value in tabs && tabs[root.value].attached.Some? {
        DetachTab(root.value);
        CallExtension(Detach(root.value));
      }
    }

    method OnPageCommand(client: nat, id: Text)
      requires client in clients
      modifies this
      ensures View() == SessionCommand(old(View()), client, id)
    {
      if id in auxiliary && auxiliary[id].client != client {
        return;
      }
      var root := FindRootTab(id);
      if root.Some? {
        CallExtension(ForPage(root.value, None));
      } else if id in auxiliary {
        CallExtension(ForPage(auxiliary[id].tabId, None));
      } else if id in children {
        CallExtension(ForPage(children[id], Some(id)));
      }
    }

    method ForwardExtensionEvent(tabId: nat, child: Option<Text>, announced: Option<Text>)
      modifies this`children
      ensures View() == ExtensionEvent(old(View()), tabId, child, announced)
    {
      if tabId !in tabs || tabs[tabId].attached.None? {
        return;
      }
      if child.Some? {
        children := children[child.value := tabId];
      }
      if announced.Some? {
        children := children[announced.value := tabId];
      }
    }

    // ----- dispose

    method AttachedTabs() returns (attached: seq<nat>)
      ensures attached == AttachedIn(View(), order)
    {
      attached := [];
      var i := 0;
      while i < |order|
        invariant 0 <= i <= |order|
        invariant attached + AttachedIn(View(), order[i..]) == AttachedIn(View(), order)
      {
        assert order[i..][1..] == order[i + 1..];
        if order[i] in tabs && tabs[order[i]].attached.Some? {
          Assoc(attached, [order[i]], AttachedIn(View(), order[i + 1..]));
          attached := attached + [order[i]];
        } else {
          assert [] + AttachedIn(View(), order[i + 1..]) == AttachedIn(View(), order[i + 1..]);
        }
        i := i + 1;
      }
      assert attached + [] == attached;
    }

    method DetachCommands(attached: seq<nat>)
      modifies this`pending, this`jobs, this`settled, this`nextSeq
      ensures View() == CallEach(old(View()), attached)
    {
      ghost var start := View();
      var i := 0;
      while i < |attached|
        invariant 0 <= i <= |attached|
        invariant CallEach(View(), attached[i..]) == CallEach(start, attached)
      {
        assert attached[i..][1..] == attached[i + 1..];
        CallExtension(Detach(attached[i]));
        i := i + 1;
      }
    }

    /** Dispose up to its wait for the detach commands. */
    method BeginDispose()
      modifies this
      ensures View() == StartDispose(old(View()))
    {
      if closing {
        return;
      }
      ghost var start := View();
      var attached := AttachedTabs();
      closing := true;
      assert View() == start.(closing := true);
      RejectPending();
      assert View() == RejectAll(start.(closing := true));
      WithdrawAll();
      if extension != None {
        DetachCommands(attached);
      }
    }

    method WithdrawAll()
      modifies this`clients, this`browserSessions, this`auxiliary, this`tabs, this`order, this`children
      ensures View() == Withdrawn(old(View()))
    {
      clients, browserSessions, auxiliary := map[], map[], map[];
      tabs, order, children := map[], [], map[];
    }

    method FinishDispose()
      modifies this
      ensures View() == EndDispose(old(View()))
    {
      RejectPending();
      extension := None;
    }
  }

  /** Settling the next pending command, in order. */
  lemma {:induction false} SettleNext(b: Bridge, qs: seq<nat>, q: nat)
    ensures SettleEach(b, qs + [q]) ==
      (if q in SettleEach(b, qs).pending then Settle(SettleEach(b, qs), q, false) else SettleEach(b, qs))
    decreases |qs|
  {
    if qs == [] {
      assert qs + [q] == [q];
    } else {
      assert (qs + [q])[1..] == qs[1..] + [q];
      SettleNext(if qs[0] in b.pending then Settle(b, qs[0], false) else b, qs[1..], q);
    }
  }
}
