/**
 * What holds of every run of the relay bridge: child and auxiliary sessions refer to what is there, generated
 * session IDs never repeat, and every command is pending or settled exactly once.
 */
module RelayBridgeRuns {
  import opened Bytes
  import opened Results
  import opened RelayBridge
  import CanonicalJson

  // ----- the invariants, each over the fields it speaks of

  predicate Held(tabs: map<nat, Tab>, tabId: nat) { tabId in tabs && tabs[tabId].attached.Some? }

  /** Each child session's owner tab is attached. */
  ghost predicate ChildrenOwned(children: map<Text, nat>, tabs: map<nat, Tab>) {
    forall x :: x in children ==> Held(tabs, children[x])
  }

  /** Each auxiliary session's tab is attached. */
  ghost predicate AuxiliaryHeld(auxiliary: map<Text, Auxiliary>, tabs: map<nat, Tab>) {
    forall x :: x in auxiliary ==> Held(tabs, auxiliary[x].tabId)
  }

  /** Each auxiliary session's parent is a browser-level session of the same client, and owners are connected. */
  ghost predicate ParentsOwned(auxiliary: map<Text, Auxiliary>, browserSessions: map<Text, nat>,
          clients: map<nat, bool>) {
    && (forall x :: x in auxiliary ==>
          auxiliary[x].parent in browserSessions && browserSessions[auxiliary[x].parent] == auxiliary[x].client)
    && (forall x :: x in browserSessions ==> browserSessions[x] in clients)
  }

  /** Every command issued so far is pending or settled, never both, and settled at most once. */
  ghost predicate Accounted(pending: map<nat, Command>, settled: seq<nat>, nextSeq: nat) {
    && nextSeq >= 1
    && (forall q :: q in pending || q in settled <==> 1 <= q < nextSeq)
    && (forall q :: !(q in pending && q in settled))
    && (forall i, j :: 0 <= i < j < |settled| ==> settled[i] != settled[j])
  }

  /** The i-th generated ID ends in ordinal i + 1. */
  ghost predicate Generated(issued: seq<Text>, nextOrdinal: nat) {
    nextOrdinal == |issued| + 1 && forall i :: 0 <= i < |issued| ==> EndsIn(issued[i], i + 1)
  }

  ghost predicate EndsIn(id: Text, ordinal: nat) { exists stem :: id == Suffixed(stem, ordinal) }

  /** The insertion order lists the tabs, each once. */
  ghost predicate Listing(order: seq<nat>, tabs: map<nat, Tab>) {
    && (forall t :: t in order <==> t in tabs)
    && (forall i, j :: 0 <= i < j < |order| ==> order[i] != order[j])
  }

  /** Browser-level and auxiliary sessions have generated IDs. */
  ghost predicate NamedByUs(issued: seq<Text>, browserSessions: map<Text, nat>, auxiliary: map<Text, Auxiliary>) {
    (forall x :: x in browserSessions ==> x in issued) && forall x :: x in auxiliary ==> x in issued
  }

  ghost predicate Core(b: Bridge) {
    && ChildrenOwned(b.children, b.tabs)
    && ParentsOwned(b.auxiliary, b.browserSessions, b.clients)
    && Accounted(b.pending, b.settled, b.nextSeq)
    && Generated(b.issued, b.nextOrdinal)
    && NamedByUs(b.issued, b.browserSessions, b.auxiliary)
    && Listing(b.order, b.tabs)
  }

  ghost predicate Aux(b: Bridge) { AuxiliaryHeld(b.auxiliary, b.tabs) }

  // ----- generated IDs never repeat

  lemma {:induction false} DecimalValue(n: nat)
    ensures forall i :: 0 <= i < |CanonicalJson.Decimal(n)| ==> CanonicalJson.Decimal(n)[i] != 0x2D
  {
    forall i | 0 <= i < |CanonicalJson.Decimal(n)| ensures CanonicalJson.Decimal(n)[i] != 0x2D {
      assert CanonicalJson.IsDigit(CanonicalJson.Decimal(n)[i]);
    }
  }

  lemma {:induction false} DecimalUnique(m: nat, n: nat)
    requires CanonicalJson.Decimal(m) == CanonicalJson.Decimal(n)
    ensures m == n
  {
    var a, b := CanonicalJson.Decimal(m), CanonicalJson.Decimal(n);
    assert a[|a| - 1] == 0x30 + m % 10 && b[|b| - 1] == 0x30 + n % 10;
    if m >= 10 && n >= 10 {
      assert a[..|a| - 1] == CanonicalJson.Decimal(m / 10) && b[..|b| - 1] == CanonicalJson.Decimal(n / 10);
      DecimalUnique(m / 10, n / 10);
    }
  }

  lemma TailClean(stem: Text, x: Text)
    requires forall i :: 0 <= i < |x| ==> x[i] != 0x2D
    ensures var s := stem + [0x2D] + x; s[|stem|] == 0x2D && forall k :: |stem| < k < |s| ==> s[k] != 0x2D
  {
    var s := stem + [0x2D] + x;
    forall k | |stem| < k < |s| ensures s[k] != 0x2D {
      assert s[k] == x[k - |stem| - 1];
    }
  }

  /** What follows the last hyphen of an ID is its ordinal. */
  lemma OrdinalUnique(a: Text, i: nat, b: Text, j: nat)
    requires Suffixed(a, i) == Suffixed(b, j)
    ensures i == j
  {
    var x, y := CanonicalJson.Decimal(i), CanonicalJson.Decimal(j);
    DecimalValue(i);
    DecimalValue(j);
    TailClean(a, x);
    TailClean(b, y);
    assert |a| == |b|;
    assert Suffixed(a, i)[|a| + 1..] == x && Suffixed(b, j)[|b| + 1..] == y;
    DecimalUnique(i, j);
  }

  lemma NeverRepeats(issued: seq<Text>, nextOrdinal: nat)
    requires Generated(issued, nextOrdinal)
    ensures forall i, j :: 0 <= i < j < |issued| ==> issued[i] != issued[j]
  {
    forall i, j | 0 <= i < j < |issued| ensures issued[i] != issued[j] {
      assert EndsIn(issued[i], i + 1) && EndsIn(issued[j], j + 1);
      var a :| issued[i] == Suffixed(a, i + 1);
      var b :| issued[j] == Suffixed(b, j + 1);
      if Suffixed(a, i + 1) == Suffixed(b, j + 1) {
        OrdinalUnique(a, i + 1, b, j + 1);
      }
    }
  }

  lemma IssueGenerated(b: Bridge, stem: Text)
    requires Generated(b.issued, b.nextOrdinal)
    ensures var n := Issue(b, Suffixed(stem, b.nextOrdinal)); Generated(n.issued, n.nextOrdinal)
  {
    var n := Issue(b, Suffixed(stem, b.nextOrdinal));
    forall i | 0 <= i < |n.issued| ensures EndsIn(n.issued[i], i + 1) {
      if i < |b.issued| {
        assert n.issued[i] == b.issued[i];
      }
    }
  }

  // ----- commands

  lemma SettleAccounted(b: Bridge, q: nat, ok: bool)
    requires Accounted(b.pending, b.settled, b.nextSeq) && q in b.pending
    ensures var n := Settle(b, q, ok); Accounted(n.pending, n.settled, n.nextSeq)
  {
    var n := Settle(b, q, ok);
    assert forall x :: x in n.settled <==> x in b.settled || x == q;
  }

  lemma SettleCore(b: Bridge, q: nat, ok: bool)
    requires Core(b) && q in b.pending
    ensures Core(Settle(b, q, ok)) && (Aux(b) ==> Aux(Settle(b, q, ok)))
  {
    SettleAccounted(b, q, ok);
  }

  lemma CallCore(b: Bridge, c: Command)
    requires Core(b)
    ensures Core(Call(b, c)) && (Aux(b) ==> Aux(Call(b, c)))
  {
    var sent := b.(nextSeq := b.nextSeq + 1, pending := b.pending[b.nextSeq := c]);
    assert Accounted(sent.pending, sent.settled, sent.nextSeq);
    if b.extension.None? {
      SettleCore(sent, b.nextSeq, false);
    }
  }

  lemma {:induction false} SettleEachCore(b: Bridge, qs: seq<nat>)
    requires Core(b)
    ensures Core(SettleEach(b, qs)) && (Aux(b) ==> Aux(SettleEach(b, qs)))
    decreases |qs|
  {
    if qs != [] {
      if qs[0] in b.pending {
        SettleCore(b, qs[0], false);
        SettleEachCore(Settle(b, qs[0], false), qs[1..]);
      } else {
        SettleEachCore(b, qs[1..]);
      }
    }
  }

  /** Rejecting everything leaves all but the commands and the jobs alone. */
  lemma {:induction false} SettleEachFrame(b: Bridge, qs: seq<nat>)
    ensures var n := SettleEach(b, qs);
      n == b.(pending := n.pending, settled := n.settled, jobs := n.jobs)
    ensures SettleEach(b, qs).pending.Keys == b.pending.Keys - (set q | q in qs)
    decreases |qs|
  {
    if qs != [] {
      SettleEachFrame(if qs[0] in b.pending then Settle(b, qs[0], false) else b, qs[1..]);
      assert (set q | q in qs) == (set q | q in qs[1..]) + {qs[0]} by {
        assert qs == [qs[0]] + qs[1..];
      }
    }
  }

  lemma {:induction false} PendingBelowMembers(pending: map<nat, Command>, n: nat)
    ensures forall q: nat :: q in PendingBelow(pending, n) <==> q < n && q in pending
  {
    if n > 0 {
      PendingBelowMembers(pending, n - 1);
    }
  }

  lemma RejectAllCore(b: Bridge)
    requires Core(b)
    ensures Core(RejectAll(b)) && (Aux(b) ==> Aux(RejectAll(b))) && RejectAll(b).pending == map[]
    ensures var n := RejectAll(b); n == b.(pending := n.pending, settled := n.settled, jobs := n.jobs)
  {
    var qs := PendingBelow(b.pending, b.nextSeq);
    SettleEachCore(b, qs);
    SettleEachFrame(b, qs);
    PendingBelowMembers(b.pending, b.nextSeq);
    assert RejectAll(b).pending.Keys == {};
  }

  // ----- tabs

  /** Clearing a tab's attachment together with its aliases and children. */
  lemma UnattachCore(b: Bridge, tabId: nat)
    requires Core(b)
    ensures Core(Unattach(b, tabId)) && (Aux(b) ==> Aux(Unattach(b, tabId)))
  {
    var n := Unattach(b, tabId);
    if Attached(b, tabId) {
      forall x | x in n.children ensures Held(n.tabs, n.children[x]) {
        assert Held(b.tabs, b.children[x]);
      }
      if Aux(b) {
        forall x | x in n.auxiliary ensures Held(n.tabs, n.auxiliary[x].tabId) {
          assert Held(b.tabs, b.auxiliary[x].tabId);
        }
      }
    }
  }

  lemma {:induction false} UnattachEachCore(b: Bridge, tabIds: seq<nat>)
    requires Core(b)
    ensures Core(UnattachEach(b, tabIds)) && (Aux(b) ==> Aux(UnattachEach(b, tabIds)))
    decreases |tabIds|
  {
    if tabIds != [] {
      UnattachCore(b, tabIds[0]);
      UnattachEachCore(Unattach(b, tabIds[0]), tabIds[1..]);
    }
  }

  lemma {:induction false} RemoveMembers(s: seq<nat>, x: nat)
    requires forall i, j :: 0 <= i < j < |s| ==> s[i] != s[j]
    ensures forall y :: y in Remove(s, x) <==> y in s && y != x
    ensures forall i, j :: 0 <= i < j < |Remove(s, x)| ==> Remove(s, x)[i] != Remove(s, x)[j]
  {
    if s != [] {
      RemoveMembers(s[1..], x);
      assert s == [s[0]] + s[1..];
      var rest := Remove(s[1..], x);
      assert s[0] !in rest;
      forall i | 0 <= i < |rest| ensures rest[i] != s[0] {
        assert rest[i] in rest;
      }
    }
  }

  lemma RemovedListing(order: seq<nat>, tabs: map<nat, Tab>, tabId: nat)
    requires Listing(order, tabs)
    ensures Listing(Remove(order, tabId), tabs - {tabId})
  {
    RemoveMembers(order, tabId);
  }

  lemma EmitClears(b: Bridge, tabId: nat)
    requires ChildrenOwned(b.children, b.tabs)
    ensures ChildrenOwned(Emit(b, tabId).children, b.tabs - {tabId})
    ensures Aux(b) ==> AuxiliaryHeld(Emit(b, tabId).auxiliary, b.tabs - {tabId})
    ensures !Attached(b, tabId) ==> ChildrenOwned(b.children, b.tabs - {tabId})
    ensures !Attached(b, tabId) && Aux(b) ==> AuxiliaryHeld(b.auxiliary, b.tabs - {tabId})
  {
  }

  lemma DropCore(b: Bridge, tabId: nat)
    requires Core(b)
    ensures Core(Drop(b, tabId)) && (Aux(b) ==> Aux(Drop(b, tabId)))
  {
    EmitClears(b, tabId);
    RemovedListing(b.order, b.tabs, tabId);
  }

  lemma {:induction false} DropMissingCore(b: Bridge, tabIds: seq<nat>, snapshot: seq<nat>)
    requires Core(b)
    ensures Core(DropMissing(b, tabIds, snapshot)) && (Aux(b) ==> Aux(DropMissing(b, tabIds, snapshot)))
    decreases |tabIds|
  {
    if tabIds != [] {
      DropCore(b, tabIds[0]);
      DropMissingCore(if tabIds[0] in snapshot then b else Drop(b, tabIds[0]), tabIds[1..], snapshot);
    }
  }

  /** Rewriting a tab's record without detaching it. */
  lemma KeepCore(b: Bridge, tabId: nat, tab: Tab)
    requires Core(b) && tabId in b.tabs && (b.tabs[tabId].attached.Some? ==> tab.attached.Some?)
    ensures Core(b.(tabs := b.tabs[tabId := tab])) && (Aux(b) ==> Aux(b.(tabs := b.tabs[tabId := tab])))
  {
    var tabs := b.tabs[tabId := tab];
    forall x | x in b.children ensures Held(tabs, b.children[x]) {
      assert Held(b.tabs, b.children[x]);
    }
    if Aux(b) {
      forall x | x in b.auxiliary ensures Held(tabs, b.auxiliary[x].tabId) {
        assert Held(b.tabs, b.auxiliary[x].tabId);
      }
    }
  }

  lemma JobsCore(b: Bridge, jobs: seq<Job>)
    requires Core(b)
    ensures Core(b.(jobs := jobs)) && (Aux(b) ==> Aux(b.(jobs := jobs)))
  {
  }

  lemma ClaimCore(b: Bridge, tabId: nat, waiter: Option<Waiter>)
    requires Core(b)
    ensures Core(Claim(b, tabId, waiter)) && (Aux(b) ==> Aux(Claim(b, tabId, waiter)))
  {
    if tabId in b.tabs {
      var tab := b.tabs[tabId];
      if tab.attached.Some? {
        JobsCore(b, b.jobs + WokenBy(tabId, waiter));
      } else if tab.attaching.None? {
        var waiting := tab.(attaching := Some(InFlight(Listed(waiter))));
        KeepCore(b, tabId, waiting);
        CallCore(b.(tabs := b.tabs[tabId := waiting]), Attach(tabId, tab.handle));
      } else {
        match tab.attaching.value {
          case InFlight(waiters) => KeepCore(b, tabId, tab.(attaching := Some(InFlight(waiters + Listed(waiter)))));
          case Settled(ok) => JobsCore(b, b.jobs + WokenBy(tabId, waiter));
        }
      }
    }
  }

  lemma AddedCore(b: Bridge, tabId: nat)
    requires Core(b) && tabId !in b.tabs
    ensures Core(Added(b, tabId)) && (Aux(b) ==> Aux(Added(b, tabId)))
  {
    var n := Added(b, tabId);
    assert ChildrenOwned(b.children, n.tabs);
    assert Aux(b) ==> AuxiliaryHeld(b.auxiliary, n.tabs);
    forall t ensures t in n.order <==> t in n.tabs {}
  }

  lemma ReportCore(b: Bridge, tabId: nat)
    requires Core(b)
    ensures Core(Report(b, tabId)) && (Aux(b) ==> Aux(Report(b, tabId)))
  {
    if tabId !in b.tabs {
      AddedCore(b, tabId);
      ClaimCore(Added(b, tabId), tabId, None);
    }
  }

  lemma {:induction false} ReportEachCore(b: Bridge, tabIds: seq<nat>)
    requires Core(b)
    ensures Core(ReportEach(b, tabIds)) && (Aux(b) ==> Aux(ReportEach(b, tabIds)))
    decreases |tabIds|
  {
    if tabIds != [] {
      ReportCore(b, tabIds[0]);
      ReportEachCore(Report(b, tabIds[0]), tabIds[1..]);
    }
  }

  lemma SyncTabsCore(b: Bridge, snapshot: seq<nat>)
    requires Core(b)
    ensures Core(SyncTabs(b, snapshot)) && (Aux(b) ==> Aux(SyncTabs(b, snapshot)))
  {
    DropMissingCore(b, b.order, snapshot);
    ReportEachCore(DropMissing(b, b.order, snapshot), snapshot);
  }

  lemma GoneCore(b: Bridge)
    requires Core(b)
    ensures Core(Gone(b)) && (Aux(b) ==> Aux(Gone(b)))
  {
    var rejected := RejectAll(b.(extension := None));
    RejectAllCore(b.(extension := None));
    UnattachEachCore(rejected, rejected.order);
    var loose := UnattachEach(rejected, rejected.order);
    if Aux(b) {
      UnattachEachAll(rejected, rejected.order);
      assert forall t :: !Held(loose.tabs, t);
      assert AuxiliaryHeld(loose.auxiliary, loose.tabs);
      assert forall x :: x !in loose.auxiliary;
    }
  }

  /** Detaching every listed tab leaves none of them attached. */
  lemma {:induction false} UnattachEachAll(b: Bridge, tabIds: seq<nat>)
    ensures var n := UnattachEach(b, tabIds);
      forall t :: Held(n.tabs, t) ==> Held(b.tabs, t) && t !in tabIds
    decreases |tabIds|
  {
    if tabIds != [] {
      var next := Unattach(b, tabIds[0]);
      assert !Held(next.tabs, tabIds[0]);
      UnattachEachAll(next, tabIds[1..]);
      assert forall t :: t in tabIds <==> t == tabIds[0] || t in tabIds[1..];
    }
  }

  // ----- jobs

  lemma FinishCore(b: Bridge, tabId: nat, ok: bool)
    requires Core(b) && tabId in b.tabs
    ensures Core(Finish(b, tabId, ok)) && (Aux(b) ==> Aux(Finish(b, tabId, ok)))
  {
    var tab := b.tabs[tabId].(attaching := Some(Settled(ok)));
    KeepCore(b, tabId, tab);
    JobsCore(b.(tabs := b.tabs[tabId := tab]), Finish(b, tabId, ok).jobs);
  }

  lemma IssueCore(b: Bridge, stem: Text)
    requires Core(b)
    ensures Core(Issue(b, Suffixed(stem, b.nextOrdinal))) && (Aux(b) ==> Aux(Issue(b, Suffixed(stem, b.nextOrdinal))))
  {
    IssueGenerated(b, stem);
  }

  lemma AttachGoesOnCore(b: Bridge, tabId: nat, handle: nat, ok: bool)
    requires Core(b)
    ensures Core(AttachGoesOn(b, tabId, handle, ok)) && (Aux(b) ==> Aux(AttachGoesOn(b, tabId, handle, ok)))
  {
    if !ok {
      if SameTab(b, tabId, handle) {
        FinishCore(b, tabId, false);
      }
    } else {
      var id := TabSession(tabId, b.nextOrdinal);
      var named := Issue(b, id);
      IssueCore(b, Ascii("agent-tab-bridge-tab-") + CanonicalJson.Decimal(tabId));
      if !SameTab(b, tabId, handle) {
        CallCore(named, Detach(tabId));
      } else {
        KeepCore(named, tabId, b.tabs[tabId].(attached := Some(id)));
        FinishCore(AttachedAs(named, tabId, id), tabId, true);
      }
    }
  }

  /** The waiting request makes an alias for a tab that is not attached any more. */
  predicate StrayAlias(b: Bridge, tabId: nat, w: Waiter) {
    && w.parent.Some? && w.parent.value in b.browserSessions && b.browserSessions[w.parent.value] == w.client
    && !Held(b.tabs, tabId)
  }

  lemma AliasCore(b: Bridge, tabId: nat, w: Waiter)
    requires Core(b)
    ensures Core(AttachToTargetGoesOn(b, tabId, w))
    ensures Aux(b) ==> (Aux(AttachToTargetGoesOn(b, tabId, w)) <==> !StrayAlias(b, tabId, w))
  {
    var id := TabSession(tabId, b.nextOrdinal);
    var n := AttachToTargetGoesOn(b, tabId, w);
    IssueCore(b, Ascii("agent-tab-bridge-tab-") + CanonicalJson.Decimal(tabId));
    if n != b {
      assert id in n.auxiliary && n.auxiliary[id].tabId == tabId;
    }
  }

  predicate Strays(b: Bridge, event: Event) {
    event.RunJob? && event.k < |b.jobs| && b.jobs[event.k].Woken?
      && StrayAlias(b, b.jobs[event.k].tabId, b.jobs[event.k].waiter)
  }

  lemma JobCore(b: Bridge, k: nat)
    requires Core(b) && k < |b.jobs|
    ensures Core(Next(b, RunJob(k)))
    ensures Aux(b) ==> (Aux(Next(b, RunJob(k))) <==> !Strays(b, RunJob(k)))
  {
    var rest := b.(jobs := Without(b.jobs, k));
    JobsCore(b, Without(b.jobs, k));
    match b.jobs[k] {
      case AttachReturned(tabId, handle, ok) => AttachGoesOnCore(rest, tabId, handle, ok);
      case AttachFinally(tabId, handle) =>
        if SameTab(rest, tabId, handle) {
          KeepCore(rest, tabId, rest.tabs[tabId].(attaching := None));
        }
      case Woken(tabId, w) => AliasCore(rest, tabId, w);
    }
  }

  // ----- clients

  lemma {:induction false} DetachEachCore(b: Bridge, tabIds: seq<nat>)
    requires Core(b)
    ensures Core(DetachEach(b, tabIds)) && (Aux(b) ==> Aux(DetachEach(b, tabIds)))
    decreases |tabIds|
  {
    if tabIds != [] {
      UnattachCore(b, tabIds[0]);
      CallCore(Unattach(b, tabIds[0]), Detach(tabIds[0]));
      DetachEachCore(
        if Attached(b, tabIds[0]) then Call(Unattach(b, tabIds[0]), Detach(tabIds[0])) else b, tabIds[1..]);
    }
  }

  lemma CloseClientCore(b: Bridge, client: nat)
    requires Core(b)
    ensures Core(CloseClient(b, client)) && (Aux(b) ==> Aux(CloseClient(b, client)))
  {
    var gone := b.(
      clients := b.clients - {client},
      browserSessions := map x | x in b.browserSessions && b.browserSessions[x] != client :: b.browserSessions[x],
      auxiliary := map x | x in b.auxiliary && b.auxiliary[x].client != client :: b.auxiliary[x]);
    assert Core(gone) && (Aux(b) ==> Aux(gone));
    DetachEachCore(gone, gone.order);
  }

  lemma {:induction false} ClaimEachCore(b: Bridge, tabIds: seq<nat>)
    requires Core(b)
    ensures Core(ClaimEach(b, tabIds)) && (Aux(b) ==> Aux(ClaimEach(b, tabIds)))
    decreases |tabIds|
  {
    if tabIds != [] {
      ClaimCore(b, tabIds[0], None);
      ClaimEachCore(Claim(b, tabIds[0], None), tabIds[1..]);
    }
  }

  /** Dropping a browser-level session together with the aliases made through it. */
  lemma DropBrowserSession(b: Bridge, client: nat, id: Text)
    requires Core(b) && id in b.browserSessions && b.browserSessions[id] == client
    ensures var n := DetachFromTarget(b, client, id); Core(n) && (Aux(b) ==> Aux(n))
  {
    var n := DetachFromTarget(b, client, id);
    assert ParentsOwned(n.auxiliary, n.browserSessions, n.clients);
  }

  lemma DetachFromTargetCore(b: Bridge, client: nat, id: Text)
    requires Core(b)
    ensures var n := DetachFromTarget(b, client, id); Core(n) && (Aux(b) ==> Aux(n))
  {
    if id in b.browserSessions && b.browserSessions[id] == client {
      DropBrowserSession(b, client, id);
    } else if id in b.auxiliary {
      var fewer := b.(auxiliary := b.auxiliary - {id});
      assert Core(fewer) && (Aux(b) ==> Aux(fewer));
    } else {
      var root := RootTab(b, b.order, id);
      if root.Some? && Attached(b, root.value) {
        UnattachCore(b, root.value);
        CallCore(Unattach(b, root.value), Detach(root.value));
      }
    }
  }

  lemma ExtensionEventCore(b: Bridge, tabId: nat, child: Option<Text>, announced: Option<Text>)
    requires Core(b)
    ensures var n := ExtensionEvent(b, tabId, child, announced); Core(n) && (Aux(b) ==> Aux(n))
  {
    if Attached(b, tabId) {
      assert Held(b.tabs, tabId);
    }
  }

  /** The next generated ID is none of those in use. */
  lemma FreshId(b: Bridge, stem: Text)
    requires Core(b)
    ensures Suffixed(stem, b.nextOrdinal) !in b.issued
  {
    forall i | 0 <= i < |b.issued| ensures b.issued[i] != Suffixed(stem, b.nextOrdinal) {
      assert EndsIn(b.issued[i], i + 1);
      var s :| b.issued[i] == Suffixed(s, i + 1);
      if Suffixed(s, i + 1) == Suffixed(stem, b.nextOrdinal) {
        OrdinalUnique(s, i + 1, stem, b.nextOrdinal);
      }
    }
  }

  lemma BrowserSessionCore(b: Bridge, client: nat)
    requires Core(b) && client in b.clients
    ensures var n := NextOfClient(b, AttachToBrowserTarget(client)); Core(n) && (Aux(b) ==> Aux(n))
  {
    var id := BrowserSession(b.nextOrdinal);
    IssueCore(b, Ascii("agent-tab-bridge-browser"));
    FreshId(b, Ascii("agent-tab-bridge-browser"));
  }

  // ----- dispose

  lemma {:induction false} CallEachCore(b: Bridge, tabIds: seq<nat>)
    requires Core(b)
    ensures Core(CallEach(b, tabIds)) && (Aux(b) ==> Aux(CallEach(b, tabIds)))
    decreases |tabIds|
  {
    if tabIds != [] {
      CallCore(b, Detach(tabIds[0]));
      CallEachCore(Call(b, Detach(tabIds[0])), tabIds[1..]);
    }
  }

  lemma StartDisposeCore(b: Bridge)
    requires Core(b)
    ensures Core(StartDispose(b)) && (Aux(b) ==> Aux(StartDispose(b)))
  {
    RejectAllCore(b.(closing := true));
    var cleared := Withdrawn(RejectAll(b.(closing := true)));
    assert Core(cleared) && Aux(cleared);
    CallEachCore(cleared, AttachedIn(b, b.order));
  }

  // ----- every step

  lemma ExtensionStepCore(b: Bridge, event: Event)
    requires Core(b) && FromExtension(event)
    ensures var n := NextOfExtension(b, event); Core(n) && (Aux(b) ==> Aux(n))
  {
    if !b.closing {
      match event {
        case ExtensionConnects => GoneCore(b);
        case Hello(socket, snapshot) => SyncTabsCore(b.(extension := Some(socket)), snapshot);
        case Answered(q, ok) => if q in b.pending { SettleCore(b, q, ok); }
        case DebuggerEvent(tabId, child, announced) => ExtensionEventCore(b, tabId, child, announced);
        case TabsReported(snapshot) => SyncTabsCore(b, snapshot);
        case DebuggerDetached(tabId) => UnattachCore(b, tabId);
      }
    }
  }

  lemma ClientStepCore(b: Bridge, event: Event)
    requires Core(b) && FromClient(event) && event.client in b.clients
    ensures var n := NextOfClient(b, event); Core(n) && (Aux(b) ==> Aux(n))
  {
    match event {
      case ClientCloses(client) => CloseClientCore(b, client);
      case AttachToBrowserTarget(client) => BrowserSessionCore(b, client);
      case SetAutoAttach(client, on) =>
        var chosen := b.(clients := b.clients[client := on]);
        assert Core(chosen);
        ClaimEachCore(chosen, chosen.order);
      case AttachToTarget(client, tabId, parent) => ClaimCore(b, tabId, Some(Waiter(client, parent)));
      case DetachTarget(client, id) => DetachFromTargetCore(b, client, id);
      case PageCommand(client, id) =>
        if PageOf(b, id).Some? {
          CallCore(b, PageOf(b, id).value);
        }
      case TabCommand(client) => CallCore(b, OnTabs);
    }
  }

  lemma OtherStepCore(b: Bridge, event: Event)
    requires Core(b) && Enabled(b, event) && !FromClient(event) && !FromExtension(event) && !event.RunJob?
    ensures Core(Next(b, event)) && (Aux(b) ==> Aux(Next(b, event)))
  {
    match event {
      case ExtensionCloses(socket) => GoneCore(b);
      case PingFails => GoneCore(b);
      case TimesOut(q) => SettleCore(b, q, false);
      case ClientConnects(client) =>
        assert ParentsOwned(b.auxiliary, b.browserSessions, b.clients[client := false]);
      case Dispose => StartDisposeCore(b);
      case DisposeEnds => RejectAllCore(b);
    }
  }

  /** Every step keeps the core, and all steps but one keep every auxiliary session's tab attached. */
  lemma StepCore(b: Bridge, event: Event)
    requires Core(b) && Enabled(b, event)
    ensures Core(Next(b, event))
    ensures Aux(b) ==> (Aux(Next(b, event)) <==> !Strays(b, event))
  {
    if FromClient(event) {
      ClientStepCore(b, event);
    } else if FromExtension(event) {
      ExtensionStepCore(b, event);
    } else if event.RunJob? {
      JobCore(b, event.k);
    } else {
      OtherStepCore(b, event);
    }
  }

  lemma EmptyCore()
    ensures Core(EMPTY) && Aux(EMPTY)
  {
  }

  lemma {:induction false} RunCore(b: Bridge, trace: seq<Event>)
    requires Core(b) && Legal(b, trace)
    ensures Core(Run(b, trace))
    decreases |trace|
  {
    if trace != [] {
      StepCore(b, trace[0]);
      RunCore(Next(b, trace[0]), trace[1..]);
    }
  }

  // ----- the theorems

  /**
   * After every run, whatever the order of messages, timers and continuations: each child session's owner tab is
   * attached; each auxiliary session's parent is a browser-level session of the same client, which is connected;
   * and no generated session ID was ever issued twice.
   */
  lemma CrossReferences(trace: seq<Event>)
    requires Legal(EMPTY, trace)
    ensures var b := Run(EMPTY, trace);
      && (forall x :: x in b.children ==> Attached(b, b.children[x]))
      && (forall x :: x in b.auxiliary ==>
            && b.auxiliary[x].parent in b.browserSessions
            && b.browserSessions[b.auxiliary[x].parent] == b.auxiliary[x].client
            && b.auxiliary[x].client in b.clients)
      && (forall x :: x in b.browserSessions ==> b.browserSessions[x] in b.clients)
      && (forall i, j :: 0 <= i < j < |b.issued| ==> b.issued[i] != b.issued[j])
  {
    EmptyCore();
    RunCore(EMPTY, trace);
    var b := Run(EMPTY, trace);
    NeverRepeats(b.issued, b.nextOrdinal);
    forall x | x in b.children ensures Attached(b, b.children[x]) {
      assert Held(b.tabs, b.children[x]);
    }
  }

  /** After every run each command ever issued is pending under its own number or was settled, exactly once. */
  lemma CommandsSettledOnce(trace: seq<Event>, q: nat)
    requires Legal(EMPTY, trace) && 1 <= q < Run(EMPTY, trace).nextSeq
    ensures var b := Run(EMPTY, trace);
      && (q in b.pending <==> q !in b.settled)
      && (forall i, j :: 0 <= i < |b.settled| && 0 <= j < |b.settled| && b.settled[i] == q && b.settled[j] == q ==>
        i == j)
      && (forall p :: p in b.pending || p in b.settled ==> 1 <= p < b.nextSeq)
  {
    EmptyCore();
    RunCore(EMPTY, trace);
  }

  /** Along a run, from every state on, every auxiliary session's tab is attached. */
  ghost predicate AlwaysHeld(b: Bridge, trace: seq<Event>)
    requires Legal(b, trace)
    decreases |trace|
  {
    Aux(b) && (trace != [] ==> AlwaysHeld(Next(b, trace[0]), trace[1..]))
  }

  /** No waiting attachToTarget goes on, to make an alias, after its tab was detached. */
  predicate NeverStrays(b: Bridge, trace: seq<Event>)
    requires Legal(b, trace)
    decreases |trace|
  {
    trace != [] ==> !Strays(b, trace[0]) && NeverStrays(Next(b, trace[0]), trace[1..])
  }

  lemma {:induction false} HeldIff(b: Bridge, trace: seq<Event>)
    requires Core(b) && Aux(b) && Legal(b, trace)
    ensures AlwaysHeld(b, trace) <==> NeverStrays(b, trace)
    decreases |trace|
  {
    if trace != [] {
      StepCore(b, trace[0]);
      if !Strays(b, trace[0]) {
        HeldIff(Next(b, trace[0]), trace[1..]);
      }
    }
  }

  /** Exactly then does every auxiliary session's tab stay attached throughout a run. */
  lemma AuxiliaryHeldIff(trace: seq<Event>)
    requires Legal(EMPTY, trace)
    ensures AlwaysHeld(EMPTY, trace) <==> NeverStrays(EMPTY, trace)
  {
    EmptyCore();
    HeldIff(EMPTY, trace);
  }
}
