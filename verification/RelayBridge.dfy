/**
 * The relay bridge's cross-referencing maps as values: tabs, clients, browser-level, auxiliary and child sessions,
 * and the commands pending at the extension. A settled command wakes its continuation as a job of its own; jobs run
 * in any order, and any number of socket messages may come between them.
 */
module RelayBridge {
  import opened Bytes
  import opened Results
  import CanonicalJson

  /** One waiting Target.attachToTarget request: its client, and the browser-level session it came through. */
  datatype Waiter = Waiter(client: nat, parent: Option<Text>)

  /** A tab's attach promise: in flight with those who wait for it, or settled and not yet cleared. */
  datatype Attaching = InFlight(waiters: seq<Waiter>) | Settled(ok: bool)

  /** One TabState handle; `handle` is its identity. */
  datatype Tab = Tab(handle: nat, attached: Option<Text>, attaching: Option<Attaching>)

  datatype Auxiliary = Auxiliary(tabId: nat, parent: Text, client: nat)

  /** A command to the extension; what waits for an attach goes on, what waits for any other touches no map. */
  datatype Command =
    | Attach(tabId: nat, handle: nat)
    | Detach(tabId: nat)
    | ForPage(tabId: nat, child: Option<Text>)
    | OnTabs  // create, close or activate a tab

  datatype Job =
    | AttachReturned(tabId: nat, handle: nat, ok: bool)
    | AttachFinally(tabId: nat, handle: nat)
    | Woken(tabId: nat, waiter: Waiter)

  /** `clients` say who auto-attaches; `order` is the tabs' insertion order; `settled` and `issued` are histories. */
  datatype Bridge = Bridge(
    extension: Option<nat>, clients: map<nat, bool>, tabs: map<nat, Tab>, order: seq<nat>,
    browserSessions: map<Text, nat>, auxiliary: map<Text, Auxiliary>, children: map<Text, nat>,
    pending: map<nat, Command>, jobs: seq<Job>, nextSeq: nat, nextOrdinal: nat, nextObject: nat, closing: bool,
    settled: seq<nat>, issued: seq<Text>)

  const EMPTY := Bridge(None, map[], map[], [], map[], map[], map[], map[], [], 1, 1, 0, false, [], [])

  // ----- session IDs

  function Suffixed(stem: Text, ordinal: nat): Text { stem + [0x2D] + CanonicalJson.Decimal(ordinal) }

  function BrowserSession(ordinal: nat): Text { Suffixed(Ascii("agent-tab-bridge-browser"), ordinal) }

  function TabSession(tabId: nat, ordinal: nat): Text {
    Suffixed(Ascii("agent-tab-bridge-tab-") + CanonicalJson.Decimal(tabId), ordinal)
  }

  function Issue(b: Bridge, id: Text): Bridge { b.(nextOrdinal := b.nextOrdinal + 1, issued := b.issued + [id]) }

  // ----- commands

  function Wakes(c: Command, ok: bool): seq<Job> {
    match c
    case Attach(tabId, handle) => [AttachReturned(tabId, handle, ok)]
    case _ => []
  }

  function Settle(b: Bridge, q: nat, ok: bool): Bridge
    requires q in b.pending
  {
    b.(pending := b.pending - {q}, settled := b.settled + [q], jobs := b.jobs + Wakes(b.pending[q], ok))
  }

  /** callExtension: without an extension the command is rejected at once. */
  function Call(b: Bridge, c: Command): Bridge {
    var sent := b.(nextSeq := b.nextSeq + 1, pending := b.pending[b.nextSeq := c]);
    if b.extension.None? then Settle(sent, b.nextSeq, false) else sent
  }

  /** The pending commands below n, oldest first: sequence numbers are insertion order. */
  function PendingBelow(pending: map<nat, Command>, n: nat): seq<nat> {
    if n == 0 then [] else PendingBelow(pending, n - 1) + if n - 1 in pending then [n - 1] else []
  }

  function SettleEach(b: Bridge, qs: seq<nat>): Bridge
    decreases |qs|
  {
    if qs == [] then b else SettleEach(if qs[0] in b.pending then Settle(b, qs[0], false) else b, qs[1..])
  }

  function RejectAll(b: Bridge): Bridge { SettleEach(b, PendingBelow(b.pending, b.nextSeq)) }

  // ----- tabs

  predicate Attached(b: Bridge, tabId: nat) { tabId in b.tabs && b.tabs[tabId].attached.Some? }

  /** emitDetachedFromTarget: the aliases and children of a tab go with its attachment. */
  function Emit(b: Bridge, tabId: nat): Bridge {
    b.(auxiliary := map x | x in b.auxiliary && b.auxiliary[x].tabId != tabId :: b.auxiliary[x],
       children := map x | x in b.children && b.children[x] != tabId :: b.children[x])
  }

  function Unattach(b: Bridge, tabId: nat): Bridge {
    if !Attached(b, tabId) then b else Emit(b.(tabs := b.tabs[tabId := b.tabs[tabId].(attached := None)]), tabId)
  }

  function UnattachEach(b: Bridge, tabIds: seq<nat>): Bridge
    decreases |tabIds|
  {
    if tabIds == [] then b else UnattachEach(Unattach(b, tabIds[0]), tabIds[1..])
  }

  function Remove(s: seq<nat>, x: nat): seq<nat> {
    if s == [] then [] else (if s[0] == x then [] else [s[0]]) + Remove(s[1..], x)
  }

  /** A tab that left the snapshot. */
  function Drop(b: Bridge, tabId: nat): Bridge {
    var told := if Attached(b, tabId) then Emit(b, tabId) else b;
    told.(tabs := told.tabs - {tabId}, order := Remove(told.order, tabId))
  }

  function DropMissing(b: Bridge, tabIds: seq<nat>, snapshot: seq<nat>): Bridge
    decreases |tabIds|
  {
    if tabIds == [] then b
    else DropMissing(if tabIds[0] in snapshot then b else Drop(b, tabIds[0]), tabIds[1..], snapshot)
  }

  function WokenBy(tabId: nat, waiter: Option<Waiter>): seq<Job> {
    if waiter.Some? then [Woken(tabId, waiter.value)] else []
  }

  function Listed(waiter: Option<Waiter>): seq<Waiter> { if waiter.Some? then [waiter.value] else [] }

  /** claimAndAttachTab up to its first wait. A rejected claim wakes nobody who would touch a map. */
  function Claim(b: Bridge, tabId: nat, waiter: Option<Waiter>): Bridge {
    if tabId !in b.tabs then b
    else
      var tab := b.tabs[tabId];
      if tab.attached.Some? then b.(jobs := b.jobs + WokenBy(tabId, waiter))
      else if tab.attaching.None? then
        Call(b.(tabs := b.tabs[tabId := tab.(attaching := Some(InFlight(Listed(waiter))))]), Attach(tabId, tab.handle))
      else
        match tab.attaching.value
        case InFlight(waiters) =>
          b.(tabs := b.tabs[tabId := tab.(attaching := Some(InFlight(waiters + Listed(waiter))))])
        case Settled(ok) => if ok then b.(jobs := b.jobs + WokenBy(tabId, waiter)) else b
  }

  predicate AutoAttaches(b: Bridge) { exists c :: c in b.clients && b.clients[c] }

  function Added(b: Bridge, tabId: nat): Bridge {
    b.(tabs := b.tabs[tabId := Tab(b.nextObject, None, None)], order := b.order + [tabId],
       nextObject := b.nextObject + 1)
  }

  /** A tab of the snapshot; a new one is claimed for clients that auto-attach. */
  function Report(b: Bridge, tabId: nat): Bridge {
    if tabId in b.tabs then b
    else if AutoAttaches(b) then Claim(Added(b, tabId), tabId, None)
    else Added(b, tabId)
  }

  function ReportEach(b: Bridge, tabIds: seq<nat>): Bridge
    decreases |tabIds|
  {
    if tabIds == [] then b else ReportEach(Report(b, tabIds[0]), tabIds[1..])
  }

  function SyncTabs(b: Bridge, snapshot: seq<nat>): Bridge { ReportEach(DropMissing(b, b.order, snapshot), snapshot) }

  function TabsForgotten(b: Bridge): Bridge { b.(tabs := map[], order := [], children := map[]) }

  function Gone(b: Bridge): Bridge {
    var rejected := RejectAll(b.(extension := None));
    TabsForgotten(UnattachEach(rejected, rejected.order))
  }

  // ----- jobs

  predicate SameTab(b: Bridge, tabId: nat, handle: nat) { tabId in b.tabs && b.tabs[tabId].handle == handle }

  function WakeEach(tabId: nat, waiters: seq<Waiter>): seq<Job> {
    if waiters == [] then [] else [Woken(tabId, waiters[0])] + WakeEach(tabId, waiters[1..])
  }

  /** The attach promise of a tab settles. */
  function Finish(b: Bridge, tabId: nat, ok: bool): Bridge
    requires tabId in b.tabs
  {
    var tab := b.tabs[tabId];
    var waiters := if tab.attaching.Some? && tab.attaching.value.InFlight? then tab.attaching.value.waiters else [];
    b.(tabs := b.tabs[tabId := tab.(attaching := Some(Settled(ok)))],
       jobs := b.jobs + (if ok then WakeEach(tabId, waiters) else []) + [AttachFinally(tabId, tab.handle)])
  }

  function AttachedAs(b: Bridge, tabId: nat, id: Text): Bridge
    requires tabId in b.tabs
  {
    b.(tabs := b.tabs[tabId := b.tabs[tabId].(attached := Some(id))])
  }

  /** The attach goes on after the extension's answer; a tab that was replaced meanwhile is detached again. */
  function AttachGoesOn(b: Bridge, tabId: nat, handle: nat, ok: bool): Bridge {
    if !ok then (if SameTab(b, tabId, handle) then Finish(b, tabId, false) else b)
    else
      var id := TabSession(tabId, b.nextOrdinal);
      var named := Issue(b, id);
      if !SameTab(b, tabId, handle) then Call(named, Detach(tabId))
      else Finish(AttachedAs(named, tabId, id), tabId, true)
  }

  function AttachCleared(b: Bridge, tabId: nat, handle: nat): Bridge {
    if SameTab(b, tabId, handle) then b.(tabs := b.tabs[tabId := b.tabs[tabId].(attaching := None)]) else b
  }

  /** The rest of Target.attachToTarget: an alias, if the browser-level session is still this client's. */
  function AttachToTargetGoesOn(b: Bridge, tabId: nat, w: Waiter): Bridge {
    if w.parent.Some? && w.parent.value in b.browserSessions && b.browserSessions[w.parent.value] == w.client then
      var id := TabSession(tabId, b.nextOrdinal);
      Issue(b, id).(auxiliary := b.auxiliary[id := Auxiliary(tabId, w.parent.value, w.client)])
    else b
  }

  function Do(b: Bridge, job: Job): Bridge {
    match job
    case AttachReturned(tabId, handle, ok) => AttachGoesOn(b, tabId, handle, ok)
    case AttachFinally(tabId, handle) => AttachCleared(b, tabId, handle)
    case Woken(tabId, w) => AttachToTargetGoesOn(b, tabId, w)
  }

  function Without(jobs: seq<Job>, k: nat): seq<Job>
    requires k < |jobs|
  {
    jobs[..k] + jobs[k + 1..]
  }

  // ----- clients

  function CloseClient(b: Bridge, client: nat): Bridge {
    var gone := b.(
      clients := b.clients - {client},
      browserSessions := map x | x in b.browserSessions && b.browserSessions[x] != client :: b.browserSessions[x],
      auxiliary := map x | x in b.auxiliary && b.auxiliary[x].client != client :: b.auxiliary[x]);
    if gone.clients == map[] && gone.extension.Some? then DetachEach(gone, gone.order) else gone
  }

  /** detachAllWhenIdle. */
  function DetachEach(b: Bridge, tabIds: seq<nat>): Bridge
    decreases |tabIds|
  {
    if tabIds == [] then b
    else
      DetachEach(
        if Attached(b, tabIds[0]) then Call(Unattach(b, tabIds[0]), Detach(tabIds[0])) else b, tabIds[1..])
  }

  function ClaimEach(b: Bridge, tabIds: seq<nat>): Bridge
    decreases |tabIds|
  {
    if tabIds == [] then b else ClaimEach(Claim(b, tabIds[0], None), tabIds[1..])
  }

  /** The attached tab with this root session, if any. */
  function RootTab(b: Bridge, order: seq<nat>, id: Text): Option<nat> {
    if order == [] then None
    else if order[0] in b.tabs && b.tabs[order[0]].attached == Some(id) then Some(order[0])
    else RootTab(b, order[1..], id)
  }

  function DetachFromTarget(b: Bridge, client: nat, id: Text): Bridge {
    if id in b.browserSessions && b.browserSessions[id] == client then
      b.(browserSessions := b.browserSessions - {id},
         auxiliary :=
           map x | x in b.auxiliary && !(b.auxiliary[x].parent == id && b.auxiliary[x].client == client) ::
             b.auxiliary[x])
    else if id in b.auxiliary then
      if b.auxiliary[id].client == client then b.(auxiliary := b.auxiliary - {id}) else b
    else
      var root := RootTab(b, b.order, id);
      if root.Some? && Attached(b, root.value) then Call(Unattach(b, root.value), Detach(root.value)) else b
  }

  /** The command for a session of a tab: its root session, an alias, or a child session, which the command names. */
  function PageOf(b: Bridge, id: Text): Option<Command> {
    var root := RootTab(b, b.order, id);
    if root.Some? then Some(ForPage(root.value, None))
    else if id in b.auxiliary then Some(ForPage(b.auxiliary[id].tabId, None))
    else if id in b.children then Some(ForPage(b.children[id], Some(id)))
    else None
  }

  /** A page command is forwarded when its session is a root, one of the client's own aliases, or a child. */
  function SessionCommand(b: Bridge, client: nat, id: Text): Bridge {
    if id in b.auxiliary && b.auxiliary[id].client != client then b
    else
      match PageOf(b, id)
      case Some(command) => Call(b, command)
      case None => b
  }

  /** A debugger event of an attached tab; children it comes from or announces become routable. */
  function ExtensionEvent(b: Bridge, tabId: nat, child: Option<Text>, announced: Option<Text>): Bridge {
    if !Attached(b, tabId) then b
    else
      var known := if child.Some? then b.children[child.value := tabId] else b.children;
      b.(children := if announced.Some? then known[announced.value := tabId] else known)
  }

  function Withdrawn(b: Bridge): Bridge {
    TabsForgotten(b.(clients := map[], browserSessions := map[], auxiliary := map[]))
  }

  /** Dispose up to its wait. */
  function StartDispose(b: Bridge): Bridge {
    if b.closing then b
    else
      var cleared := Withdrawn(RejectAll(b.(closing := true)));
      if b.extension.Some? then CallEach(cleared, AttachedIn(b, b.order)) else cleared
  }

  function AttachedIn(b: Bridge, tabIds: seq<nat>): seq<nat> {
    if tabIds == [] then [] else (if Attached(b, tabIds[0]) then [tabIds[0]] else []) + AttachedIn(b, tabIds[1..])
  }

  function CallEach(b: Bridge, tabIds: seq<nat>): Bridge
    decreases |tabIds|
  {
    if tabIds == [] then b else CallEach(Call(b, Detach(tabIds[0])), tabIds[1..])
  }

  /** Dispose after its wait, whether or not the detach commands were answered. */
  function EndDispose(b: Bridge): Bridge { RejectAll(b).(extension := None) }

  // ----- events

  datatype Event =
    | ExtensionConnects
    | Hello(socket: nat, snapshot: seq<nat>)
    | Answered(q: nat, ok: bool)
    | DebuggerEvent(tabId: nat, child: Option<Text>, announced: Option<Text>)
    | TabsReported(snapshot: seq<nat>)
    | DebuggerDetached(tabId: nat)
    | ExtensionCloses(socket: nat)
    | PingFails
    | TimesOut(q: nat)
    | ClientConnects(client: nat)
    | ClientCloses(client: nat)
    | AttachToBrowserTarget(client: nat)
    | SetAutoAttach(client: nat, on: bool)
    | AttachToTarget(client: nat, tabId: nat, parent: Option<Text>)
    | DetachTarget(client: nat, id: Text)
    | PageCommand(client: nat, id: Text)
    | TabCommand(client: nat)  // create, close or activate a target
    | Dispose
    | DisposeEnds
    | RunJob(k: nat)

  predicate FromClient(event: Event) {
    || event.AttachToBrowserTarget? || event.SetAutoAttach? || event.AttachToTarget? || event.DetachTarget?
    || event.PageCommand? || event.TabCommand? || event.ClientCloses?
  }

  predicate FromExtension(event: Event) {
    || event.ExtensionConnects? || event.Hello? || event.Answered? || event.DebuggerEvent? || event.TabsReported?
    || event.DebuggerDetached?
  }

  /** Sockets deliver only while connected, timers fire only while armed; a stale extension socket may still deliver. */
  predicate Enabled(b: Bridge, event: Event) {
    if FromClient(event) then event.client in b.clients
    else
      match event
      case ClientConnects(client) => client !in b.clients
      case TimesOut(q) => q in b.pending
      case RunJob(k) => k < |b.jobs|
      case PingFails => !b.closing
      case DisposeEnds => b.closing
      case _ => true
  }

  function NextOfExtension(b: Bridge, event: Event): Bridge
    requires FromExtension(event)
  {
    if b.closing then b
    else
      match event
      case ExtensionConnects => if b.extension.Some? then Gone(b) else b
      case Hello(socket, snapshot) => SyncTabs(b.(extension := Some(socket)), snapshot)
      case Answered(q, ok) => if q in b.pending then Settle(b, q, ok) else b
      case DebuggerEvent(tabId, child, announced) => ExtensionEvent(b, tabId, child, announced)
      case TabsReported(snapshot) => SyncTabs(b, snapshot)
      case DebuggerDetached(tabId) => Unattach(b, tabId)
  }

  function NextOfClient(b: Bridge, event: Event): Bridge
    requires FromClient(event) && event.client in b.clients
  {
    match event
    case ClientCloses(client) => CloseClient(b, client)
    case AttachToBrowserTarget(client) =>
      var id := BrowserSession(b.nextOrdinal);
      Issue(b, id).(browserSessions := b.browserSessions[id := client])
    case SetAutoAttach(client, on) =>
      var set1 := b.(clients := b.clients[client := on]);
      if on then ClaimEach(set1, set1.order) else set1
    case AttachToTarget(client, tabId, parent) => Claim(b, tabId, Some(Waiter(client, parent)))
    case DetachTarget(client, id) => DetachFromTarget(b, client, id)
    case PageCommand(client, id) => SessionCommand(b, client, id)
    case TabCommand(client) => Call(b, OnTabs)
  }

  function Next(b: Bridge, event: Event): Bridge
    requires Enabled(b, event)
  {
    if FromClient(event) then NextOfClient(b, event)
    else if FromExtension(event) then NextOfExtension(b, event)
    else
      match event
      case ExtensionCloses(socket) => if b.extension == Some(socket) then Gone(b) else b
      case PingFails => Gone(b)
      case TimesOut(q) => Settle(b, q, false)
      case ClientConnects(client) => if b.closing then b else b.(clients := b.clients[client := false])
      case Dispose => StartDispose(b)
      case DisposeEnds => EndDispose(b)
      case RunJob(k) => Do(b.(jobs := Without(b.jobs, k)), b.jobs[k])
      case _ => b
  }

  predicate Legal(b: Bridge, trace: seq<Event>)
    decreases |trace|
  {
    trace != [] ==> Enabled(b, trace[0]) && Legal(Next(b, trace[0]), trace[1..])
  }

  function Run(b: Bridge, trace: seq<Event>): Bridge
    requires Legal(b, trace)
    decreases |trace|
  {
    if trace == [] then b else Run(Next(b, trace[0]), trace[1..])
  }
}
