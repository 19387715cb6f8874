/**
 * What each message, timer and continuation does to the bridge's maps in every run, field by field: which sessions
 * and tabs it takes or adds, which commands it sends and which it rejects, and that nothing else changes.
 */
module RelayBridgeEffects {
  import opened Bytes
  import opened Results
  import opened RelayBridge
  import opened RelayBridgeRuns
  import CanonicalJson

  lemma Reached(trace: seq<Event>)
    requires Legal(EMPTY, trace)
    ensures Core(Run(EMPTY, trace))
  {
    EmptyCore();
    RunCore(EMPTY, trace);
  }

  // ----- commands

  /** The continuations of failed attach commands, in order; no other command wakes one that touches a map. */
  function Failures(cs: seq<Command>): seq<Job>
    decreases |cs|
  {
    if cs == [] then []
    else (if cs[0].Attach? then [AttachReturned(cs[0].tabId, cs[0].handle, false)] else []) + Failures(cs[1..])
  }

  function Numbers(first: nat, n: nat): seq<nat> { seq(n, i requires 0 <= i < n => first + i) }

  /** These commands were sent in order: pending under the next numbers, or rejected at once without an extension. */
  ghost predicate Commanded(b: Bridge, n: Bridge, cs: seq<Command>) {
    && n.nextSeq == b.nextSeq + |cs|
    && if b.extension.None? then
         n.pending == b.pending && n.settled == b.settled + Numbers(b.nextSeq, |cs|) && n.jobs == b.jobs + Failures(cs)
       else
         n.settled == b.settled && n.jobs == b.jobs && Queued(b.pending, n.pending, b.nextSeq, cs)
  }

  /** The commands have joined those pending, numbered from `first` on. */
  ghost predicate Queued(before: map<nat, Command>, after: map<nat, Command>, first: nat,
      cs: seq<Command>)
  {
    && (forall q :: q in after <==> q in before || first <= q < first + |cs|)
    && (forall q :: q in before ==> after[q] == before[q])
    && (forall i :: first <= i < first + |cs| ==> after[i] == cs[i - first])
  }

  ghost predicate Numbered(b: Bridge) { forall q :: q in b.pending ==> q < b.nextSeq }

  lemma NothingCommanded(b: Bridge)
    ensures Commanded(b, b, [])
  {
    assert b.settled + Numbers(b.nextSeq, 0) == b.settled && b.jobs + Failures([]) == b.jobs;
  }

  lemma OneFailure(c: Command)
    ensures Failures([c]) == Wakes(c, false)
  {
    assert [c][1..] == [];
  }

  lemma CallRefused(b: Bridge, c: Command)
    requires Numbered(b) && b.extension.None?
    ensures Call(b, c) ==
      b.(nextSeq := b.nextSeq + 1, settled := b.settled + [b.nextSeq], jobs := b.jobs + Wakes(c, false))
  {
    assert b.pending[b.nextSeq := c] - {b.nextSeq} == b.pending;
  }

  lemma CallCommands(b: Bridge, c: Command)
    requires Numbered(b)
    ensures var n := Call(b, c);
      Commanded(b, n, [c]) && Numbered(n)
      && n == b.(nextSeq := n.nextSeq, pending := n.pending, settled := n.settled, jobs := n.jobs)
  {
    if b.extension.None? {
      CallRefused(b, c);
      OneFailure(c);
      assert Numbers(b.nextSeq, 1) == [b.nextSeq];
    } else {
      assert Call(b, c) == b.(nextSeq := b.nextSeq + 1, pending := b.pending[b.nextSeq := c]);
    }
  }

  function Failure(c: Command): seq<Job> { if c.Attach? then [AttachReturned(c.tabId, c.handle, false)] else [] }

  lemma FailuresFrom(c: Command, cs: seq<Command>)
    ensures Failures([c] + cs) == Failure(c) + Failures(cs)
  {
    assert ([c] + cs)[1..] == cs;
  }

  lemma {:induction false} FailuresTogether(cs: seq<Command>, ds: seq<Command>)
    ensures Failures(cs + ds) == Failures(cs) + Failures(ds)
    decreases |cs|
  {
    if cs == [] {
      assert cs + ds == ds;
    } else {
      var (c, rest) := (cs[0], cs[1..]);
      FailuresTogether(rest, ds);
      FailuresFrom(c, rest);
      FailuresFrom(c, rest + ds);
      assert cs == [c] + rest && cs + ds == [c] + (rest + ds);
      assert Failure(c) + (Failures(rest) + Failures(ds)) == Failure(c) + Failures(rest) + Failures(ds);
    }
  }

  lemma QueuedTogether(p: map<nat, Command>, q: map<nat, Command>, r: map<nat, Command>, first: nat,
      cs: seq<Command>, ds: seq<Command>)
    requires Queued(p, q, first, cs) && Queued(q, r, first + |cs|, ds)
    ensures Queued(p, r, first, cs + ds)
  {
  }

  lemma NumbersTogether(first: nat, m: nat, n: nat)
    ensures Numbers(first, m) + Numbers(first + m, n) == Numbers(first, m + n)
  {
  }

  lemma CommandedTogether(b: Bridge, m: Bridge, n: Bridge, cs: seq<Command>, ds: seq<Command>)
    requires Commanded(b, m, cs) && Commanded(m, n, ds) && m.extension == b.extension
    ensures Commanded(b, n, cs + ds)
  {
    if b.extension.None? {
      FailuresTogether(cs, ds);
      NumbersTogether(b.nextSeq, |cs|, |ds|);
      assert n.settled == b.settled + (Numbers(b.nextSeq, |cs|) + Numbers(m.nextSeq, |ds|));
      assert n.jobs == b.jobs + (Failures(cs) + Failures(ds));
    } else {
      QueuedTogether(b.pending, m.pending, n.pending, b.nextSeq, cs, ds);
    }
  }

  // ----- rejections

  ghost predicate Ascending(qs: seq<nat>) { forall i, j :: 0 <= i < j < |qs| ==> qs[i] < qs[j] }

  function Taken(pending: map<nat, Command>, qs: seq<nat>): seq<Command> {
    if qs == [] then []
    else (if qs[0] in pending then [pending[qs[0]]] else []) + Taken(pending, qs[1..])
  }

  /** Every pending command was settled as rejected, oldest first, and woke what waits for it. */
  ghost predicate AllRejected(b: Bridge, n: Bridge) {
    exists qs: seq<nat> ::
      && Ascending(qs) && (forall q :: q in qs <==> q in b.pending)
      && n.settled == b.settled + qs && n.jobs == b.jobs + Failures(Taken(b.pending, qs))
  }

  lemma {:induction false} TakenFrame(pending: map<nat, Command>, q: nat, qs: seq<nat>)
    requires q !in qs
    ensures Taken(pending - {q}, qs) == Taken(pending, qs)
  {
    if qs != [] {
      TakenFrame(pending, q, qs[1..]);
    }
  }

  lemma SettledJobs(pending: map<nat, Command>, qs: seq<nat>)
    requires qs != [] && qs[0] in pending && qs[0] !in qs[1..]
    ensures Failures(Taken(pending, qs)) == Wakes(pending[qs[0]], false) + Failures(Taken(pending - {qs[0]}, qs[1..]))
  {
    TakenFrame(pending, qs[0], qs[1..]);
    var first := [pending[qs[0]]];
    FailuresTogether(first, Taken(pending, qs[1..]));
    assert first[1..] == [];
    assert Failures(first) == Wakes(pending[qs[0]], false);
  }

  lemma {:induction false} SettlesEach(b: Bridge, qs: seq<nat>)
    requires Ascending(qs) && forall q :: q in qs ==> q in b.pending
    ensures SettleEach(b, qs).settled == b.settled + qs
    ensures SettleEach(b, qs).jobs == b.jobs + Failures(Taken(b.pending, qs))
    decreases |qs|
  {
    if qs == [] {
    } else {
      var q, m, rest := qs[0], Settle(b, qs[0], false), qs[1..];
      assert q !in rest && forall x :: x in rest ==> x in b.pending - {q};
      SettlesEach(m, rest);
      SettledJobs(b.pending, qs);
      assert b.settled + [q] + rest == b.settled + ([q] + rest);
      assert qs == [q] + rest;
      var woken, later := Wakes(b.pending[q], false), Failures(Taken(b.pending - {q}, rest));
      assert b.jobs + woken + later == b.jobs + (woken + later);
    }
  }

  lemma {:induction false} PendingAscends(pending: map<nat, Command>, n: nat)
    ensures Ascending(PendingBelow(pending, n))
  {
    if n > 0 {
      PendingAscends(pending, n - 1);
      PendingBelowMembers(pending, n - 1);
      var qs := PendingBelow(pending, n - 1);
      assert forall i :: 0 <= i < |qs| ==> qs[i] in qs;
    }
  }

  lemma RejectsAll(b: Bridge)
    requires Core(b)
    ensures var n := RejectAll(b);
      AllRejected(b, n) && n == b.(pending := map[], settled := n.settled, jobs := n.jobs)
  {
    var qs := PendingBelow(b.pending, b.nextSeq);
    RejectAllCore(b);
    PendingAscends(b.pending, b.nextSeq);
    PendingBelowMembers(b.pending, b.nextSeq);
    SettlesEach(b, qs);
    assert forall q :: q in b.pending ==> q < b.nextSeq;
  }

  // ----- detached tabs

  function AttachedTabs(b: Bridge): set<nat> { set t | t in b.tabs && b.tabs[t].attached.Some? }

  function Loosened(tab: Tab): Tab { Tab(tab.handle, None, tab.attaching) }

  /** These attached tabs are no longer attached, and their aliases and children are gone. */
  ghost predicate Detached(b: Bridge, n: Bridge, ts: set<nat>) {
    && n.tabs == (map t | t in b.tabs :: if t in ts then Loosened(b.tabs[t]) else b.tabs[t])
    && SessionsLost(b, n, ts)
  }

  ghost predicate SessionsLost(b: Bridge, n: Bridge, ts: set<nat>) {
    && n.auxiliary == (map x | x in b.auxiliary && b.auxiliary[x].tabId !in ts :: b.auxiliary[x])
    && n.children == (map x | x in b.children && b.children[x] !in ts :: b.children[x])
  }

  lemma UnattachDetaches(b: Bridge, t: nat)
    requires t in AttachedTabs(b)
    ensures var n := Unattach(b, t);
      && Detached(b, n, {t}) && AttachedTabs(n) == AttachedTabs(b) - {t}
      && n == b.(tabs := n.tabs, auxiliary := n.auxiliary, children := n.children)
  {
  }

  lemma NothingDetached(b: Bridge)
    ensures Detached(b, b, {})
  {
    assert b.tabs == map t | t in b.tabs :: b.tabs[t];
    assert b.auxiliary == map x | x in b.auxiliary :: b.auxiliary[x];
    assert b.children == map x | x in b.children :: b.children[x];
  }

  lemma DetachedTogether(b: Bridge, m: Bridge, n: Bridge, ts: set<nat>, us: set<nat>)
    requires Detached(b, m, ts) && Detached(m, n, us)
    ensures Detached(b, n, ts + us)
  {
  }

  function Among(ts: seq<nat>, attached: set<nat>): set<nat> { (set t | t in ts) * attached }

  lemma AmongRest(ts: seq<nat>, attached: set<nat>)
    requires ts != []
    ensures ts[0] !in Among(ts[1..], attached - {ts[0]})
    ensures ts[0] in attached ==> Among(ts, attached) == {ts[0]} + Among(ts[1..], attached - {ts[0]})
    ensures ts[0] !in attached ==> Among(ts, attached) == Among(ts[1..], attached)
  {
    assert ts == [ts[0]] + ts[1..];
  }

  lemma {:induction false} UnattachesEach(b: Bridge, ts: seq<nat>)
    ensures Detached(b, UnattachEach(b, ts), Among(ts, AttachedTabs(b)))
    ensures var n := UnattachEach(b, ts); n == b.(tabs := n.tabs, auxiliary := n.auxiliary, children := n.children)
    decreases |ts|
  {
    if ts == [] {
      NothingDetached(b);
      assert Among(ts, AttachedTabs(b)) == {};
    } else {
      AmongRest(ts, AttachedTabs(b));
      if ts[0] in AttachedTabs(b) {
        var m := Unattach(b, ts[0]);
        UnattachDetaches(b, ts[0]);
        UnattachesEach(m, ts[1..]);
        DetachedTogether(b, m, UnattachEach(m, ts[1..]), {ts[0]}, Among(ts[1..], AttachedTabs(m)));
      } else {
        UnattachesEach(b, ts[1..]);
      }
    }
  }

  // ----- the extension goes

  lemma AllLoosened(b: Bridge)
    requires Core(b)
    ensures Among(b.order, AttachedTabs(b)) == AttachedTabs(b)
    ensures forall x :: x in b.children ==> b.children[x] in AttachedTabs(b)
  {
    forall x | x in b.children ensures b.children[x] in AttachedTabs(b) {
      assert Held(b.tabs, b.children[x]);
    }
  }

  lemma GoneExactly(b: Bridge)
    requires Core(b)
    ensures var n := Gone(b);
      && n == b.(extension := None, tabs := map[], order := [], children := map[], pending := map[],
                 auxiliary := n.auxiliary, settled := n.settled, jobs := n.jobs)
      && n.auxiliary == (map x | x in b.auxiliary && b.auxiliary[x].tabId !in AttachedTabs(b) :: b.auxiliary[x])
      && AllRejected(b, n)
  {
    var off := b.(extension := None);
    assert Core(off);
    RejectsAll(off);
    var rejected := RejectAll(off);
    UnattachesEach(rejected, rejected.order);
    AllLoosened(b);
    assert AttachedTabs(rejected) == AttachedTabs(b);
  }

  /**
   * Over every run, when the extension goes or is replaced, every pending command is settled as rejected, oldest first,
   * and all tabs with their sessions are forgotten; clients and their browser-level sessions stay. A socket that is not
   * the extension's own closes without effect.
   */
  lemma ExtensionGoneEffect(trace: seq<Event>, event: Event)
    requires Legal(EMPTY, trace) && Enabled(Run(EMPTY, trace), event)
    requires event.ExtensionConnects? || event.ExtensionCloses? || event.PingFails?
    ensures var b := Run(EMPTY, trace);
      var n := Next(b, event);
      if event.PingFails? || (event.ExtensionConnects? && !b.closing && b.extension.Some?)
         || (event.ExtensionCloses? && b.extension == Some(event.socket))
      then
        && n == b.(extension := None, tabs := map[], order := [], children := map[], pending := map[],
                   auxiliary := n.auxiliary, settled := n.settled, jobs := n.jobs)
        && n.auxiliary == (map x | x in b.auxiliary && b.auxiliary[x].tabId !in AttachedTabs(b) :: b.auxiliary[x])
        && AllRejected(b, n)
      else n == b
  {
    Reached(trace);
    GoneExactly(Run(EMPTY, trace));
  }

  // ----- answers

  /** The command of this number is settled and no longer pending; only what waits for an attach is woken. */
  ghost predicate SettledAs(b: Bridge, n: Bridge, q: nat, ok: bool)
    requires q in b.pending
  {
    && n == b.(pending := n.pending, settled := b.settled + [q], jobs := n.jobs)
    && n.pending == (map p | p in b.pending && p != q :: b.pending[p])
    && n.jobs == if b.pending[q].Attach? then
                   b.jobs + [AttachReturned(b.pending[q].tabId, b.pending[q].handle, ok)]
                 else b.jobs
  }

  lemma SettlesAs(b: Bridge, q: nat, ok: bool)
    requires q in b.pending
    ensures SettledAs(b, Settle(b, q, ok), q, ok)
  {
    assert b.pending - {q} == map p | p in b.pending && p != q :: b.pending[p];
    assert b.jobs + [] == b.jobs;
  }

  lemma AnswerSteps(b: Bridge, q: nat, ok: bool)
    ensures Next(b, Answered(q, ok)) == if b.closing || q !in b.pending then b else Settle(b, q, ok)
    ensures q in b.pending ==> Next(b, TimesOut(q)) == Settle(b, q, false)
  {
  }

  /** Over every run, an answer or a timeout settles the command of its number, once, and wakes what waits for it. */
  lemma AnswerEffect(trace: seq<Event>, q: nat, ok: bool)
    requires Legal(EMPTY, trace)
    ensures var b := Run(EMPTY, trace);
      var n := Next(b, Answered(q, ok));
      if b.closing || q !in b.pending then n == b else SettledAs(b, n, q, ok)
    ensures var b := Run(EMPTY, trace); q in b.pending ==> SettledAs(b, Next(b, TimesOut(q)), q, false)
  {
    var b := Run(EMPTY, trace);
    AnswerSteps(b, q, ok);
    if q in b.pending {
      SettlesAs(b, q, ok);
      SettlesAs(b, q, false);
    }
  }

  // ----- page commands

  /** A root session, an alias or a child: the session is one of a tab. */
  predicate OfATab(b: Bridge, id: Text) { Rooted(b, id) || id in b.auxiliary || id in b.children }

  predicate Rooted(b: Bridge, id: Text) { exists t :: t in b.tabs && b.tabs[t].attached == Some(id) }

  /** The command is for the tab attached under the session, or for its alias's tab, or its child's, which it names. */
  predicate ForItsTab(b: Bridge, id: Text, command: Command) {
    && command.ForPage?
    && if Rooted(b, id) then
         command.tabId in b.tabs && b.tabs[command.tabId].attached == Some(id) && command.child == None
       else if id in b.auxiliary then command == ForPage(b.auxiliary[id].tabId, None)
       else id in b.children && command == ForPage(b.children[id], Some(id))
  }

  lemma {:induction false} RootFound(b: Bridge, order: seq<nat>, id: Text)
    ensures RootTab(b, order, id).Some? <==> exists t :: t in order && t in b.tabs && b.tabs[t].attached == Some(id)
    ensures RootTab(b, order, id).Some? ==>
      var t := RootTab(b, order, id).value; t in order && t in b.tabs && b.tabs[t].attached == Some(id)
  {
    if order != [] {
      RootFound(b, order[1..], id);
      assert order == [order[0]] + order[1..];
    }
  }

  lemma RootExactly(b: Bridge, id: Text)
    requires Core(b)
    ensures RootTab(b, b.order, id).Some? <==> exists t :: t in b.tabs && b.tabs[t].attached == Some(id)
    ensures RootTab(b, b.order, id).Some? ==>
      var t := RootTab(b, b.order, id).value; t in b.tabs && b.tabs[t].attached == Some(id)
  {
    RootFound(b, b.order, id);
  }

  /** One command that touches no map was sent, and nothing else happened. */
  ghost predicate JustCommands(b: Bridge, n: Bridge, cs: seq<Command>) {
    Commanded(b, n, cs) && n == b.(nextSeq := n.nextSeq, pending := n.pending, settled := n.settled, jobs := n.jobs)
  }

  lemma CoreNumbered(b: Bridge)
    requires Core(b)
    ensures Numbered(b)
  {
  }

  lemma PageExactly(b: Bridge, id: Text)
    requires Core(b)
    ensures PageOf(b, id).Some? <==> OfATab(b, id)
    ensures OfATab(b, id) ==> ForItsTab(b, id, PageOf(b, id).value)
  {
    RootExactly(b, id);
  }

  lemma PageForwarded(b: Bridge, client: nat, id: Text)
    requires Core(b) && OfATab(b, id) && !(id in b.auxiliary && b.auxiliary[id].client != client)
    ensures exists command :: ForItsTab(b, id, command) && JustCommands(b, SessionCommand(b, client, id), [command])
  {
    PageExactly(b, id);
    CoreNumbered(b);
    CallCommands(b, PageOf(b, id).value);
  }

  lemma PageStep(b: Bridge, client: nat, id: Text)
    requires client in b.clients
    ensures Next(b, PageCommand(client, id)) == SessionCommand(b, client, id)
    ensures Next(b, TabCommand(client)) == Call(b, OnTabs)
  {
  }

  /**
   * Over every run, a client's page command goes to the extension if and only if its session is one of a tab and no
   * alias of another client, and then it is for exactly that tab; a command on tabs always goes. Nothing else changes.
   */
  lemma PageCommandEffect(trace: seq<Event>, client: nat, id: Text)
    requires Legal(EMPTY, trace) && client in Run(EMPTY, trace).clients
    ensures var b := Run(EMPTY, trace);
      var n := Next(b, PageCommand(client, id));
      if OfATab(b, id) && !(id in b.auxiliary && b.auxiliary[id].client != client) then
        exists command :: ForItsTab(b, id, command) && JustCommands(b, n, [command])
      else n == b
    ensures var b := Run(EMPTY, trace); JustCommands(b, Next(b, TabCommand(client)), [OnTabs])
  {
    var b := Run(EMPTY, trace);
    Reached(trace);
    CoreNumbered(b);
    PageStep(b, client, id);
    PageExactly(b, id);
    CallCommands(b, OnTabs);
    if OfATab(b, id) && !(id in b.auxiliary && b.auxiliary[id].client != client) {
      PageForwarded(b, client, id);
    }
  }

  // ----- debugger messages

  /**
   * Over every run, a tab that loses its debugger loses its attachment, aliases and children; an event of an attached
   * tab makes the child it comes from and the one it announces sessions of that tab. Other messages change nothing.
   */
  lemma DebuggerEffect(trace: seq<Event>, t: nat, child: Option<Text>, announced: Option<Text>)
    requires Legal(EMPTY, trace)
    ensures var b := Run(EMPTY, trace);
      var (n, m) := (Next(b, DebuggerDetached(t)), Next(b, DebuggerEvent(t, child, announced)));
      if b.closing || t !in AttachedTabs(b) then n == b && m == b
      else
        && Detached(b, n, {t}) && n == b.(tabs := n.tabs, auxiliary := n.auxiliary, children := n.children)
        && m == b.(children := m.children)
        && (forall x :: x in m.children <==> x in b.children || Some(x) in {child, announced})
        && forall x :: x in m.children ==> m.children[x] == if Some(x) in {child, announced} then t else b.children[x]
  {
    if t in AttachedTabs(Run(EMPTY, trace)) {
      UnattachDetaches(Run(EMPTY, trace), t);
    }
  }

  // ----- clients come and go

  /** The attached tabs of a list, in order. */
  function AttachedOnes(tabs: map<nat, Tab>, order: seq<nat>): seq<nat> {
    if order == [] then []
    else
      (if order[0] in tabs && tabs[order[0]].attached.Some? then [order[0]] else []) + AttachedOnes(tabs, order[1..])
  }

  /** One detach command for each of these tabs. */
  function Detaches(ts: seq<nat>): (cs: seq<Command>)
    ensures |cs| == |ts|
  {
    seq(|ts|, i requires 0 <= i < |ts| => Detach(ts[i]))
  }

  function SetOf(ts: seq<nat>): set<nat> { set t | t in ts }

  lemma DetachStep(b: Bridge, t: nat)
    requires Numbered(b) && t in AttachedTabs(b)
    ensures var n := Call(Unattach(b, t), Detach(t));
      && Detached(b, n, {t}) && Commanded(b, n, [Detach(t)]) && Numbered(n)
      && AttachedTabs(n) == AttachedTabs(b) - {t}
      && n == b.(tabs := n.tabs, auxiliary := n.auxiliary, children := n.children,
                 nextSeq := n.nextSeq, pending := n.pending, settled := n.settled, jobs := n.jobs)
  {
    UnattachDetaches(b, t);
    CallCommands(Unattach(b, t), Detach(t));
  }

  /** These tabs are detached, one command each in order, and nothing else changes. */
  ghost predicate DetachedByUs(b: Bridge, n: Bridge, ts: seq<nat>) {
    && Detached(b, n, SetOf(ts)) && Commanded(b, n, Detaches(ts))
    && n == b.(tabs := n.tabs, auxiliary := n.auxiliary, children := n.children,
               nextSeq := n.nextSeq, pending := n.pending, settled := n.settled, jobs := n.jobs)
  }

  lemma OneMoreDetached(b: Bridge, m: Bridge, n: Bridge, t: nat, rest: seq<nat>)
    requires DetachedByUs(b, m, [t]) && DetachedByUs(m, n, rest)
    ensures DetachedByUs(b, n, [t] + rest)
  {
    DetachedTogether(b, m, n, SetOf([t]), SetOf(rest));
    assert SetOf([t]) + SetOf(rest) == SetOf([t] + rest);
    CommandedTogether(b, m, n, Detaches([t]), Detaches(rest));
    assert Detaches([t]) + Detaches(rest) == Detaches([t] + rest);
  }

  lemma NoneDetached(b: Bridge)
    ensures DetachedByUs(b, b, [])
  {
    NothingDetached(b);
    NothingCommanded(b);
    assert SetOf([]) == {};
  }

  lemma OneDetached(b: Bridge, t: nat)
    requires Numbered(b) && t in AttachedTabs(b)
    ensures var n := Call(Unattach(b, t), Detach(t));
      DetachedByUs(b, n, [t]) && Numbered(n)
  {
    DetachStep(b, t);
    assert [Detach(t)] == Detaches([t]) && SetOf([t]) == {t};
  }

  lemma {:induction false} AttachedFrame(tabs: map<nat, Tab>, more: map<nat, Tab>, order: seq<nat>)
    requires forall t :: t in order ==> (t in tabs <==> t in more) && (t in tabs ==> tabs[t] == more[t])
    ensures AttachedOnes(tabs, order) == AttachedOnes(more, order)
  {
    if order != [] {
      AttachedFrame(tabs, more, order[1..]);
    }
  }

  ghost predicate Distinct(ts: seq<nat>) { forall i, j :: 0 <= i < j < |ts| ==> ts[i] != ts[j] }

  lemma {:induction false} DetachesEach(b: Bridge, ts: seq<nat>)
    requires Numbered(b) && Distinct(ts)
    ensures DetachedByUs(b, DetachEach(b, ts), AttachedOnes(b.tabs, ts))
    decreases |ts|
  {
    if ts == [] {
      NoneDetached(b);
    } else {
      var (t, rest) := (ts[0], ts[1..]);
      assert t !in rest;
      if t in AttachedTabs(b) {
        var m := Call(Unattach(b, t), Detach(t));
        OneDetached(b, t);
        DetachesEach(m, rest);
        AttachedFrame(b.tabs, m.tabs, rest);
        OneMoreDetached(b, m, DetachEach(m, rest), t, AttachedOnes(b.tabs, rest));
      } else {
        DetachesEach(b, rest);
        assert AttachedOnes(b.tabs, ts) == AttachedOnes(b.tabs, rest);
      }
    }
  }

  lemma {:induction false} AttachedMembers(tabs: map<nat, Tab>, ts: seq<nat>)
    ensures forall t :: t in AttachedOnes(tabs, ts) <==> t in ts && t in tabs && tabs[t].attached.Some?
  {
    if ts != [] {
      AttachedMembers(tabs, ts[1..]);
      assert ts == [ts[0]] + ts[1..];
    }
  }

  /** Without this client, its browser-level sessions and its aliases. */
  function WithoutClient(b: Bridge, client: nat): Bridge {
    b.(clients := map c | c in b.clients && c != client :: b.clients[c],
       browserSessions := map x | x in b.browserSessions && b.browserSessions[x] != client :: b.browserSessions[x],
       auxiliary := map x | x in b.auxiliary && b.auxiliary[x].client != client :: b.auxiliary[x])
  }

  lemma LeftAlone(b: Bridge, client: nat)
    requires Core(b) && b.clients.Keys == {client}
    ensures var n := WithoutClient(b, client); n.clients == map[] && n.browserSessions == map[] && n.auxiliary == map[]
  {
    var n := WithoutClient(b, client);
    assert forall x :: x in b.browserSessions ==> b.browserSessions[x] in b.clients;
    assert n.clients.Keys == {} && n.browserSessions.Keys == {} && n.auxiliary.Keys == {};
  }

  /** All tabs are detached, one command each, and no client, session, alias or child is left. */
  ghost predicate Emptied(b: Bridge, n: Bridge) {
    && n == b.(clients := map[], browserSessions := map[], auxiliary := map[], children := map[], tabs := n.tabs,
               nextSeq := n.nextSeq, pending := n.pending, settled := n.settled, jobs := n.jobs)
    && n.tabs == (map t | t in b.tabs :: Loosened(b.tabs[t]))
    && Commanded(b, n, Detaches(AttachedOnes(b.tabs, b.order)))
  }

  lemma NothingLeft(b: Bridge, gone: Bridge, n: Bridge)
    requires Core(b) && gone == b.(clients := map[], browserSessions := map[], auxiliary := map[])
    requires DetachedByUs(gone, n, AttachedOnes(b.tabs, b.order))
    ensures Emptied(b, n)
  {
    AllLoosened(b);
    AttachedMembers(b.tabs, b.order);
    assert SetOf(AttachedOnes(b.tabs, b.order)) == AttachedTabs(b);
    assert n.children.Keys == {} && n.auxiliary.Keys == {};
    assert n.children == map[] && n.auxiliary == map[];
    assert forall t :: t in b.tabs && t !in AttachedTabs(b) ==> b.tabs[t] == Loosened(b.tabs[t]);
  }

  lemma LastClientCloses(b: Bridge, client: nat)
    requires Core(b) && b.clients.Keys == {client} && b.extension.Some?
    ensures Emptied(b, CloseClient(b, client))
  {
    var gone := WithoutClient(b, client);
    assert b.clients - {client} == gone.clients;
    LeftAlone(b, client);
    CoreNumbered(b);
    assert Distinct(gone.order);
    DetachesEach(gone, gone.order);
    assert CloseClient(b, client) == DetachEach(gone, gone.order);
    NothingLeft(b, gone, DetachEach(gone, gone.order));
  }

  lemma OneOfSeveralCloses(b: Bridge, client: nat)
    requires client in b.clients && (b.clients.Keys != {client} || b.extension.None?)
    ensures CloseClient(b, client) == WithoutClient(b, client)
  {
    var gone := WithoutClient(b, client);
    assert b.clients - {client} == gone.clients;
    if b.clients.Keys != {client} {
      var other :| other in b.clients.Keys && other != client;
      assert other in gone.clients;
    }
  }

  /**
   * Over every run, a client that comes auto-attaches nothing; one that goes takes its browser-level sessions and
   * aliases along, and the last one to go leaves no tab attached: the extension gets one command for each that was.
   */
  lemma ClientEffect(trace: seq<Event>, client: nat)
    requires Legal(EMPTY, trace)
    ensures var b := Run(EMPTY, trace);
      client !in b.clients ==>
        Next(b, ClientConnects(client)) == if b.closing then b else b.(clients := b.clients[client := false])
    ensures var b := Run(EMPTY, trace);
      client in b.clients ==>
        var n := Next(b, ClientCloses(client));
        if b.clients.Keys != {client} || b.extension.None? then n == WithoutClient(b, client) else Emptied(b, n)
  {
    var b := Run(EMPTY, trace);
    Reached(trace);
    if client in b.clients {
      if b.clients.Keys == {client} && b.extension.Some? {
        LastClientCloses(b, client);
      } else {
        OneOfSeveralCloses(b, client);
      }
    }
  }

  // ----- browser-level sessions, aliases and roots

  /** Over every run, a client's new browser-level session has an ID that was never issued before. */
  lemma BrowserSessionEffect(trace: seq<Event>, client: nat)
    requires Legal(EMPTY, trace) && client in Run(EMPTY, trace).clients
    ensures var b := Run(EMPTY, trace);
      var id := Ascii("agent-tab-bridge-browser-") + CanonicalJson.Decimal(b.nextOrdinal);
      && id !in b.issued
      && Next(b, AttachToBrowserTarget(client)) == b.(
           browserSessions := b.browserSessions[id := client], nextOrdinal := b.nextOrdinal + 1,
           issued := b.issued + [id])
  {
    var b := Run(EMPTY, trace);
    Reached(trace);
    FreshId(b, Ascii("agent-tab-bridge-browser"));
    assert Ascii("agent-tab-bridge-browser") + [0x2D] == Ascii("agent-tab-bridge-browser-");
  }

  /**
   * Over every run, a client detaches its own browser-level session with all aliases under it, or its own alias, or the
   * tab with this root session, for everyone: the extension is told. Other clients' aliases and all else stay.
   */
  lemma DetachTargetEffect(trace: seq<Event>, client: nat, id: Text)
    requires Legal(EMPTY, trace) && client in Run(EMPTY, trace).clients
    ensures var b := Run(EMPTY, trace);
      var n := Next(b, DetachTarget(client, id));
      if id in b.browserSessions && b.browserSessions[id] == client then
        n == b.(browserSessions := map x | x in b.browserSessions && x != id :: b.browserSessions[x],
                auxiliary := map x | x in b.auxiliary && b.auxiliary[x].parent != id :: b.auxiliary[x])
      else if id in b.auxiliary then
        n == if b.auxiliary[id].client == client
             then b.(auxiliary := map x | x in b.auxiliary && x != id :: b.auxiliary[x]) else b
      else
        && ((exists t :: t in b.tabs && b.tabs[t].attached == Some(id)) ==>
              exists t :: t in b.tabs && b.tabs[t].attached == Some(id)
                && Detached(b, n, {t}) && Commanded(b, n, [Detach(t)])
                && n == b.(tabs := n.tabs, auxiliary := n.auxiliary, children := n.children,
                           nextSeq := n.nextSeq, pending := n.pending, settled := n.settled, jobs := n.jobs))
        && ((exists t :: t in b.tabs && b.tabs[t].attached == Some(id)) || n == b)
  {
    var b := Run(EMPTY, trace);
    Reached(trace);
    CoreNumbered(b);
    RootExactly(b, id);
    var root := RootTab(b, b.order, id);
    if id in b.browserSessions && b.browserSessions[id] == client {
      OwnSessionDetached(b, client, id);
    } else if id in b.auxiliary {
      assert b.auxiliary - {id} == map x | x in b.auxiliary && x != id :: b.auxiliary[x];
    } else if root.Some? {
      DetachStep(b, root.value);
    }
  }

  lemma OwnSessionDetached(b: Bridge, client: nat, id: Text)
    requires Core(b) && id in b.browserSessions && b.browserSessions[id] == client
    ensures DetachFromTarget(b, client, id) ==
      b.(browserSessions := map x | x in b.browserSessions && x != id :: b.browserSessions[x],
         auxiliary := map x | x in b.auxiliary && b.auxiliary[x].parent != id :: b.auxiliary[x])
  {
    assert b.browserSessions - {id} == map x | x in b.browserSessions && x != id :: b.browserSessions[x];
    assert forall x :: x in b.auxiliary && b.auxiliary[x].parent == id ==> b.auxiliary[x].client == client;
  }

  // ----- attaching tabs

  /** The listed tabs that are neither attached nor being attached, in order. */
  function Unclaimed(tabs: map<nat, Tab>, order: seq<nat>): seq<nat> {
    if order == [] then []
    else
      (if order[0] in tabs && tabs[order[0]].attached.None? && tabs[order[0]].attaching.None? then [order[0]] else [])
      + Unclaimed(tabs, order[1..])
  }

  /** One attach command for each of these tabs. */
  function Attaches(tabs: map<nat, Tab>, ts: seq<nat>): (cs: seq<Command>)
    requires forall t :: t in ts ==> t in tabs
    ensures |cs| == |ts|
  {
    seq(|ts|, i requires 0 <= i < |ts| => Attach(ts[i], tabs[ts[i]].handle))
  }

  lemma {:induction false} UnclaimedMembers(tabs: map<nat, Tab>, order: seq<nat>)
    ensures forall t :: t in Unclaimed(tabs, order) <==>
      t in order && t in tabs && tabs[t].attached.None? && tabs[t].attaching.None?
  {
    if order != [] {
      UnclaimedMembers(tabs, order[1..]);
      assert order == [order[0]] + order[1..];
    }
  }

  function Started(tab: Tab): Tab { Tab(tab.handle, tab.attached, Some(InFlight([]))) }

  /** Attaching these tabs has started, with one command each; nobody waits for it. */
  ghost predicate Claimed(b: Bridge, n: Bridge, ts: seq<nat>) {
    && (forall t :: t in ts ==> t in b.tabs)
    && n.tabs == (map t | t in b.tabs :: if t in ts then Started(b.tabs[t]) else b.tabs[t])
    && JustCommands(b.(tabs := n.tabs), n, Attaches(b.tabs, ts))
  }

  predicate Free(tabs: map<nat, Tab>, t: nat) { t in tabs && tabs[t].attached.None? && tabs[t].attaching.None? }

  lemma ClaimCalls(b: Bridge, t: nat)
    requires Free(b.tabs, t)
    ensures Claim(b, t, None) ==
      Call(b.(tabs := b.tabs[t := Started(b.tabs[t])]), Attach(t, b.tabs[t].handle))
  {
  }

  lemma ClaimStarts(b: Bridge, t: nat)
    requires Numbered(b) && Free(b.tabs, t)
    ensures Claimed(b, Claim(b, t, None), [t]) && Numbered(Claim(b, t, None))
  {
    var started := b.(tabs := b.tabs[t := Started(b.tabs[t])]);
    ClaimCalls(b, t);
    CallCommands(started, Attach(t, b.tabs[t].handle));
    assert [Attach(t, b.tabs[t].handle)] == Attaches(b.tabs, [t]);
    assert started.tabs == map u | u in b.tabs :: if u in [t] then Started(b.tabs[u]) else b.tabs[u];
  }

  lemma ClaimNothing(b: Bridge, t: nat)
    requires !Free(b.tabs, t)
    ensures Claim(b, t, None) == b
  {
    assert b.jobs + [] == b.jobs;
    if t in b.tabs && b.tabs[t].attached.None? && b.tabs[t].attaching.value.InFlight? {
      var ws := b.tabs[t].attaching.value.waiters;
      assert ws + [] == ws && b.tabs[t := b.tabs[t].(attaching := Some(InFlight(ws)))] == b.tabs;
    }
  }

  lemma OneMoreClaimed(b: Bridge, m: Bridge, n: Bridge, t: nat, rest: seq<nat>)
    requires Claimed(b, m, [t]) && Claimed(m, n, rest) && t !in rest
    ensures Claimed(b, n, [t] + rest)
  {
    CommandedTogether(b.(tabs := n.tabs), m.(tabs := n.tabs), n, Attaches(b.tabs, [t]), Attaches(m.tabs, rest));
    assert Attaches(b.tabs, [t]) + Attaches(m.tabs, rest) == Attaches(b.tabs, [t] + rest);
  }

  lemma NoneClaimed(b: Bridge)
    ensures Claimed(b, b, [])
  {
    NothingCommanded(b);
    assert b.tabs == map t | t in b.tabs :: b.tabs[t];
  }

  lemma {:induction false} UnclaimedFrame(tabs: map<nat, Tab>, more: map<nat, Tab>, order: seq<nat>)
    requires forall t :: t in order ==> (t in tabs <==> t in more) && (t in tabs ==> tabs[t] == more[t])
    ensures Unclaimed(tabs, order) == Unclaimed(more, order)
  {
    if order != [] {
      UnclaimedFrame(tabs, more, order[1..]);
    }
  }

  lemma {:induction false} ClaimsEach(b: Bridge, ts: seq<nat>)
    requires Numbered(b) && Distinct(ts)
    ensures Claimed(b, ClaimEach(b, ts), Unclaimed(b.tabs, ts))
    decreases |ts|
  {
    if ts == [] {
      NoneClaimed(b);
    } else {
      var (t, rest) := (ts[0], ts[1..]);
      var m := Claim(b, t, None);
      assert t !in rest;
      if Free(b.tabs, t) {
        ClaimStarts(b, t);
        ClaimsEach(m, rest);
        UnclaimedFrame(b.tabs, m.tabs, rest);
        UnclaimedMembers(m.tabs, rest);
        OneMoreClaimed(b, m, ClaimEach(m, rest), t, Unclaimed(m.tabs, rest));
      } else {
        ClaimNothing(b, t);
        ClaimsEach(b, rest);
        assert Unclaimed(b.tabs, ts) == Unclaimed(b.tabs, rest);
      }
    }
  }

  /**
   * Over every run, a client that switches auto-attach on starts attaching every tab that is neither attached nor being
   * attached, in order; switching it off only notes that.
   */
  lemma AutoAttachEffect(trace: seq<Event>, client: nat, on: bool)
    requires Legal(EMPTY, trace) && client in Run(EMPTY, trace).clients
    ensures var b := Run(EMPTY, trace);
      var n := Next(b, SetAutoAttach(client, on));
      if on then Claimed(b.(clients := b.clients[client := true]), n, Unclaimed(b.tabs, b.order))
      else n == b.(clients := b.clients[client := false])
  {
    var b := Run(EMPTY, trace);
    Reached(trace);
    CoreNumbered(b);
    ClaimsEach(b.(clients := b.clients[client := true]), b.order);
  }

  /**
   * Over every run, a request to attach to a tab goes on at once if the tab is attached or its attach just succeeded;
   * it starts attaching a tab nobody attaches yet, and else waits for the attach in flight.
   */
  lemma AttachToTargetEffect(trace: seq<Event>, client: nat, t: nat, parent: Option<Text>)
    requires Legal(EMPTY, trace) && client in Run(EMPTY, trace).clients
    ensures var b := Run(EMPTY, trace);
      var (n, w) := (Next(b, AttachToTarget(client, t, parent)), Waiter(client, parent));
      if t !in b.tabs then n == b
      else
        match b.tabs[t]
        case Tab(_, Some(_), _) => n == b.(jobs := b.jobs + [Woken(t, w)])
        case Tab(_, None, Some(Settled(ok))) => n == if ok then b.(jobs := b.jobs + [Woken(t, w)]) else b
        case Tab(handle, None, Some(InFlight(ws))) =>
          n == b.(tabs := b.tabs[t := Tab(handle, None, Some(InFlight(ws + [w])))])
        case Tab(handle, None, None) =>
          JustCommands(b.(tabs := b.tabs[t := Tab(handle, None, Some(InFlight([w])))]), n, [Attach(t, handle)])
  {
    var b := Run(EMPTY, trace);
    Reached(trace);
    CoreNumbered(b);
    if t in b.tabs && b.tabs[t].attached.None? && b.tabs[t].attaching.None? {
      CallCommands(b.(tabs := b.tabs[t := Tab(b.tabs[t].handle, None, Some(InFlight([Waiter(client, parent)])))]),
        Attach(t, b.tabs[t].handle));
    }
  }

  // ----- tab reports

  /** The tabs of a snapshot that are not known yet, each once, in the order they are listed. */
  function Newcomers(known: set<nat>, snapshot: seq<nat>): seq<nat>
    decreases |snapshot|
  {
    if snapshot == [] then []
    else if snapshot[0] in known then Newcomers(known, snapshot[1..])
    else [snapshot[0]] + Newcomers(known + {snapshot[0]}, snapshot[1..])
  }

  /** Those of the list that are in the snapshot, in their order. */
  function StillThere(order: seq<nat>, snapshot: seq<nat>): seq<nat> {
    if order == [] then []
    else (if order[0] in snapshot then [order[0]] else []) + StillThere(order[1..], snapshot)
  }

  /** Some client auto-attaches. */
  predicate SomeAutoAttach(b: Bridge) { exists c :: c in b.clients && b.clients[c] }

  /** A tab that has just appeared, with the next record handle. */
  function Appeared(handle: nat, claimed: bool): Tab {
    Tab(handle, None, if claimed then Some(InFlight([])) else None)
  }

  function AttachesFrom(ts: seq<nat>, handle: nat): (cs: seq<Command>)
    ensures |cs| == |ts|
  {
    seq(|ts|, i requires 0 <= i < |ts| => Attach(ts[i], handle + i))
  }

  /** These tabs have joined the others, with consecutive handles. */
  ghost predicate Joined(before: map<nat, Tab>, after: map<nat, Tab>, ts: seq<nat>, handle: nat, claimed: bool) {
    && (forall t :: t in after <==> t in before || t in ts)
    && (forall t :: t in before ==> after[t] == before[t])
    && (forall i :: 0 <= i < |ts| ==> ts[i] in after && after[ts[i]] == Appeared(handle + i, claimed))
  }

  function AttachesIf(claimed: bool, ts: seq<nat>, handle: nat): seq<Command> {
    if claimed then AttachesFrom(ts, handle) else []
  }

  /** These tabs have appeared, each with an attach command if some client auto-attaches. */
  ghost predicate TabsAppeared(b: Bridge, n: Bridge, ts: seq<nat>) {
    && Behind(b, n, ts)
    && Joined(b.tabs, n.tabs, ts, b.nextObject, SomeAutoAttach(b))
    && Commanded(b, n, AttachesIf(SomeAutoAttach(b), ts, b.nextObject))
  }

  /** They stand behind the others, each with a handle of its own; beyond tabs and commands nothing changes. */
  ghost predicate Behind(b: Bridge, n: Bridge, ts: seq<nat>) {
    && n.order == b.order + ts && n.nextObject == b.nextObject + |ts|
    && n == b.(tabs := n.tabs, order := n.order, nextObject := n.nextObject, nextSeq := n.nextSeq,
               pending := n.pending, settled := n.settled, jobs := n.jobs)
  }

  lemma BehindTogether(b: Bridge, m: Bridge, n: Bridge, t: nat, rest: seq<nat>)
    requires Behind(b, m, [t]) && Behind(m, n, rest)
    ensures Behind(b, n, [t] + rest) && m.nextObject == b.nextObject + 1
    ensures m.extension == b.extension && SomeAutoAttach(m) == SomeAutoAttach(b)
  {
    assert b.order + [t] + rest == b.order + ([t] + rest);
  }

  lemma NoneAppeared(b: Bridge)
    ensures TabsAppeared(b, b, [])
  {
    NothingCommanded(b);
    assert AttachesFrom([], b.nextObject) == [];
  }

  lemma UnclaimedAppears(b: Bridge, t: nat)
    requires t !in b.tabs && !SomeAutoAttach(b)
    ensures TabsAppeared(b, Added(b, t), [t]) && Report(b, t) == Added(b, t)
  {
    NothingCommanded(b);
  }

  lemma ClaimedReport(b: Bridge, t: nat)
    requires t !in b.tabs && SomeAutoAttach(b)
    ensures Report(b, t) == Call(
      b.(tabs := b.tabs[t := Appeared(b.nextObject, true)], order := b.order + [t], nextObject := b.nextObject + 1),
      Attach(t, b.nextObject))
  {
    var tabs := b.tabs[t := Tab(b.nextObject, None, None)];
    assert tabs[t := Appeared(b.nextObject, true)] == b.tabs[t := Appeared(b.nextObject, true)];
  }

  lemma ClaimedAppears(b: Bridge, t: nat)
    requires Numbered(b) && t !in b.tabs && SomeAutoAttach(b)
    ensures TabsAppeared(b, Report(b, t), [t]) && Numbered(Report(b, t))
  {
    ClaimedReport(b, t);
    CallCommands(
      b.(tabs := b.tabs[t := Appeared(b.nextObject, true)], order := b.order + [t], nextObject := b.nextObject + 1),
      Attach(t, b.nextObject));
    assert AttachesFrom([t], b.nextObject) == [Attach(t, b.nextObject)];
  }

  lemma OneAppears(b: Bridge, t: nat)
    requires Numbered(b) && t !in b.tabs
    ensures TabsAppeared(b, Report(b, t), [t]) && Numbered(Report(b, t))
    ensures Report(b, t).tabs.Keys == b.tabs.Keys + {t}
  {
    if SomeAutoAttach(b) {
      ClaimedAppears(b, t);
    } else {
      UnclaimedAppears(b, t);
    }
  }

  lemma JoinedTogether(p: map<nat, Tab>, q: map<nat, Tab>, r: map<nat, Tab>, t: nat, rest: seq<nat>, handle: nat,
      claimed: bool)
    requires Joined(p, q, [t], handle, claimed) && Joined(q, r, rest, handle + 1, claimed)
    ensures Joined(p, r, [t] + rest, handle, claimed)
  {
    var ts := [t] + rest;
    assert q[t] == Appeared(handle, claimed) by { assert [t][0] == t; }
    forall i | 0 <= i < |ts| ensures ts[i] in r && r[ts[i]] == Appeared(handle + i, claimed) {
      if i > 0 {
        assert ts[i] == rest[i - 1];
      }
    }
  }

  lemma CommandedNext(b: Bridge, m: Bridge, n: Bridge, t: nat, rest: seq<nat>, claimed: bool, handle: nat)
    requires m.extension == b.extension
    requires Commanded(b, m, AttachesIf(claimed, [t], handle))
    requires Commanded(m, n, AttachesIf(claimed, rest, handle + 1))
    ensures Commanded(b, n, AttachesIf(claimed, [t] + rest, handle))
  {
    CommandedTogether(b, m, n, AttachesIf(claimed, [t], handle), AttachesIf(claimed, rest, handle + 1));
    AttachesTogether(claimed, t, rest, handle);
  }

  lemma OneMoreAppeared(b: Bridge, m: Bridge, n: Bridge, t: nat, rest: seq<nat>)
    requires TabsAppeared(b, m, [t]) && TabsAppeared(m, n, rest)
    ensures TabsAppeared(b, n, [t] + rest)
  {
    var claimed := SomeAutoAttach(b);
    BehindTogether(b, m, n, t, rest);
    JoinedTogether(b.tabs, m.tabs, n.tabs, t, rest, b.nextObject, claimed);
    CommandedNext(b, m, n, t, rest, claimed, b.nextObject);
  }

  lemma AttachesTogether(claimed: bool, t: nat, rest: seq<nat>, handle: nat)
    ensures AttachesIf(claimed, [t], handle) + AttachesIf(claimed, rest, handle + 1) ==
      AttachesIf(claimed, [t] + rest, handle)
  {
  }

  lemma {:induction false} EachAppears(b: Bridge, snapshot: seq<nat>)
    requires Numbered(b)
    ensures TabsAppeared(b, ReportEach(b, snapshot), Newcomers(b.tabs.Keys, snapshot))
    decreases |snapshot|
  {
    if snapshot == [] {
      NoneAppeared(b);
    } else {
      var (t, rest) := (snapshot[0], snapshot[1..]);
      ReportsOn(b, snapshot);
      if t in b.tabs {
        EachAppears(b, rest);
      } else {
        var m := Report(b, t);
        OneAppears(b, t);
        EachAppears(m, rest);
        OneMoreAppeared(b, m, ReportEach(m, rest), t, Newcomers(b.tabs.Keys + {t}, rest));
      }
    }
  }

  lemma ReportsOn(b: Bridge, snapshot: seq<nat>)
    requires snapshot != []
    ensures ReportEach(b, snapshot) == ReportEach(Report(b, snapshot[0]), snapshot[1..])
    ensures snapshot[0] in b.tabs ==> Report(b, snapshot[0]) == b
    ensures Newcomers(b.tabs.Keys, snapshot) ==
      if snapshot[0] in b.tabs then Newcomers(b.tabs.Keys, snapshot[1..])
      else [snapshot[0]] + Newcomers(b.tabs.Keys + {snapshot[0]}, snapshot[1..])
  {
  }

  /** The tabs that are not in the snapshot are gone with their sessions. */
  ghost predicate TabsDropped(b: Bridge, n: Bridge, gone: set<nat>) {
    && n.tabs == (map t | t in b.tabs && t !in gone :: b.tabs[t])
    && SessionsLost(b, n, gone * AttachedTabs(b))
    && n == b.(tabs := n.tabs, order := n.order, auxiliary := n.auxiliary, children := n.children)
  }

  lemma DropDrops(b: Bridge, t: nat)
    ensures TabsDropped(b, Drop(b, t), {t})
    ensures AttachedTabs(Drop(b, t)) == AttachedTabs(b) - {t}
  {
  }

  lemma DroppedTogether(b: Bridge, m: Bridge, n: Bridge, t: nat, rest: set<nat>)
    requires TabsDropped(b, m, {t}) && TabsDropped(m, n, rest) && AttachedTabs(m) == AttachedTabs(b) - {t}
    ensures TabsDropped(b, n, {t} + rest)
  {
    assert ({t} + rest) * AttachedTabs(b) == ({t} * AttachedTabs(b)) + (rest * AttachedTabs(m)) by {
      if t in AttachedTabs(b) {
        assert rest * AttachedTabs(b) <= {t} + rest * AttachedTabs(m);
      }
    }
  }

  function Missing(ts: seq<nat>, snapshot: seq<nat>): set<nat> { set t | t in ts && t !in snapshot }

  lemma {:induction false} DropsMissing(b: Bridge, ts: seq<nat>, snapshot: seq<nat>)
    ensures TabsDropped(b, DropMissing(b, ts, snapshot), Missing(ts, snapshot))
    decreases |ts|
  {
    if ts == [] {
      assert Missing(ts, snapshot) == {};
    } else if ts[0] in snapshot {
      DropsMissing(b, ts[1..], snapshot);
      assert ts == [ts[0]] + ts[1..];
      assert Missing(ts, snapshot) == Missing(ts[1..], snapshot);
    } else {
      var m := Drop(b, ts[0]);
      DropDrops(b, ts[0]);
      DropsMissing(m, ts[1..], snapshot);
      DroppedTogether(b, m, DropMissing(m, ts[1..], snapshot), ts[0], Missing(ts[1..], snapshot));
      assert ts == [ts[0]] + ts[1..];
      assert Missing(ts, snapshot) == {ts[0]} + Missing(ts[1..], snapshot);
    }
  }

  lemma {:induction false} RemovedMissing(order: seq<nat>, t: nat, snapshot: seq<nat>)
    requires t !in snapshot
    ensures StillThere(Remove(order, t), snapshot) == StillThere(order, snapshot)
    ensures forall u :: u in Remove(order, t) <==> u in order && u != t
  {
    if order != [] {
      RemovedMissing(order[1..], t, snapshot);
      assert order == [order[0]] + order[1..];
      var rest := Remove(order[1..], t);
      assert order[0] != t ==> ([order[0]] + rest)[1..] == rest;
      assert [] + rest == rest;
    }
  }

  lemma {:induction false} NoneMissing(order: seq<nat>, snapshot: seq<nat>)
    requires forall t :: t in order ==> t in snapshot
    ensures StillThere(order, snapshot) == order
  {
    if order != [] {
      NoneMissing(order[1..], snapshot);
    }
  }

  lemma {:induction false} OrderKept(b: Bridge, ts: seq<nat>, snapshot: seq<nat>)
    requires forall t :: t in b.order && t !in snapshot ==> t in ts
    ensures DropMissing(b, ts, snapshot).order == StillThere(b.order, snapshot)
    decreases |ts|
  {
    if ts == [] {
      NoneMissing(b.order, snapshot);
    } else {
      assert ts == [ts[0]] + ts[1..];
      if ts[0] in snapshot {
        OrderKept(b, ts[1..], snapshot);
      } else {
        RemovedMissing(b.order, ts[0], snapshot);
        OrderKept(Drop(b, ts[0]), ts[1..], snapshot);
      }
    }
  }

  /** The snapshot's tabs take over: `m` is between the tabs that left and those that came. */
  ghost predicate Synced(b: Bridge, m: Bridge, n: Bridge, snapshot: seq<nat>) {
    && TabsDropped(b, m, set t | t in b.tabs && t !in snapshot) && m.order == StillThere(b.order, snapshot)
    && TabsAppeared(m, n, Newcomers(m.tabs.Keys, snapshot))
  }

  lemma Syncs(b: Bridge, snapshot: seq<nat>)
    requires Core(b)
    ensures Synced(b, DropMissing(b, b.order, snapshot), SyncTabs(b, snapshot), snapshot)
  {
    DropsMissing(b, b.order, snapshot);
    OrderKept(b, b.order, snapshot);
    assert Missing(b.order, snapshot) == set t | t in b.tabs && t !in snapshot;
    CoreNumbered(b);
    EachAppears(DropMissing(b, b.order, snapshot), snapshot);
  }

  lemma ReportSyncs(b: Bridge, snapshot: seq<nat>)
    requires Core(b) && !b.closing
    ensures exists m :: Synced(b, m, Next(b, TabsReported(snapshot)), snapshot)
  {
    Syncs(b, snapshot);
    assert Next(b, TabsReported(snapshot)) == SyncTabs(b, snapshot);
  }

  lemma HelloSyncs(b: Bridge, socket: nat, snapshot: seq<nat>)
    requires Core(b) && !b.closing
    ensures exists m :: Synced(b.(extension := Some(socket)), m, Next(b, Hello(socket, snapshot)), snapshot)
  {
    assert Core(b.(extension := Some(socket)));
    Syncs(b.(extension := Some(socket)), snapshot);
    assert Next(b, Hello(socket, snapshot)) == SyncTabs(b.(extension := Some(socket)), snapshot);
  }

  /**
   * Over every run, a snapshot drops the tabs it does not list, with their sessions, keeps the listed ones as they are
   * and in order, and adds the others behind them, each with an attach command if some client auto-attaches. With the
   * first one the socket becomes the extension.
   */
  lemma TabsEffect(trace: seq<Event>, socket: nat, snapshot: seq<nat>)
    requires Legal(EMPTY, trace)
    ensures var b := Run(EMPTY, trace);
      if b.closing then Next(b, TabsReported(snapshot)) == b && Next(b, Hello(socket, snapshot)) == b
      else
        && (exists m :: Synced(b, m, Next(b, TabsReported(snapshot)), snapshot))
        && exists m :: Synced(b.(extension := Some(socket)), m, Next(b, Hello(socket, snapshot)), snapshot)
  {
    var b := Run(EMPTY, trace);
    Reached(trace);
    if !b.closing {
      ReportSyncs(b, snapshot);
      HelloSyncs(b, socket, snapshot);
    }
  }

  // ----- continuations

  function WakesAll(t: nat, ws: seq<Waiter>): seq<Job> { seq(|ws|, i requires 0 <= i < |ws| => Woken(t, ws[i])) }

  lemma {:induction false} WakesInOrder(t: nat, ws: seq<Waiter>)
    ensures WakeEach(t, ws) == WakesAll(t, ws)
  {
    if ws != [] {
      WakesInOrder(t, ws[1..]);
    }
  }

  /** A root session's ID, and an alias's: the tab, then the next ordinal. */
  function NextTabSession(b: Bridge, t: nat): Text {
    Ascii("agent-tab-bridge-tab-") + CanonicalJson.Decimal(t) + [0x2D] + CanonicalJson.Decimal(b.nextOrdinal)
  }

  function Waiting(tab: Tab): seq<Waiter> {
    if tab.attaching.Some? && tab.attaching.value.InFlight? then tab.attaching.value.waiters else []
  }

  function JobTaken(b: Bridge, k: nat): Bridge
    requires k < |b.jobs|
  {
    b.(jobs := b.jobs[..k] + b.jobs[k + 1..])
  }

  /** What the answer to an attach does to the bridge without the job. */
  ghost predicate AttachAnswered(m: Bridge, n: Bridge, t: nat, handle: nat, ok: bool) {
    var (there, id) := (t in m.tabs && m.tabs[t].handle == handle, NextTabSession(m, t));
    if ok then
      var named := m.(nextOrdinal := m.nextOrdinal + 1, issued := m.issued + [id]);
      if there then
        n == named.(tabs := m.tabs[t := Tab(handle, Some(id), Some(Settled(true)))],
                    jobs := m.jobs + WakesAll(t, Waiting(m.tabs[t])) + [AttachFinally(t, handle)])
      else JustCommands(named, n, [Detach(t)])
    else
      n == if there then
             m.(tabs := m.tabs[t := Tab(handle, m.tabs[t].attached, Some(Settled(false)))],
                jobs := m.jobs + [AttachFinally(t, handle)])
           else m
  }

  lemma TabSessionNext(b: Bridge, t: nat)
    ensures TabSession(t, b.nextOrdinal) == NextTabSession(b, t)
  {
  }

  lemma AttachHeld(m: Bridge, t: nat, handle: nat, ok: bool)
    requires t in m.tabs && m.tabs[t].handle == handle
    ensures AttachAnswered(m, AttachGoesOn(m, t, handle, ok), t, handle, ok)
  {
    TabSessionNext(m, t);
    WakesInOrder(t, Waiting(m.tabs[t]));
    assert m.jobs + [] == m.jobs;
    if ok {
      var id := NextTabSession(m, t);
      var tabs := m.tabs[t := m.tabs[t].(attached := Some(id))];
      assert tabs[t := tabs[t].(attaching := Some(Settled(true)))] ==
        m.tabs[t := Tab(handle, Some(id), Some(Settled(true)))];
    }
  }

  lemma AttachStale(m: Bridge, t: nat, handle: nat, ok: bool)
    requires Numbered(m) && !(t in m.tabs && m.tabs[t].handle == handle)
    ensures AttachAnswered(m, AttachGoesOn(m, t, handle, ok), t, handle, ok)
  {
    TabSessionNext(m, t);
    CallCommands(Issue(m, TabSession(t, m.nextOrdinal)), Detach(t));
  }

  lemma NextTabSessionFresh(b: Bridge, t: nat)
    requires Core(b)
    ensures NextTabSession(b, t) !in b.issued
  {
    TabSessionNext(b, t);
    FreshId(b, Ascii("agent-tab-bridge-tab-") + CanonicalJson.Decimal(t));
  }

  lemma JobStep(b: Bridge, k: nat)
    requires k < |b.jobs|
    ensures Next(b, RunJob(k)) == Do(JobTaken(b, k), b.jobs[k])
  {
  }

  /**
   * Over every run, an attach that the extension answered binds a session ID never issued before to the tab record that
   * asked for it and wakes all who wait, in order; if that record has gone it only sends a detach command. An attach
   * that failed marks its record, if it is still there, and wakes nobody.
   */
  lemma AttachReturnedEffect(trace: seq<Event>, k: nat, t: nat, handle: nat, ok: bool)
    requires Legal(EMPTY, trace)
    requires var b := Run(EMPTY, trace); k < |b.jobs| && b.jobs[k] == AttachReturned(t, handle, ok)
    ensures var b := Run(EMPTY, trace);
      NextTabSession(b, t) !in b.issued && AttachAnswered(JobTaken(b, k), Next(b, RunJob(k)), t, handle, ok)
  {
    var b := Run(EMPTY, trace);
    Reached(trace);
    CoreNumbered(b);
    NextTabSessionFresh(b, t);
    JobStep(b, k);
    var m := JobTaken(b, k);
    if t in m.tabs && m.tabs[t].handle == handle {
      AttachHeld(m, t, handle, ok);
    } else {
      AttachStale(m, t, handle, ok);
    }
  }

  /**
   * Over every run, a settled attach promise is cleared on its own record only; and a request that was woken makes an
   * alias exactly if its parent is still a browser-level session of its client, and otherwise changes no map.
   */
  lemma OtherJobsEffect(trace: seq<Event>, k: nat)
    requires Legal(EMPTY, trace) && k < |Run(EMPTY, trace).jobs|
    ensures var b := Run(EMPTY, trace);
      var (n, m) := (Next(b, RunJob(k)), JobTaken(b, k));
      match b.jobs[k]
      case AttachReturned(_, _, _) => true
      case AttachFinally(t, handle) =>
        n == if t in b.tabs && b.tabs[t].handle == handle
             then m.(tabs := b.tabs[t := Tab(handle, b.tabs[t].attached, None)]) else m
      case Woken(t, Waiter(client, parent)) =>
        var id := NextTabSession(b, t);
        n == if parent.Some? && parent.value in b.browserSessions && b.browserSessions[parent.value] == client
             then m.(auxiliary := b.auxiliary[id := Auxiliary(t, parent.value, client)],
                     nextOrdinal := b.nextOrdinal + 1, issued := b.issued + [id])
             else m
  {
  }

  // ----- disposal

  lemma {:induction false} CallsEach(b: Bridge, ts: seq<nat>)
    requires Numbered(b)
    ensures JustCommands(b, CallEach(b, ts), Detaches(ts))
    decreases |ts|
  {
    if ts == [] {
      NothingCommanded(b);
    } else {
      var m := Call(b, Detach(ts[0]));
      CallCommands(b, Detach(ts[0]));
      CallsEach(m, ts[1..]);
      CommandedTogether(b, m, CallEach(b, ts), [Detach(ts[0])], Detaches(ts[1..]));
      assert [Detach(ts[0])] + Detaches(ts[1..]) == Detaches(ts);
    }
  }

  lemma {:induction false} AttachedListed(b: Bridge, ts: seq<nat>)
    ensures AttachedIn(b, ts) == AttachedOnes(b.tabs, ts)
  {
    if ts != [] {
      AttachedListed(b, ts[1..]);
    }
  }

  /** Every command pending then is rejected, and no client, session, tab or child is left. */
  ghost predicate Withdraws(b: Bridge, m: Bridge) {
    && AllRejected(b, m)
    && m == EMPTY.(extension := b.extension, nextSeq := b.nextSeq, nextOrdinal := b.nextOrdinal,
                   nextObject := b.nextObject, closing := true, settled := m.settled, jobs := m.jobs,
                   issued := b.issued)
  }

  lemma DisposeStarts(b: Bridge) returns (m: Bridge)
    requires Core(b) && !b.closing
    ensures Withdraws(b, m)
    ensures if b.extension.Some? then JustCommands(m, StartDispose(b), Detaches(AttachedOnes(b.tabs, b.order)))
            else StartDispose(b) == m
  {
    var closing := b.(closing := true);
    assert Core(closing);
    RejectsAll(closing);
    m := Withdrawn(RejectAll(closing));
    AttachedListed(b, b.order);
    CallsEach(m, AttachedIn(b, b.order));
  }

  /**
   * Over every run, the first disposal rejects every pending command and withdraws every client, session and tab before
   * it sends the extension a detach command for each tab that was attached; a later one does nothing.
   */
  lemma DisposeEffect(trace: seq<Event>)
    requires Legal(EMPTY, trace)
    ensures var b := Run(EMPTY, trace);
      var n := Next(b, Dispose);
      if b.closing then n == b
      else
        exists m ::
          && Withdraws(b, m)
          && if b.extension.Some? then JustCommands(m, n, Detaches(AttachedOnes(b.tabs, b.order))) else n == m
  {
    var b := Run(EMPTY, trace);
    Reached(trace);
    if !b.closing {
      var m := DisposeStarts(b);
    }
  }

  lemma DisposeEndsThere(b: Bridge)
    requires b.closing
    ensures Next(b, DisposeEnds) == RejectAll(b).(extension := None)
  {
  }

  /** Over every run, the end of a disposal rejects what was not answered and lets go of the extension. */
  lemma DisposeEndEffect(trace: seq<Event>)
    requires Legal(EMPTY, trace) && Run(EMPTY, trace).closing
    ensures var b := Run(EMPTY, trace);
      var n := Next(b, DisposeEnds);
      AllRejected(b, n) && n == b.(extension := None, pending := map[], settled := n.settled, jobs := n.jobs)
  {
    Reached(trace);
    DisposeEndsThere(Run(EMPTY, trace));
    RejectsAll(Run(EMPTY, trace));
  }
}
