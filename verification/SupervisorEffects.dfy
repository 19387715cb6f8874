/**
 * What each endpoint callback and expiry does to the supervisor's two maps and its armed timers in every run, and what
 * it answers, field by field.
 */
module SupervisorEffects {
  import opened Bytes
  import opened Results
  import opened Supervisor

  lemma Reached(trace: seq<Event>)
    requires Legal(EMPTY, trace)
    ensures Safe(Run(EMPTY, trace))
  {
    RunSafe(EMPTY, trace);
  }

  /** The armed timers without those of this endpoint. */
  function ArmedWithout(s: State, e: Text): map<nat, (Text, Recovery)> {
    map t | t in s.armed && s.armed[t].0 != e :: s.armed[t]
  }

  lemma TimersOf(s: State, e: Text)
    requires Safe(s)
    ensures e in s.suspended ==> Disarmed(s.armed, s.suspended[e].timer) == ArmedWithout(s, e)
    ensures e !in s.suspended ==> ArmedWithout(s, e) == s.armed
  {
    forall t | t in s.armed && s.armed[t].0 == e ensures e in s.suspended && s.suspended[e].timer == Some(t) {
      assert Awaits(s, s.armed[t].0, t);
    }
    if e in s.suspended {
      var t := s.suspended[e].timer.value;
      assert Awaits(s, e, t);
      assert s.armed - {t} == ArmedWithout(s, e);
    } else {
      assert ArmedWithout(s, e) == s.armed;
    }
  }

  /** In every run, whoever announces itself gets the endpoint's recovery record, live or suspended, and owns it. */
  lemma RecoverEffect(trace: seq<Event>, e: Text, g: nat)
    requires Legal(EMPTY, trace)
    ensures var s := Run(EMPTY, trace);
      var (n, answer) := Recover(s, e, g);
      if e in s.live then
        var r := s.live[e];
        n == s.(live := s.live[e := Runtime(r.broker, r.recovery, g, r.timer)]) && answer == Some(r.recovery)
      else if e in s.suspended then
        var r := s.suspended[e];
        n == s.(suspended := s.suspended[e := Runtime(r.broker, r.recovery, g, r.timer)]) && answer == Some(r.recovery)
      else n == s && answer == None
  {
  }

  /** Another run, broker or recovery record than the one announced stands for the endpoint. */
  predicate Taken(s: State, e: Text, broker: nat, recovery: Recovery, g: nat) {
    || (e in s.live && !(s.live[e].broker == broker && s.live[e].recovery == recovery && s.live[e].generation == g))
    || (e in s.suspended && !(s.suspended[e].recovery == recovery && s.suspended[e].generation == g))
  }

  lemma ReadyThere(s: State, e: Text, broker: nat, recovery: Recovery, g: nat)
    requires Safe(s) && !Taken(s, e, broker, recovery, g)
    ensures var n := Ready(s, e, broker, recovery, g).0;
      n == State(s.live[e := Runtime(broker, recovery, g, None)], map x | x in s.suspended && x != e :: s.suspended[x],
                 ArmedWithout(s, e), s.nextTimer, s.closing)
    ensures Ready(s, e, broker, recovery, g).1 == Ok(())
  {
    TimersOf(s, e);
    assert s.suspended - {e} == map x | x in s.suspended && x != e :: s.suspended[x];
  }

  /**
   * Over every run, a ready endpoint is live under exactly what was announced, no longer suspended, and has no timer; a
   * run that was replaced is refused and changes nothing.
   */
  lemma ReadyEffect(trace: seq<Event>, e: Text, broker: nat, recovery: Recovery, g: nat)
    requires Legal(EMPTY, trace)
    ensures var s := Run(EMPTY, trace);
      var (n, answer) := Ready(s, e, broker, recovery, g);
      if Taken(s, e, broker, recovery, g) then
        n == s && answer == Err(if e in s.live then RunReplaced else RecoveryReplaced)
      else
        && answer == Ok(())
        && n == State(s.live[e := Runtime(broker, recovery, g, None)],
                      map x | x in s.suspended && x != e :: s.suspended[x],
                      ArmedWithout(s, e), s.nextTimer, s.closing)
  {
    Reached(trace);
    var s := Run(EMPTY, trace);
    if !Taken(s, e, broker, recovery, g) {
      ReadyThere(s, e, broker, recovery, g);
    }
  }

  /**
   * Over every run, a suspension by the endpoint's own run, with its own recovery record and a working session, before
   * closing, moves the record to the suspended ones and arms one new timer for it. Nothing else does anything; the
   * answer to hold on is given exactly then, and where that recovery record belongs to another run or waits already.
   */
  lemma SuspendEffect(trace: seq<Event>, recovery: Recovery, g: nat, working: bool)
    requires Legal(EMPTY, trace)
    ensures var s := Run(EMPTY, trace);
      var (n, answer) := Suspend(s, recovery, g, working);
      var e := recovery.endpointId;
      var own := e in s.live && s.live[e].recovery == recovery;
      && (answer <==> !s.closing && (|| (own && (working || s.live[e].generation != g))
                                     || (e in s.suspended && s.suspended[e].recovery == recovery)))
      && (if !s.closing && own && s.live[e].generation == g && working then
            && s.nextTimer !in s.armed
            && n == State(map x | x in s.live && x != e :: s.live[x],
                          s.suspended[e := Runtime(s.live[e].broker, recovery, g, Some(s.nextTimer))],
                          s.armed[s.nextTimer := (e, recovery)], s.nextTimer + 1, s.closing)
          else n == s)
  {
    Reached(trace);
    var s := Run(EMPTY, trace);
    var e := recovery.endpointId;
    assert s.live - {e} == map x | x in s.live && x != e :: s.live[x];
  }

  /** Over every run, a timer that fires takes away the suspended endpoint it was armed for, and only that. */
  lemma ExpiryEffect(trace: seq<Event>, t: nat)
    requires Legal(EMPTY, trace) && t in Run(EMPTY, trace).armed
    ensures var s := Run(EMPTY, trace);
      var e := s.armed[t].0;
      && e in s.suspended
      && Expire(s, t) == s.(suspended := map x | x in s.suspended && x != e :: s.suspended[x],
                            armed := map u | u in s.armed && u != t :: s.armed[u])
  {
    Reached(trace);
    var s := Run(EMPTY, trace);
    var e := s.armed[t].0;
    assert Awaits(s, e, t);
    assert s.suspended - {e} == map x | x in s.suspended && x != e :: s.suspended[x];
    assert s.armed - {t} - {t} == map u | u in s.armed && u != t :: s.armed[u];
  }

  /** The record, live or suspended, that a close by this run with this broker is about. */
  predicate Closes(s: State, e: Text, broker: Option<nat>, g: nat) {
    || (e in s.live && s.live[e].generation == g && (broker.None? || broker.value == s.live[e].broker))
    || (e in s.suspended && s.suspended[e].generation == g && (broker.None? || broker.value == s.suspended[e].broker))
  }

  lemma ClosedThere(s: State, e: Text, broker: Option<nat>, g: nat)
    requires Safe(s)
    ensures Closed(s, e, broker, g) ==
      if Closes(s, e, broker, g) then
        State(map x | x in s.live && x != e :: s.live[x], map x | x in s.suspended && x != e :: s.suspended[x],
              ArmedWithout(s, e), s.nextTimer, s.closing)
      else s
  {
    TimersOf(s, e);
    assert s.live - {e} == map x | x in s.live && x != e :: s.live[x];
    assert s.suspended - {e} == map x | x in s.suspended && x != e :: s.suspended[x];
  }

  /** Over every run, a close by the run that owns the record, with its broker if it names one, leaves nothing of it. */
  lemma ClosedEffect(trace: seq<Event>, e: Text, broker: Option<nat>, g: nat)
    requires Legal(EMPTY, trace)
    ensures var s := Run(EMPTY, trace);
      Closed(s, e, broker, g) ==
      if Closes(s, e, broker, g) then
        State(map x | x in s.live && x != e :: s.live[x], map x | x in s.suspended && x != e :: s.suspended[x],
              ArmedWithout(s, e), s.nextTimer, s.closing)
      else s
  {
    Reached(trace);
    ClosedThere(Run(EMPTY, trace), e, broker, g);
  }

  lemma {:induction false} ClosingStays(s: State, trace: seq<Event>)
    requires Legal(s, trace) && s.closing
    ensures Run(s, trace).closing
    decreases |trace|
  {
    if trace != [] {
      assert Next(s, trace[0]).closing;
      ClosingStays(Next(s, trace[0]), trace[1..]);
    }
  }

  /** Once closing has started, whatever happens next, no endpoint is suspended and no run is told to hold on. */
  lemma NoSuspensionWhileClosing(before: seq<Event>, after: seq<Event>, recovery: Recovery, g: nat, working: bool)
    requires Legal(EMPTY, before) && Legal(Next(Run(EMPTY, before), StartClosing), after)
    ensures var s := Run(Next(Run(EMPTY, before), StartClosing), after);
      Suspend(s, recovery, g, working) == (s, false)
  {
    ClosingStays(Next(Run(EMPTY, before), StartClosing), after);
  }
}
