/** The supervisor's two endpoint maps and its timers, updated in place by the lifecycle callbacks. */
module SupervisorServices {
  import opened Bytes
  import opened Results
  import opened Supervisor

  class AtbSupervisor {
    var endpoints: map<Text, Runtime>
    var suspendedEndpoints: map<Text, Runtime>
    /** Timers set and neither cleared nor fired, with what their callbacks hold. */
    var armed: map<nat, (Text, Recovery)>
    var nextTimer: nat
    var closing: bool

    ghost function View(): State reads this { State(endpoints, suspendedEndpoints, armed, nextTimer, closing) }

    constructor ()
      ensures View() == EMPTY
    {
      endpoints, suspendedEndpoints, armed, nextTimer, closing := map[], map[], map[], 0, false;
    }

    method SetTimer(e: Text, recovery: Recovery) returns (timer: nat)
      modifies this`armed, this`nextTimer
      ensures timer == old(nextTimer) && nextTimer == timer + 1 && armed == old(armed)[timer := (e, recovery)]
    {
      timer := nextTimer;
      nextTimer := nextTimer + 1;
      armed := armed[timer := (e, recovery)];
    }

    method ClearTimer(timer: Option<nat>)
      modifies this`armed
      ensures armed == Disarmed(old(armed), timer)
    {
      if timer.Some? {
        armed := armed - {timer.value};
      }
    }

    method RecoverEndpoint(e: Text, generation: nat) returns (recovery: Option<Recovery>)
      modifies this`endpoints, this`suspendedEndpoints
      ensures (View(), recovery) == Recover(old(View()), e, generation)
    {
      if e in endpoints {
        var live := endpoints[e];
        endpoints := endpoints[e := live.(generation := generation)];
        return Some(live.recovery);
      }
      if e !in suspendedEndpoints {
        return None;
      }
      var suspended := suspendedEndpoints[e];
      suspendedEndpoints := suspendedEndpoints[e := suspended.(generation := generation)];
      return Some(suspended.recovery);
    }

    method EndpointReady(e: Text, broker: nat, recovery: Recovery, generation: nat)
        returns (result: Outcome<(), HandoverError>)
      modifies this
      ensures (View(), result) == Ready(old(View()), e, broker, recovery, generation)
    {
      if e in endpoints {
        var existing := endpoints[e];
        if existing.broker != broker || existing.recovery != recovery || existing.generation != generation {
          return Err(RunReplaced);
        }
      }
      if e in suspendedEndpoints {
        var suspended := suspendedEndpoints[e];
        if suspended.recovery != recovery || suspended.generation != generation {
          return Err(RecoveryReplaced);
        }
        ClearTimer(suspended.timer);
        suspendedEndpoints := suspendedEndpoints - {e};
      }
      assert suspendedEndpoints == old(suspendedEndpoints) - {e};
      endpoints := endpoints[e := Runtime(broker, recovery, generation, None)];
      return Ok(());
    }

    method EndpointSuspended(recovery: Recovery, generation: nat, working: bool) returns (kept: bool)
      modifies this
      ensures (View(), kept) == Suspend(old(View()), recovery, generation, working)
    {
      if closing {
        return false;
      }
      var e := recovery.endpointId;
      if e !in endpoints {
        return e in suspendedEndpoints && suspendedEndpoints[e].recovery == recovery;
      }
      var existing := endpoints[e];
      if existing.recovery != recovery {
        return false;
      }
      if existing.generation != generation {
        return true;
      }
      if !working {
        return false;
      }
      endpoints := endpoints - {e};
      var timer := SetTimer(e, recovery);
      suspendedEndpoints := suspendedEndpoints[e := existing.(timer := Some(timer))];
      return true;
    }

    /** The recovery timer's callback. */
    method ExpireRecovery(timer: nat)
      requires timer in armed
      modifies this`suspendedEndpoints, this`armed
      ensures View() == Expire(old(View()), timer)
    {
      var (e, recovery) := armed[timer];
      armed := armed - {timer};
      if e !in suspendedEndpoints || suspendedEndpoints[e].recovery != recovery {
        return;
      }
      var existing := suspendedEndpoints[e];
      suspendedEndpoints := suspendedEndpoints - {e};
      ClearTimer(existing.timer);
    }

    method EndpointClosed(e: Text, broker: Option<nat>, generation: nat)
      modifies this
      ensures View() == Closed(old(View()), e, broker, generation)
    {
      if e !in endpoints && e !in suspendedEndpoints {
        return;
      }
      var existing := if e in endpoints then endpoints[e] else suspendedEndpoints[e];
      if existing.generation != generation || (broker.Some? && existing.broker != broker.value) {
        return;
      }
      ClearTimer(existing.timer);
      endpoints := endpoints - {e};
      suspendedEndpoints := suspendedEndpoints - {e};
    }
  }
}
