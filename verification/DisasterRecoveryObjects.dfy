/** The objects that carry out the disaster-recovery machine: each public operation
    changes the one BU it is for exactly as the machine's step does, and no other. */
module DisasterRecoveryObjects {
  import opened DisasterRecovery
  import opened SlidingWindow
  import opened Wire

  /** A committed edge, as the callbacks receive it; a BU that is created comes from
      no state. */
  datatype StateChange = StateChange(bu: string, from: Option<BuState>, to: BuState)

  /** The drain that entering DRAINING starts: to the opposite cluster, but from the
      primary to itself when the BU had no state. */
  function DrainOf(from: Option<BuState>): Drain {
    match from
    case Some(state) => DrainFrom(state)
    case None => Drain(Primary, Primary)
  }

  class DrainManager {
    var drains: map<string, Drain>

    constructor ()
      ensures drains == map[]
    {
      drains := map[];
    }

    /** The timer of a drain that is replaced is stopped. */
    method StartDrain(bu: string, oldActive: Cluster, newActive: Cluster)
      modifies this
      ensures drains == old(drains)[bu := Drain(oldActive, newActive)]
    {
      drains := drains[bu := Drain(oldActive, newActive)];
    }

    function DrainState(bu: string): Option<Drain>
      reads this
    {
      if bu in drains then Some(drains[bu]) else None
    }

    /** The end of a forced close: what the callbacks are told is the new active cluster. */
    method Remove(bu: string) returns (newActive: Option<Cluster>)
      modifies this
      ensures drains == old(drains) - {bu}
      ensures newActive == if bu in old(drains) then Some(old(drains)[bu].newActive) else None
    {
      newActive := if bu in drains then Some(drains[bu].newActive) else None;
      drains := drains - {bu};
    }
  }

  class StateMachine {
    var entries: map<string, BuState>
    const drainManager: DrainManager

    constructor (dm: DrainManager)
      ensures entries == map[] && drainManager == dm
    {
      entries, drainManager := map[], dm;
    }

    method Initialize(bu: string, state: BuState) returns (isNew: bool)
      modifies this
      ensures isNew <==> bu !in old(entries)
      ensures entries == if isNew then old(entries)[bu := state] else old(entries)
    {
      if bu in entries {
        return false;
      }
      entries := entries[bu := state];
      return true;
    }

    function State(bu: string): BuState
      reads this
    {
      if bu in entries then entries[bu] else Primario
    }

    /** What the state machine and the drain manager hold for a BU. */
    ghost function View(bu: string, control: Control): Bu
      reads this, drainManager
    {
      Bu(State(bu), drainManager.DrainState(bu), control)
    }

    /** A BU that is not known is created in the target state. */
    method Transition(bu: string, to: BuState) returns (ok: bool)
      modifies this, drainManager
      ensures ok <==> (bu in old(entries) ==> old(entries)[bu] == to || IsValidTransition(old(entries)[bu], to))
      ensures bu in old(entries) ==> forall c :: View(bu, c) == Request(old(View(bu, c)), to)
      ensures bu !in old(entries) ==> forall c ::
        View(bu, c) == Bu(to, if to.Draining? then Some(DrainOf(None)) else old(drainManager.DrainState(bu)), c)
      ensures entries == old(entries)[bu := State(bu)]
      ensures drainManager.drains - {bu} == old(drainManager.drains) - {bu}
    {
      if bu !in entries {
        entries := entries[bu := to];
        OnStateChange(StateChange(bu, None, to));
        return true;
      }
      var from := entries[bu];
      if from == to {
        assert entries == entries[bu := State(bu)];
        return true;
      }
      if !IsValidTransition(from, to) {
        assert entries == entries[bu := State(bu)];
        return false;
      }
      entries := entries[bu := to];
      OnStateChange(StateChange(bu, Some(from), to));
      return true;
    }

    /** The callback the coordinator registers: entering DRAINING starts the drain. */
    method OnStateChange(t: StateChange)
      modifies drainManager
      ensures drainManager.drains ==
        if t.to.Draining? then old(drainManager.drains)[t.bu := DrainOf(t.from)] else old(drainManager.drains)
    {
      if t.to != Draining {
        return;
      }
      var oldTarget := if t.from.Some? then ClusterFor(t.from.value) else Primary;
      var newTarget := ClusterFor(t.to);
      match t.from {
        case Some(Primario) => newTarget := Secondary;
        case Some(Secundario) => newTarget := Primary;
        case _ =>
      }
      drainManager.StartDrain(t.bu, oldTarget, newTarget);
    }
  }

  class ClusterHealth {
    var healthy: bool
    var consecutiveFailures: nat
    var consecutiveSuccesses: nat

    constructor ()
      ensures Value() == Health(false, 0, 0)
    {
      healthy, consecutiveFailures, consecutiveSuccesses := false, 0, 0;
    }

    function Value(): Health
      reads this
    {
      Health(healthy, consecutiveFailures, consecutiveSuccesses)
    }
  }

  class Controller {
    const buName: string
    const sm: StateMachine
    const config: Config
    const primaryHealth: ClusterHealth
    const secondaryHealth: ClusterHealth
    var lastFailoverAt: Option<int>
    var failoverTimestamps: seq<int>
    var circuitBroken: bool
    var lastActiveBeforeBoth: Option<Cluster>
    var bothDownCount: nat
    var failoverCount: nat
    var circuitBreakCount: nat

    ghost predicate Valid()
      reads this, sm
    {
      primaryHealth != secondaryHealth && buName in sm.entries
    }

    function Value(): Control
      reads this, primaryHealth, secondaryHealth
    {
      Control(primaryHealth.Value(), secondaryHealth.Value(), lastFailoverAt, failoverTimestamps, circuitBroken,
              lastActiveBeforeBoth, bothDownCount, failoverCount, circuitBreakCount)
    }

    ghost function View(): Bu
      reads this, primaryHealth, secondaryHealth, sm, sm.drainManager
    {
      sm.View(buName, Value())
    }

    /** Nothing is different for the other BUs. */
    twostate predicate OthersKept()
      reads sm, sm.drainManager
    {
      && sm.entries == old(sm.entries)[buName := sm.State(buName)]
      && sm.drainManager.drains - {buName} == old(sm.drainManager.drains) - {buName}
    }

    constructor (bu: string, c: Config, stateMachine: StateMachine)
      requires bu in stateMachine.entries
      ensures Valid() && buName == bu && config == c && sm == stateMachine
      ensures Value() == NEW_CONTROL
    {
      buName, config, sm := bu, c, stateMachine;
      primaryHealth := new ClusterHealth();
      secondaryHealth := new ClusterHealth();
      lastFailoverAt, failoverTimestamps, circuitBroken, lastActiveBeforeBoth := None, [], false, None;
      bothDownCount, failoverCount, circuitBreakCount := 0, 0, 0;
    }

    method RecordHealthResult(cluster: Cluster, healthy: bool)
      requires Valid()
      modifies primaryHealth, secondaryHealth
      ensures Valid() && Value() == RecordHealth(config, old(Value()), cluster, healthy)
    {
      var ch := if cluster.Primary? then primaryHealth else secondaryHealth;
      if healthy {
        ch.consecutiveFailures := 0;
        ch.consecutiveSuccesses := ch.consecutiveSuccesses + 1;
        if ch.consecutiveSuccesses >= config.SuccessesNeeded() && !ch.healthy {
          ch.healthy := true;
        }
      } else {
        ch.consecutiveSuccesses := 0;
        ch.consecutiveFailures := ch.consecutiveFailures + 1;
        if ch.consecutiveFailures >= config.FailuresNeeded() && ch.healthy {
          ch.healthy := false;
        }
      }
    }

    method PruneFailoverTimestamps(now: int)
      modifies this`failoverTimestamps
      ensures Value() == Prune(config, old(Value()), now)
    {
      var cutoff := now - config.window;
      var first := |failoverTimestamps|;
      for i := 0 to |failoverTimestamps|
        invariant first == |failoverTimestamps| && failoverTimestamps == old(failoverTimestamps)
        invariant SuffixAfter(failoverTimestamps, cutoff) == SuffixAfter(failoverTimestamps[i..], cutoff)
      {
        if failoverTimestamps[i] > cutoff {
          first := i;
          break;
        }
        assert failoverTimestamps[i..][1..] == failoverTimestamps[i + 1..];
      }
      failoverTimestamps := failoverTimestamps[first..];
    }

    method MayFailover(now: int) returns (can: bool)
      modifies this`failoverTimestamps
      ensures (can, Value()) == CanFailover(config, old(Value()), now)
    {
      if config.minTimeBetweenFailovers > 0 && lastFailoverAt.Some? {
        if now - lastFailoverAt.value < config.minTimeBetweenFailovers {
          return false;
        }
      }
      if config.maxFailovers > 0 && config.window > 0 {
        PruneFailoverTimestamps(now);
        if |failoverTimestamps| >= config.maxFailovers {
          return false;
        }
      }
      return true;
    }

    method Trigger(from: BuState, now: int) returns (action: Action)
      requires Valid()
      modifies this, sm, sm.drainManager
      ensures Valid() && OthersKept()
      ensures old(circuitBroken) ==> View() == old(View()) && action == NoAction
      ensures !old(circuitBroken) ==> View() == TriggerFailover(config, old(View()), now)
      ensures !old(circuitBroken) ==> action == if from.Secundario? then FailoverToPrimary else FailoverToSecondary
    {
      assert sm.entries == sm.entries[buName := sm.State(buName)];
      if circuitBroken {
        return NoAction;
      }
      lastFailoverAt := Some(now);
      failoverTimestamps := failoverTimestamps + [now];
      failoverCount := failoverCount + 1;
      var _ := sm.Transition(buName, Draining);
      if config.maxFailovers > 0 && config.window > 0 {
        PruneFailoverTimestamps(now);
        if |failoverTimestamps| >= config.maxFailovers {
          circuitBroken := true;
          circuitBreakCount := circuitBreakCount + 1;
        }
      }
      action := FailoverToSecondary;
      if from == Secundario {
        action := FailoverToPrimary;
      }
    }

    method EnterBothDownState(from: BuState)
      requires Valid() && from == sm.State(buName)
      modifies this, sm, sm.drainManager
      ensures Valid() && OthersKept() && View() == EnterBothDown(config, old(View()))
    {
      var _ := sm.Transition(buName, BothDown);
      bothDownCount := bothDownCount + 1;
      var activeBefore;
      if from == Draining {
        if config.active == Primary {
          activeBefore := Secondary;
        } else {
          activeBefore := Primary;
        }
      } else {
        activeBefore := ClusterFor(from);
      }
      lastActiveBeforeBoth := Some(activeBefore);
    }

    method EvaluateAt(now: int) returns (action: Action)
      requires Valid()
      modifies this, sm, sm.drainManager
      ensures Valid() && OthersKept() && (View(), action) == Evaluate(config, old(View()), now)
    {
      assert sm.entries == sm.entries[buName := sm.State(buName)];
      if circuitBroken {
        return NoAction;
      }
      var primHealthy, secHealthy := primaryHealth.healthy, secondaryHealth.healthy;
      var current := sm.State(buName);
      if !primHealthy && !secHealthy {
        if current != BothDown {
          EnterBothDownState(current);
        }
        return NoAction;
      }
      if current == BothDown {
        if primHealthy {
          var _ := sm.Transition(buName, Primario);
        } else if secHealthy {
          var _ := sm.Transition(buName, Secundario);
        }
        return NoAction;
      }
      if config.activePassive {
        if current == Primario && !primHealthy && secHealthy {
          var can := MayFailover(now);
          if can {
            if config.requireTargetHealthy && !secHealthy {
              return NoAction;
            }
            action := Trigger(Primario, now);
            return;
          }
          return NoAction;
        }
        if current == Secundario && primHealthy && config.autoFailback {
          var can := MayFailover(now);
          if can {
            action := Trigger(Secundario, now);
            return;
          }
          return NoAction;
        }
        if current == Draining && primHealthy && !secHealthy {
          var _ := sm.Transition(buName, Primario);
          return NoAction;
        }
        if current == Draining && !primHealthy && secHealthy {
          var _ := sm.Transition(buName, Secundario);
          return NoAction;
        }
      }
      return NoAction;
    }

    method ResetCircuitBreaker()
      modifies this
      ensures Value() == Reset(old(Value()))
    {
      circuitBroken := false;
      failoverTimestamps := [];
    }

    method FailoverWindowCount(now: int) returns (n: nat)
      modifies this`failoverTimestamps
      ensures Value() == if config.window > 0 then Prune(config, old(Value()), now) else old(Value())
      ensures n == |Value().timestamps|
    {
      if config.window > 0 {
        PruneFailoverTimestamps(now);
      }
      n := |failoverTimestamps|;
    }
  }

  class DrCoordinator {
    const sm: StateMachine
    const dm: DrainManager
    const controllers: map<string, Controller>

    ghost predicate Valid() {
      && sm.drainManager == dm
      && forall bu :: bu in controllers ==> controllers[bu].buName == bu && controllers[bu].sm == sm
    }

    constructor (stateMachine: StateMachine, lookup: map<string, Controller>)
      requires forall bu :: bu in lookup ==> lookup[bu].buName == bu && lookup[bu].sm == stateMachine
      ensures Valid() && sm == stateMachine && controllers == lookup
    {
      sm, dm, controllers := stateMachine, stateMachine.drainManager, lookup;
    }

    /** The drain's timer fires and, with the callback Wire registers, completes it. */
    method OnDrainTimer(bu: string)
      requires Valid() && bu in sm.entries
      modifies sm, dm
      ensures Valid()
      ensures forall c :: sm.View(bu, c) == DrainFires(old(sm.View(bu, c)))
      ensures sm.entries == old(sm.entries)[bu := sm.State(bu)]
      ensures dm.drains - {bu} == old(dm.drains) - {bu}
    {
      var newActive := dm.Remove(bu);
      var current := sm.State(bu);
      assert sm.entries == sm.entries[bu := current];
      if current != Draining {
        return;
      }
      match newActive {
        case None => return;
        case Some(a) => var _ := sm.Transition(bu, StateFor(a));
      }
    }

    method TargetForRouting(bu: string) returns (target: Cluster)
      requires Valid()
      ensures target == Target(sm.View(bu, if bu in controllers then controllers[bu].Value() else NEW_CONTROL))
    {
      var state := sm.State(bu);
      match state {
        case Primario => return Primary;
        case Secundario => return Secondary;
        case Draining =>
          var drainState := dm.DrainState(bu);
          if drainState == None {
            return Primary;
          }
          return drainState.value.newActive;
        case BothDown =>
          if bu !in controllers {
            return Primary;
          }
          match controllers[bu].lastActiveBeforeBoth {
            case Some(a) => return a;
            case None => return Primary;
          }
      }
    }
  }
}
