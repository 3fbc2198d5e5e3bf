/** What holds of every run of a business unit through disaster recovery: draining
    goes to the opposite cluster and ends there, BOTH_DOWN latches and when it keeps
    the routing target, and how often the controller fails over. */
module DisasterRecoveryLaws {
  import opened DisasterRecovery
  import opened SlidingWindow
  import opened Wire

  lemma RunStep(cfg: Config, b: Bu, past: seq<Event>, e: Event)
    ensures RunFrom(cfg, b, past + [e]) == Next(cfg, RunFrom(cfg, b, past), e)
  {
    assert (past + [e])[..|past|] == past;
  }

  // ------------------------------------------------------------------------ draining

  /** The state the latest drain of a run was entered from. */
  function EnteredFrom(cfg: Config, events: seq<Event>): BuState {
    if events == [] then Initial(cfg).state else
    var past := events[..|events| - 1];
    if Run(cfg, events).state.Draining? && !Run(cfg, past).state.Draining? then Run(cfg, past).state
    else EnteredFrom(cfg, past)
  }

  /** Every change of state is allowed but one: BOTH_DOWN cannot start draining. */
  lemma AllowedEdges(from: BuState, to: BuState)
    ensures IsValidTransition(from, to) <==> from != to && !(from.BothDown? && to.Draining?)
  {
  }

  /** Every step follows the graph, and only entering DRAINING starts a drain. */
  lemma NextState(cfg: Config, b: Bu, e: Event)
    ensures var b' := Next(cfg, b, e);
            && (b'.state == b.state || IsValidTransition(b.state, b'.state))
            && (b'.state.Draining? ==> b'.drain == if b.state.Draining? && !e.step.DrainTimer? then b.drain
                                                   else if b.state.Draining? then None else Some(DrainFrom(b.state)))
            && (e.step.DrainTimer? && b.state.Draining? && b.drain.Some? ==>
                  b'.state == StateFor(b.drain.value.newActive) && b'.drain == None)
  {
  }

  /** In every reachable state, DRAINING means that one drain is live, from the cluster
      of the state it was entered from to the opposite one; new connections go to the
      opposite cluster, and the drain's timer moves the BU to exactly that cluster. */
  lemma {:induction false} DrainingHasItsDrain(cfg: Config, events: seq<Event>)
    requires Run(cfg, events).state.Draining?
    ensures var b, from := Run(cfg, events), EnteredFrom(cfg, events);
            && (from.Primario? || from.Secundario?)
            && b.drain == Some(Drain(ClusterFor(from), Opposite(ClusterFor(from))))
            && Target(b) == Opposite(ClusterFor(from))
            && DrainFires(b) == b.(drain := None, state := StateFor(Opposite(ClusterFor(from))))
  {
    assert events != [];
    var past, e := events[..|events| - 1], events[|events| - 1];
    NextState(cfg, Run(cfg, past), e);
    if Run(cfg, past).state.Draining? {
      DrainingHasItsDrain(cfg, past);
    }
  }

  // ----------------------------------------------------------------------- BOTH_DOWN

  predicate AllDown(b: Bu) {
    !b.control.primary.healthy && !b.control.secondary.healthy
  }

  /** BOTH_DOWN is left exactly by an evaluation, with the breaker closed, that finds
      a cluster healthy, and for the primary if that is healthy. */
  lemma LeavesBothDownExactly(cfg: Config, b: Bu, e: Event)
    requires b.state.BothDown?
    ensures !Next(cfg, b, e).state.BothDown? <==> e.step.Evaluation? && !b.control.broken && !AllDown(b)
    ensures !Next(cfg, b, e).state.BothDown? ==>
      Next(cfg, b, e).state == if b.control.primary.healthy then Primario else Secundario
    ensures Next(cfg, b, e).state.BothDown? ==>
      Target(Next(cfg, b, e)) == Target(b) && Next(cfg, b, e).control.bothDownCount == b.control.bothDownCount
  {
  }

  /** It is entered exactly by an evaluation, with the breaker closed, that finds none. */
  lemma EntersBothDownExactly(cfg: Config, b: Bu, e: Event)
    requires !b.state.BothDown?
    ensures Next(cfg, b, e).state.BothDown? <==> e.step.Evaluation? && !b.control.broken && AllDown(b)
    ensures Next(cfg, b, e).control.bothDownCount
         == b.control.bothDownCount + (if Next(cfg, b, e).state.BothDown? then 1 else 0)
  {
  }

  /** BOTH_DOWN latches: while neither cluster comes up, no sequence of check results,
      evaluations, drain timers, reloads or breaker resets changes the state, the
      routing target or the count of BOTH_DOWN entries. */
  lemma {:induction false} BothDownLatches(cfg: Config, b: Bu, events: seq<Event>)
    requires b.state.BothDown?
    requires forall i :: 0 <= i < |events| ==> AllDown(RunFrom(cfg, b, events[..i]))
    ensures var b' := RunFrom(cfg, b, events);
            && b'.state.BothDown? && Target(b') == Target(b)
            && b'.control.bothDownCount == b.control.bothDownCount
  {
    if events != [] {
      var past, e := events[..|events| - 1], events[|events| - 1];
      forall i | 0 <= i < |past| ensures AllDown(RunFrom(cfg, b, past[..i])) {
        assert past[..i] == events[..i];
      }
      BothDownLatches(cfg, b, past);
      LeavesBothDownExactly(cfg, RunFrom(cfg, b, past), e);
    }
  }

  /** Entering BOTH_DOWN keeps the routing target if and only if the BU was not
      draining, or its drain was entered from the configured active cluster. */
  lemma {:induction false} EntryKeepsTargetExactly(cfg: Config, past: seq<Event>, e: Event)
    requires !Run(cfg, past).state.BothDown? && Run(cfg, past + [e]).state.BothDown?
    ensures Target(Run(cfg, past + [e])) == Target(Run(cfg, past))
       <==> (Run(cfg, past).state.Draining? ==> ClusterFor(EnteredFrom(cfg, past)) == cfg.active)
  {
    var b := Run(cfg, past);
    RunStep(cfg, Initial(cfg), past, e);
    EntersBothDownExactly(cfg, b, e);
    if b.state.Draining? {
      DrainingHasItsDrain(cfg, past);
    }
  }

  /** In every run BOTH_DOWN holds a cluster, so the fallback for a controller that
      holds none is not used while one controller lives. */
  lemma {:induction false} BothDownHoldsACluster(cfg: Config, events: seq<Event>)
    requires Run(cfg, events).state.BothDown?
    ensures Run(cfg, events).control.lastActive.Some?
  {
    assert events != [];
    var past, e := events[..|events| - 1], events[|events| - 1];
    if Run(cfg, past).state.BothDown? {
      BothDownHoldsACluster(cfg, past);
    }
    HoldsStep(cfg, Run(cfg, past), e);
  }

  lemma HoldsStep(cfg: Config, b: Bu, e: Event)
    requires b.state.BothDown? ==> b.control.lastActive.Some?
    ensures Next(cfg, b, e).state.BothDown? ==> Next(cfg, b, e).control.lastActive.Some?
  {
  }

  predicate NoReload(events: seq<Event>) {
    forall i :: 0 <= i < |events| ==> !events[i].step.Reload?
  }

  lemma EntersDrainingFrom(cfg: Config, b: Bu, e: Event)
    requires !cfg.autoFailback && !e.step.Reload?
    requires !b.state.Draining? && Next(cfg, b, e).state.Draining?
    ensures b.state.Primario?
  {
  }

  lemma {:induction false} DrainsFromPrimary(cfg: Config, events: seq<Event>)
    requires !cfg.autoFailback && NoReload(events)
    requires Run(cfg, events).state.Draining?
    ensures EnteredFrom(cfg, events) == Primario
  {
    assert events != [];
    var past, e := events[..|events| - 1], events[|events| - 1];
    if Run(cfg, past).state.Draining? {
      DrainsFromPrimary(cfg, past);
    } else {
      EntersDrainingFrom(cfg, Run(cfg, past), e);
    }
  }

  /** So with the primary configured active, auto_failback off and no reload, entering
      BOTH_DOWN never changes the routing target. */
  lemma EntryKeepsTarget(cfg: Config, past: seq<Event>, e: Event)
    requires cfg.active == Primary && !cfg.autoFailback && NoReload(past)
    requires !Run(cfg, past).state.BothDown? && Run(cfg, past + [e]).state.BothDown?
    ensures Target(Run(cfg, past + [e])) == Target(Run(cfg, past))
  {
    EntryKeepsTargetExactly(cfg, past, e);
    if Run(cfg, past).state.Draining? {
      DrainsFromPrimary(cfg, past);
    }
  }

  /** A failover, the drain to the secondary, the failback's drain, both clusters lost. */
  const FAILBACK_SCENARIO := [
    Event(HealthResult(Secondary, true), 0), Event(Evaluation, 0), Event(DrainTimer, 0),
    Event(HealthResult(Primary, true), 0), Event(Evaluation, 0),
    Event(HealthResult(Primary, false), 0), Event(HealthResult(Secondary, false), 0), Event(Evaluation, 0)
  ]

  lemma RunNext(cfg: Config, events: seq<Event>, n: nat)
    requires n < |events|
    ensures Run(cfg, events[..n + 1]) == Next(cfg, Run(cfg, events[..n]), events[n])
  {
    assert events[..n + 1] == events[..n] + [events[n]];
    RunStep(cfg, Initial(cfg), events[..n], events[n]);
  }

  predicate ForScenario(cfg: Config) {
    && cfg.activePassive && cfg.active == Primary && cfg.autoFailback
    && cfg.failureThreshold == cfg.recoveryThreshold == 1
    && !cfg.HasBreaker() && cfg.minTimeBetweenFailovers <= 0
  }

  lemma FailbackDrains(cfg: Config)
    requires ForScenario(cfg)
    ensures var b := Run(cfg, FAILBACK_SCENARIO[..5]);
            && b.state.Draining? && b.drain == Some(Drain(Secondary, Primary)) && !b.control.broken
            && b.control.primary.healthy && b.control.secondary.healthy
  {
    assert FAILBACK_SCENARIO[..0] == [];
    RunNext(cfg, FAILBACK_SCENARIO, 0);
    RunNext(cfg, FAILBACK_SCENARIO, 1);
    RunNext(cfg, FAILBACK_SCENARIO, 2);
    RunNext(cfg, FAILBACK_SCENARIO, 3);
    RunNext(cfg, FAILBACK_SCENARIO, 4);
  }

  /** With auto_failback it can: here new connections go to the primary, which the
      failback is draining to, and entering BOTH_DOWN sends them to the secondary. */
  lemma FailbackCanMoveTarget(cfg: Config)
    requires ForScenario(cfg)
    ensures var before, after := Run(cfg, FAILBACK_SCENARIO[..7]), Run(cfg, FAILBACK_SCENARIO[..8]);
            && before.state.Draining? && Target(before) == Primary
            && after.state.BothDown? && Target(after) == Secondary
  {
    FailbackDrains(cfg);
    RunNext(cfg, FAILBACK_SCENARIO, 5);
    RunNext(cfg, FAILBACK_SCENARIO, 6);
    RunNext(cfg, FAILBACK_SCENARIO, 7);
  }

  // ----------------------------------------------------------------------- failovers

  predicate FailsOver(b: Bu, b': Bu) {
    b'.control.failoverCount > b.control.failoverCount
  }

  /** When the controller failed over. */
  function Failovers(cfg: Config, events: seq<Event>): seq<int> {
    if events == [] then [] else
    var past := events[..|events| - 1];
    AddIf(FailsOver(Run(cfg, past), Run(cfg, events)), Failovers(cfg, past), events[|events| - 1].at)
  }

  /** The same, counting from the latest reset of the breaker. */
  function SinceReset(cfg: Config, events: seq<Event>): seq<int> {
    if events == [] || events[|events| - 1].step.ResetBreaker? then [] else
    var past := events[..|events| - 1];
    AddIf(FailsOver(Run(cfg, past), Run(cfg, events)), SinceReset(cfg, past), events[|events| - 1].at)
  }

  /** The clock does not go backwards. */
  predicate Timed(events: seq<Event>) {
    forall i, j :: 0 <= i < j < |events| ==> events[i].at <= events[j].at
  }

  predicate NotAfter(log: seq<int>, now: int) {
    forall i :: 0 <= i < |log| ==> log[i] <= now
  }

  /** A failover is an evaluation with the breaker closed and the cooldown over; it
      starts a drain from the cluster in use to the opposite one, which is healthy. */
  lemma NextFailover(cfg: Config, b: Bu, e: Event)
    ensures var b' := Next(cfg, b, e);
            if FailsOver(b, b') then
              && e.step.Evaluation? && !b.control.broken && !CoolingDown(cfg, b.control, e.at)
              && b'.control.lastFailoverAt == Some(e.at)
              && (b.state.Primario? || b.state.Secundario?)
              && b'.state.Draining? && b'.drain == Some(Drain(ClusterFor(b.state), Opposite(ClusterFor(b.state))))
              && (if b.state.Primario? then b.control.secondary.healthy else b.control.primary.healthy)
            else b'.control.lastFailoverAt == b.control.lastFailoverAt
  {
  }

  /** The failovers so far: the last is the one remembered, none is later than now, and
      two in a row are a cooldown apart. */
  ghost predicate Paced(cfg: Config, b: Bu, log: seq<int>, now: int) {
    && b.control.lastFailoverAt == (if log == [] then None else Some(log[|log| - 1]))
    && NotAfter(log, now) && Spaced(log, 1, cfg.minTimeBetweenFailovers)
  }

  lemma PacedStep(cfg: Config, b: Bu, e: Event, log: seq<int>, now: int)
    requires Paced(cfg, b, log, now) && now <= e.at
    ensures var b' := Next(cfg, b, e);
            Paced(cfg, b', AddIf(FailsOver(b, b'), log, e.at), e.at)
  {
    NextFailover(cfg, b, e);
  }

  lemma {:induction false} AlwaysPaced(cfg: Config, events: seq<Event>)
    requires Timed(events) && events != []
    ensures Paced(cfg, Run(cfg, events), Failovers(cfg, events), events[|events| - 1].at)
  {
    var past, e := events[..|events| - 1], events[|events| - 1];
    if past == [] {
      PacedStep(cfg, Initial(cfg), e, [], e.at);
    } else {
      AlwaysPaced(cfg, past);
      PacedStep(cfg, Run(cfg, past), e, Failovers(cfg, past), past[|past| - 1].at);
    }
  }

  /** Cooldown: in every run, whatever is reset, two failovers in a row are at least
      min_time_between_failovers apart; the last one is the one remembered. */
  lemma FailoversAreSpaced(cfg: Config, events: seq<Event>)
    requires Timed(events)
    ensures var log, last := Failovers(cfg, events), Run(cfg, events).control.lastFailoverAt;
            && last == (if log == [] then None else Some(log[|log| - 1]))
            && (events != [] ==> NotAfter(log, events[|events| - 1].at))
            && Spaced(log, 1, cfg.minTimeBetweenFailovers)
  {
    if events != [] {
      AlwaysPaced(cfg, events);
    }
  }

  /** The controller's window holds the failovers since the reset later than some
      cutoff outside it; with the breaker closed there is room for one more. */
  ghost predicate Remembers(cfg: Config, c: Control, log: seq<int>, now: int)
    requires cfg.HasBreaker()
  {
    && Sorted(log) && NotAfter(log, now) && Spaced(log, cfg.maxFailovers, cfg.window)
    && (exists cutoff :: cutoff <= now - cfg.window && c.timestamps == After(log, cutoff))
    && (!c.broken ==> |c.timestamps| < cfg.maxFailovers)
  }

  /** Pruning the window is pruning the whole log. */
  lemma PrunedWindow(cfg: Config, c: Control, log: seq<int>, now: int, later: int)
    requires cfg.HasBreaker() && Remembers(cfg, c, log, now) && now <= later
    ensures Prune(cfg, c, later).timestamps == After(log, later - cfg.window)
    ensures |Prune(cfg, c, later).timestamps| <= |c.timestamps|
  {
    var cutoff :| cutoff <= now - cfg.window && c.timestamps == After(log, cutoff);
    PrunedAgain(log, cutoff, later - cfg.window);
  }

  lemma PruneKeeps(cfg: Config, c: Control, log: seq<int>, now: int, later: int)
    requires cfg.HasBreaker() && Remembers(cfg, c, log, now) && now <= later
    ensures Remembers(cfg, Prune(cfg, c, later), log, later)
    ensures Remembers(cfg, c, log, later)
  {
    PrunedWindow(cfg, c, log, now, later);
  }

  lemma ResetKeeps(cfg: Config, c: Control, log: seq<int>, now: int)
    requires cfg.HasBreaker() && Remembers(cfg, c, log, now)
    ensures Remembers(cfg, Reset(c), [], now)
  {
    assert After([], now - cfg.window) == [];
  }

  /** With room in the window, the entry `max` places back is outside it. */
  lemma SpacedSnoc(log: seq<int>, max: nat, window: int, t: int)
    requires max > 0 && Sorted(log) && NotAfter(log, t) && Spaced(log, max, window)
    requires |After(log, t - window)| < max
    ensures Sorted(log + [t]) && NotAfter(log + [t], t) && Spaced(log + [t], max, window)
  {
    var log' := log + [t];
    if |log| >= max {
      FewAfter(log, t - window, max);
    }
    forall i, j | 0 <= i < j < |log'| && j == i + max
      ensures log'[j] - log'[i] >= window
    {
      if j < |log| {
        assert log[j] - log[i] >= window;
      }
    }
  }

  lemma TriggeredWindow(cfg: Config, c: Control, log: seq<int>, now: int)
    requires cfg.HasBreaker() && Sorted(log) && NotAfter(log, now)
    requires c.timestamps == After(log, now - cfg.window) + [now]
    ensures Prune(cfg, c, now).timestamps == After(log + [now], now - cfg.window)
  {
    AfterSnoc(log, now, now - cfg.window);
    PrunedAgain(log + [now], now - cfg.window, now - cfg.window);
  }

  lemma TriggerPrunes(cfg: Config, b: Bu, now: int, c: Control)
    requires cfg.HasBreaker() && c == b.control.(timestamps := b.control.timestamps + [now])
    ensures var c' := TriggerFailover(cfg, b, now).control;
            && c'.timestamps == Prune(cfg, c, now).timestamps
            && (!c'.broken ==> |c'.timestamps| < cfg.maxFailovers)
  {
  }

  lemma TriggerKeeps(cfg: Config, b: Bu, log: seq<int>, now: int)
    requires cfg.HasBreaker() && Remembers(cfg, b.control, log, now)
    requires b.control.timestamps == After(log, now - cfg.window) && !b.control.broken
    ensures Remembers(cfg, TriggerFailover(cfg, b, now).control, log + [now], now)
  {
    var c := b.control.(timestamps := b.control.timestamps + [now]);
    SpacedSnoc(log, cfg.maxFailovers, cfg.window, now);
    TriggeredWindow(cfg, c, log, now);
    TriggerPrunes(cfg, b, now, c);
  }

  lemma TryKeeps(cfg: Config, b: Bu, log: seq<int>, now: int, later: int, action: Action)
    requires cfg.HasBreaker() && Remembers(cfg, b.control, log, now) && now <= later && !b.control.broken
    ensures var b' := TryFailover(cfg, b, later, action).0;
            Remembers(cfg, b'.control, AddIf(FailsOver(b, b'), log, later), later)
  {
    PruneKeeps(cfg, b.control, log, now, later);
    PrunedWindow(cfg, b.control, log, now, later);
    if !CoolingDown(cfg, b.control, later) {
      TriggerKeeps(cfg, b.(control := Prune(cfg, b.control, later)), log, later);
    }
  }

  lemma NextRemembers(cfg: Config, b: Bu, e: Event, log: seq<int>, now: int)
    requires cfg.HasBreaker() && Remembers(cfg, b.control, log, now) && now <= e.at
    ensures var b' := Next(cfg, b, e);
            Remembers(cfg, b'.control, if e.step.ResetBreaker? then [] else AddIf(FailsOver(b, b'), log, e.at), e.at)
  {
    PruneKeeps(cfg, b.control, log, now, e.at);
    match e.step {
      case ResetBreaker =>
        ResetKeeps(cfg, b.control, log, e.at);
      case Evaluation =>
        if !b.control.broken {
          TryKeeps(cfg, b, log, now, e.at, NoAction);
          SameFailover(cfg, b, e);
        }
      case _ =>
    }
  }

  /** Only a tried failover touches the breaker's bookkeeping in an evaluation. */
  lemma SameFailover(cfg: Config, b: Bu, e: Event)
    requires e.step.Evaluation?
    ensures var c, c' := b.control, Next(cfg, b, e).control;
            || (c'.timestamps == c.timestamps && c'.broken == c.broken && c'.breakCount == c.breakCount
                && c'.failoverCount == c.failoverCount)
            || (!c.broken && c' == TryFailover(cfg, b, e.at, NoAction).0.control)
  {
  }

  lemma {:induction false} AlwaysRemembers(cfg: Config, events: seq<Event>, start: int)
    requires cfg.HasBreaker() && Timed(events) && (events != [] ==> start <= events[0].at)
    ensures Remembers(cfg, Run(cfg, events).control, SinceReset(cfg, events),
                      if events == [] then start else events[|events| - 1].at)
  {
    if events == [] {
      assert After([], start - cfg.window) == [];
    } else {
      var past, e := events[..|events| - 1], events[|events| - 1];
      AlwaysRemembers(cfg, past, start);
      NextRemembers(cfg, Run(cfg, past), e, SinceReset(cfg, past), if past == [] then start else past[|past| - 1].at);
    }
  }

  /** Circuit breaker: in every run, between two resets, every window of length
      circuit_breaker_window holds at most circuit_breaker_max_failovers failovers. */
  lemma BreakerBoundsEveryWindow(cfg: Config, events: seq<Event>, from: int)
    requires cfg.HasBreaker() && Timed(events)
    ensures Within(SinceReset(cfg, events), from, from + cfg.window) <= cfg.maxFailovers
  {
    AlwaysRemembers(cfg, events, if events == [] then 0 else events[0].at);
    SpacedBound(SinceReset(cfg, events), cfg.maxFailovers, cfg.window, from);
  }

  /** The breaker is what stops failovers, not the window check made before one: while
      the breaker is closed, only the cooldown can refuse a failover. */
  lemma OnlyCooldownRefuses(cfg: Config, events: seq<Event>, now: int)
    requires Timed(events) && (events != [] ==> events[|events| - 1].at <= now)
    requires !Run(cfg, events).control.broken
    ensures CanFailover(cfg, Run(cfg, events).control, now).0 <==> !CoolingDown(cfg, Run(cfg, events).control, now)
  {
    if cfg.HasBreaker() {
      var start := if events == [] then now else events[0].at;
      AlwaysRemembers(cfg, events, start);
      PrunedWindow(cfg, Run(cfg, events).control, SinceReset(cfg, events),
                   if events == [] then start else events[|events| - 1].at, now);
    }
  }

  // ------------------------------------------------------------ exactly when it acts

  /** Failing over is called for: in active_passive mode with the breaker closed and
      min_time_between_failovers over since the last failover, when the cluster in
      use is the primary, down, and the secondary is up, or it is the secondary, the
      primary is up, and auto_failback is on. */
  predicate CalledFor(cfg: Config, b: Bu, log: seq<int>, now: int) {
    && cfg.activePassive && !b.control.broken
    && (cfg.minTimeBetweenFailovers > 0 && log != [] ==> now - log[|log| - 1] >= cfg.minTimeBetweenFailovers)
    && (|| (b.state.Primario? && !b.control.primary.healthy && b.control.secondary.healthy)
        || (b.state.Secundario? && b.control.primary.healthy && cfg.autoFailback))
  }

  lemma EvaluationActs(cfg: Config, b: Bu, log: seq<int>, now: int)
    requires CoolingDown(cfg, b.control, now)
        <==> cfg.minTimeBetweenFailovers > 0 && log != [] && now - log[|log| - 1] < cfg.minTimeBetweenFailovers
    requires !b.control.broken ==> (CanFailover(cfg, b.control, now).0 <==> !CoolingDown(cfg, b.control, now))
    ensures var (b', action) := Evaluate(cfg, b, now);
            && (FailsOver(b, b') <==> CalledFor(cfg, b, log, now))
            && (!b.state.Draining? ==> (b'.state.Draining? <==> CalledFor(cfg, b, log, now)))
            && action == (if !CalledFor(cfg, b, log, now) then NoAction
                          else if b.state.Primario? then FailoverToSecondary else FailoverToPrimary)
  {
  }

  /** An event is a failover exactly when it is an evaluation that finds one called for,
      which is also what it returns; and a BU that is not draining begins to exactly
      when that happens or, in PRIMARIO or SECUNDARIO, a reload asks for it. */
  predicate ActsWhenCalledFor(cfg: Config, b: Bu, e: Event, log: seq<int>) {
    var b', failsOver := Next(cfg, b, e), e.step.Evaluation? && CalledFor(cfg, b, log, e.at);
    && (FailsOver(b, b') <==> failsOver)
    && (!b.state.Draining? ==>
          (b'.state.Draining? <==> failsOver || (e.step.Reload? && (b.state.Primario? || b.state.Secundario?))))
    && (e.step.Evaluation? ==>
          Evaluate(cfg, b, e.at).1
          == if !failsOver then NoAction else if b.state.Primario? then FailoverToSecondary else FailoverToPrimary)
  }

  lemma EventActs(cfg: Config, b: Bu, e: Event, log: seq<int>)
    requires b.control.lastFailoverAt == if log == [] then None else Some(log[|log| - 1])
    requires !b.control.broken ==> (CanFailover(cfg, b.control, e.at).0 <==> !CoolingDown(cfg, b.control, e.at))
    ensures ActsWhenCalledFor(cfg, b, e, log)
  {
    if e.step.Evaluation? {
      EvaluationActs(cfg, b, log, e.at);
    }
  }

  /** In every run, exactly: the controller fails over when it is called for. */
  lemma FailsOverExactly(cfg: Config, past: seq<Event>, e: Event)
    requires Timed(past) && (past != [] ==> past[|past| - 1].at <= e.at)
    ensures ActsWhenCalledFor(cfg, Run(cfg, past), e, Failovers(cfg, past))
  {
    FailoversAreSpaced(cfg, past);
    if !Run(cfg, past).control.broken {
      OnlyCooldownRefuses(cfg, past, e.at);
    }
    EventActs(cfg, Run(cfg, past), e, Failovers(cfg, past));
  }

  /** A drain ends before its timer exactly in an evaluation with the breaker closed:
      both clusters down make it BOTH_DOWN; in active_passive mode one cluster up and
      the other down send the BU to the one that is up, whichever was being drained. */
  lemma AbortsDrainExactly(cfg: Config, b: Bu, e: Event)
    requires b.state.Draining? && !e.step.DrainTimer?
    ensures var prim, sec := b.control.primary.healthy, b.control.secondary.healthy;
            Next(cfg, b, e).state ==
              if !e.step.Evaluation? || b.control.broken then Draining
              else if !prim && !sec then BothDown
              else if cfg.activePassive && !sec then Primario
              else if cfg.activePassive && !prim then Secundario
              else Draining
  {
  }

  /** What an event at time `at` does to the breaker, given the failovers so far: it trips,
      and is counted, with one that fills the window; only a reset closes it. */
  predicate BreakerRule(cfg: Config, c: Control, c': Control, log: seq<int>, at: int, isReset: bool) {
    var trips := && cfg.maxFailovers > 0 && cfg.window > 0 && c'.failoverCount > c.failoverCount
                 && |After(log + [at], at - cfg.window)| >= cfg.maxFailovers;
    && c'.broken == ((c.broken && !isReset) || trips)
    && c'.breakCount == c.breakCount + (if trips then 1 else 0)
  }

  lemma TryTrips(cfg: Config, b: Bu, log: seq<int>, now: int, later: int, action: Action)
    requires cfg.HasBreaker() && Remembers(cfg, b.control, log, now) && now <= later && !b.control.broken
    ensures BreakerRule(cfg, b.control, TryFailover(cfg, b, later, action).0.control, log, later, false)
  {
    PrunedWindow(cfg, b.control, log, now, later);
    var pruned := Prune(cfg, b.control, later);
    TriggeredWindow(cfg, pruned.(timestamps := pruned.timestamps + [later]), log, later);
  }

  lemma BreakerKept(cfg: Config, b: Bu, e: Event, log: seq<int>)
    requires !e.step.Evaluation? || b.control.broken || !cfg.HasBreaker()
    ensures BreakerRule(cfg, b.control, Next(cfg, b, e).control, log, e.at, e.step.ResetBreaker?)
  {
  }

  lemma EvaluationTrips(cfg: Config, b: Bu, e: Event, log: seq<int>, now: int)
    requires cfg.HasBreaker() && Remembers(cfg, b.control, log, now) && now <= e.at
    requires e.step.Evaluation? && !b.control.broken
    ensures BreakerRule(cfg, b.control, Next(cfg, b, e).control, log, e.at, false)
  {
    TryTrips(cfg, b, log, now, e.at, NoAction);
    SameFailover(cfg, b, e);
  }

  /** In every run the breaker trips exactly with a failover that makes
      circuit_breaker_max_failovers in its window since the last reset. */
  lemma BreakerTripsExactly(cfg: Config, past: seq<Event>, e: Event)
    requires Timed(past) && (past != [] ==> past[|past| - 1].at <= e.at)
    ensures var b := Run(cfg, past);
            BreakerRule(cfg, b.control, Next(cfg, b, e).control, SinceReset(cfg, past), e.at, e.step.ResetBreaker?)
  {
    var b := Run(cfg, past);
    if e.step.Evaluation? && !b.control.broken && cfg.HasBreaker() {
      var start := if past == [] then e.at else past[0].at;
      AlwaysRemembers(cfg, past, start);
      EvaluationTrips(cfg, b, e, SinceReset(cfg, past), if past == [] then start else past[|past| - 1].at);
    } else {
      BreakerKept(cfg, b, e, SinceReset(cfg, past));
    }
  }
}
