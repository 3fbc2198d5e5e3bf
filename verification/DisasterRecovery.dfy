/** internal/failover/state.go and controller.go, internal/proxy/dr_coordinator.go and
    drain.go: autonomous disaster recovery of one business unit (BU), as a machine
    over values.  The state machine, the controller, the drain manager and the
    coordinator that wires them together make one state; each step is one public
    operation, taken atomically with one clock reading. */
module DisasterRecovery {
  import opened SlidingWindow
  import opened Wire

  const DEFAULT_FAILURE_THRESHOLD := 3
  const DEFAULT_RECOVERY_THRESHOLD := 2

  datatype Cluster = Primary | Secondary

  function Opposite(c: Cluster): Cluster {
    if c.Primary? then Secondary else Primary
  }

  datatype BuState = Primario | Secundario | Draining | BothDown

  function StateFor(c: Cluster): BuState {
    if c.Primary? then Primario else Secundario
  }

  /** The cluster a state stands for; the primary for the two that stand for none. */
  function ClusterFor(s: BuState): Cluster {
    if s.Secundario? then Secondary else Primary
  }

  predicate IsValidTransition(from: BuState, to: BuState) {
    match from
    case Primario => to == Secundario || to == Draining || to == BothDown
    case Secundario => to == Primario || to == Draining || to == BothDown
    case Draining => to == Primario || to == Secundario || to == BothDown
    case BothDown => to == Primario || to == Secundario
  }

  datatype Config = Config(
    activePassive: bool,
    active: Cluster,
    failureThreshold: int,
    recoveryThreshold: int,
    minTimeBetweenFailovers: int,
    maxFailovers: int,
    window: int,
    autoFailback: bool,
    requireTargetHealthy: bool)
  {
    function FailuresNeeded(): int {
      if failureThreshold <= 0 then DEFAULT_FAILURE_THRESHOLD else failureThreshold
    }

    function SuccessesNeeded(): int {
      if recoveryThreshold <= 0 then DEFAULT_RECOVERY_THRESHOLD else recoveryThreshold
    }

    predicate HasBreaker() {
      maxFailovers > 0 && window > 0
    }
  }

  datatype Health = Health(healthy: bool, failures: nat, successes: nat)

  datatype Drain = Drain(oldActive: Cluster, newActive: Cluster)

  /** The controller's fields; `lastFailoverAt` is None for Go's zero time. */
  datatype Control = Control(
    primary: Health,
    secondary: Health,
    lastFailoverAt: Option<int>,
    timestamps: seq<int>,
    broken: bool,
    lastActive: Option<Cluster>,
    bothDownCount: nat,
    failoverCount: nat,
    breakCount: nat)

  /** A BU: its state, its drain (whose timer is running), its controller. */
  datatype Bu = Bu(state: BuState, drain: Option<Drain>, control: Control)

  const NEW_CONTROL :=
    Control(Health(false, 0, 0), Health(false, 0, 0), None, [], false, None, 0, 0, 0)

  datatype Action = NoAction | FailoverToSecondary | FailoverToPrimary

  // ------------------------------------------------------- state machine and drains

  /** A transition request: refused when the graph does not have the edge; committing
      to DRAINING starts the drain to the opposite cluster, replacing any other. */
  function Request(b: Bu, to: BuState): Bu {
    if b.state == to || !IsValidTransition(b.state, to) then b
    else b.(state := to, drain := if to.Draining? then Some(DrainFrom(b.state)) else b.drain)
  }

  function DrainFrom(from: BuState): Drain {
    Drain(ClusterFor(from), if from.Primario? then Secondary else Primary)
  }

  /** The drain timer fires: the drain ends, and if the BU is still draining it moves
      to the drain's destination. */
  function DrainFires(b: Bu): Bu {
    match b.drain
    case None => b
    case Some(d) =>
      var b := b.(drain := None);
      if b.state.Draining? then Request(b, StateFor(d.newActive)) else b
  }

  /** Where new connections go. */
  function Target(b: Bu): Cluster {
    match b.state
    case Primario => Primary
    case Secundario => Secondary
    case Draining => (match b.drain case None => Primary case Some(d) => d.newActive)
    case BothDown => (match b.control.lastActive case None => Primary case Some(a) => a)
  }

  // --------------------------------------------------------------------- controller

  function Checked(cfg: Config, h: Health, ok: bool): Health {
    if ok then
      var h := h.(failures := 0, successes := h.successes + 1);
      if h.successes >= cfg.SuccessesNeeded() && !h.healthy then h.(healthy := true) else h
    else
      var h := h.(successes := 0, failures := h.failures + 1);
      if h.failures >= cfg.FailuresNeeded() && h.healthy then h.(healthy := false) else h
  }

  function RecordHealth(cfg: Config, c: Control, cluster: Cluster, ok: bool): Control {
    match cluster
    case Primary => c.(primary := Checked(cfg, c.primary, ok))
    case Secondary => c.(secondary := Checked(cfg, c.secondary, ok))
  }

  /** Entering BOTH_DOWN holds the cluster that was active, as the controller sees it. */
  function HeldCluster(cfg: Config, from: BuState): Cluster {
    if from.Draining? then Opposite(cfg.active) else ClusterFor(from)
  }

  function EnterBothDown(cfg: Config, b: Bu): Bu {
    var held := HeldCluster(cfg, b.state);
    var b := Request(b, BothDown);
    b.(control := b.control.(bothDownCount := b.control.bothDownCount + 1, lastActive := Some(held)))
  }

  function Prune(cfg: Config, c: Control, now: int): Control {
    c.(timestamps := SuffixAfter(c.timestamps, now - cfg.window))
  }

  predicate CoolingDown(cfg: Config, c: Control, now: int) {
    cfg.minTimeBetweenFailovers > 0 && c.lastFailoverAt.Some?
    && now - c.lastFailoverAt.value < cfg.minTimeBetweenFailovers
  }

  /** Asking whether a failover is allowed prunes the window. */
  function CanFailover(cfg: Config, c: Control, now: int): (bool, Control) {
    if CoolingDown(cfg, c, now) then (false, c)
    else if !cfg.HasBreaker() then (true, c)
    else
      var c := Prune(cfg, c, now);
      (|c.timestamps| < cfg.maxFailovers, c)
  }

  function TriggerFailover(cfg: Config, b: Bu, now: int): Bu {
    var c := b.control;
    var c := c.(lastFailoverAt := Some(now), timestamps := c.timestamps + [now], failoverCount := c.failoverCount + 1);
    var b := Request(b.(control := c), Draining);
    if !cfg.HasBreaker() then b
    else
      var c := Prune(cfg, b.control, now);
      if |c.timestamps| >= cfg.maxFailovers
      then b.(control := c.(broken := true, breakCount := c.breakCount + 1))
      else b.(control := c)
  }

  function TryFailover(cfg: Config, b: Bu, now: int, action: Action): (Bu, Action) {
    var (can, c) := CanFailover(cfg, b.control, now);
    var b := b.(control := c);
    if can then (TriggerFailover(cfg, b, now), action) else (b, NoAction)
  }

  /** The decision algorithm. */
  function Evaluate(cfg: Config, b: Bu, now: int): (Bu, Action) {
    var prim, sec := b.control.primary.healthy, b.control.secondary.healthy;
    if b.control.broken then (b, NoAction)
    else if !prim && !sec then (if b.state.BothDown? then b else EnterBothDown(cfg, b), NoAction)
    else if b.state.BothDown? then (Request(b, if prim then Primario else Secundario), NoAction)
    else if !cfg.activePassive then (b, NoAction)
    else if b.state.Primario? && !prim && sec then TryFailover(cfg, b, now, FailoverToSecondary)
    else if b.state.Secundario? && prim && cfg.autoFailback then TryFailover(cfg, b, now, FailoverToPrimary)
    else if b.state.Draining? && prim && !sec then (Request(b, Primario), NoAction)
    else if b.state.Draining? && !prim && sec then (Request(b, Secundario), NoAction)
    else (b, NoAction)
  }

  function Reset(c: Control): Control {
    c.(broken := false, timestamps := [])
  }

  // --------------------------------------------------------------------------- runs

  /** Reload is what a configuration reload that changes the active cluster does first:
      it asks for DRAINING.  The source then replaces the controller by one for the new
      configuration (cmd/proxy/main.go:94-118); the step keeps both, so a run is that of
      one controller up to there.  The other steps are the public operations of the
      components. */
  datatype Step =
    | HealthResult(cluster: Cluster, ok: bool)
    | Evaluation
    | DrainTimer
    | Reload
    | ResetBreaker
    | WindowCount

  datatype Event = Event(step: Step, at: int)

  function Next(cfg: Config, b: Bu, e: Event): Bu {
    match e.step
    case HealthResult(cluster, ok) => b.(control := RecordHealth(cfg, b.control, cluster, ok))
    case Evaluation => Evaluate(cfg, b, e.at).0
    case DrainTimer => DrainFires(b)
    case Reload => Request(b, Draining)
    case ResetBreaker => b.(control := Reset(b.control))
    case WindowCount => if cfg.window > 0 then b.(control := Prune(cfg, b.control, e.at)) else b
  }

  /** A BU starts in the state of its configured active cluster. */
  function Initial(cfg: Config): Bu {
    Bu(StateFor(cfg.active), None, NEW_CONTROL)
  }

  function RunFrom(cfg: Config, b: Bu, events: seq<Event>): Bu {
    if events == [] then b
    else Next(cfg, RunFrom(cfg, b, events[..|events| - 1]), events[|events| - 1])
  }

  function Run(cfg: Config, events: seq<Event>): Bu {
    RunFrom(cfg, Initial(cfg), events)
  }
}
