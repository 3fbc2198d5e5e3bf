/** internal/routing/rebalance.go with the weights of internal/routing/data.go:
    automatic shifting of load_balance weights when an endpoint goes down and back
    when it recovers. */
module WeightRebalance {
  import opened Wire

  const SECOND := 1_000_000_000
  const DEFAULT_MIN_UPTIME := 120 * SECOND

  datatype Weights = Weights(primary: int, secondary: int)

  const TO_SECONDARY := Weights(0, 100)
  const TO_PRIMARY := Weights(100, 0)

  datatype Config = Config(loadBalance: bool, autoRebalance: bool, weights: Weights, recoveryMinUptime: int) {
    function MinUptime(): int {
      if recoveryMinUptime <= 0 then DEFAULT_MIN_UPTIME else recoveryMinUptime
    }

    /** What configuration validation checks, for weights that are not negative. */
    predicate Validated() {
      loadBalance ==> IsSplit(weights)
    }
  }

  predicate IsSplit(w: Weights) {
    w.primary >= 0 && w.secondary >= 0 && w.primary + w.secondary == 100
  }

  datatype Prev = Prev(primaryHealthy: bool, secondaryHealthy: bool)

  /** What the health checker reports; `upSince` is None for Go's zero time, from which
      any uptime has passed. */
  datatype Health = Health(primaryHealthy: bool, secondaryHealthy: bool, upSince: Option<int>)

  /** One cluster: its configuration, the router's override of its weights, and what
      the rebalancer keeps for it. */
  datatype Cluster = Cluster(
    config: Config,
    effective: Option<Weights>,
    original: Option<Weights>,
    recovering: bool,
    prev: Option<Prev>)

  /** The weights routing uses. */
  function Shares(c: Cluster): Weights {
    match c.effective
    case Some(w) => w
    case None => if c.config.loadBalance then c.config.weights else Weights(0, 0)
  }

  predicate UptimeMet(config: Config, upSince: Option<int>, now: int) {
    upSince.Some? ==> now - upSince.value >= config.MinUptime()
  }

  function Shift(c: Cluster, primaryDown: bool): Cluster {
    c.(effective := Some(if primaryDown then TO_SECONDARY else TO_PRIMARY))
  }

  function Restore(c: Cluster): Cluster {
    if c.original.None? then c else c.(effective := c.original)
  }

  function PrimaryUp(c: Cluster, upSince: Option<int>, now: int): Cluster {
    if !UptimeMet(c.config, upSince, now) then c.(recovering := true)
    else if c.original.None? then c
    else Restore(c).(recovering := false)
  }

  function CheckRecovery(c: Cluster, upSince: Option<int>, now: int): Cluster {
    if !UptimeMet(c.config, upSince, now) then c else Restore(c).(recovering := false)
  }

  /** The transitions between the health seen before and the health seen now. */
  function Adjust(c: Cluster, was: Prev, h: Health, now: int): Cluster {
    var primaryDown := was.primaryHealthy && !h.primaryHealthy;
    var secondaryDown := was.secondaryHealthy && !h.secondaryHealthy;
    var c := if primaryDown || secondaryDown then Shift(c, primaryDown) else c;
    var c := if !was.secondaryHealthy && h.secondaryHealthy then Restore(c) else c;
    var c := if !was.primaryHealthy && h.primaryHealthy then PrimaryUp(c, h.upSince, now) else c;
    if c.recovering then CheckRecovery(c, h.upSince, now) else c
  }

  /** One tick for one cluster; the first only records the health it sees. */
  function Tick(c: Cluster, h: Health, now: int): Cluster {
    if !c.config.loadBalance || !c.config.autoRebalance then c
    else
      var adjusted := if c.prev.None? then c else Adjust(c, c.prev.value, h, now);
      adjusted.(prev := Some(Prev(h.primaryHealthy, h.secondaryHealthy)))
  }

  /** A reload of the rebalancer's configuration leaves the weights in force. */
  function Reconfigure(c: Cluster, config: Config): Cluster {
    c.(config := config, original := if config.loadBalance then Some(config.weights) else c.original)
  }

  /** The router's own reload gives a cluster without weights its configured ones. */
  function Seeded(effective: Option<Weights>, config: Config): Option<Weights> {
    if effective.None? && config.loadBalance then Some(config.weights) else effective
  }

  function ResetWeights(c: Cluster): Cluster {
    if c.original.None? then c else c.(effective := c.original, recovering := false)
  }

  function Initial(config: Config): Cluster {
    var w := if config.loadBalance then Some(config.weights) else None;
    Cluster(config, w, w, false, None)
  }

  // ---------------------------------------------------------------------- the objects

  class Router {
    var effectiveWeights: map<string, Weights>

    constructor (cfg: map<string, Config>)
      ensures effectiveWeights == map name | name in cfg && cfg[name].loadBalance :: cfg[name].weights
    {
      effectiveWeights := map name | name in cfg && cfg[name].loadBalance :: cfg[name].weights;
    }

    method SetEffectiveWeights(cluster: string, primaryW: int, secondaryW: int)
      modifies this
      ensures effectiveWeights == old(effectiveWeights)[cluster := Weights(primaryW, secondaryW)]
    {
      effectiveWeights := effectiveWeights[cluster := Weights(primaryW, secondaryW)];
    }

    method UpdateConfig(cfg: map<string, Config>)
      modifies this
      ensures forall name :: name in cfg ==>
        Lookup(effectiveWeights, name) == Seeded(old(Lookup(effectiveWeights, name)), cfg[name])
      ensures forall name :: name !in cfg ==>
        Lookup(effectiveWeights, name) == old(Lookup(effectiveWeights, name))
    {
      var rest := cfg.Keys;
      while rest != {}
        invariant rest <= cfg.Keys
        invariant forall name :: name in cfg && name !in rest ==>
          Lookup(effectiveWeights, name) == Seeded(old(Lookup(effectiveWeights, name)), cfg[name])
        invariant forall name :: name !in cfg || name in rest ==>
          Lookup(effectiveWeights, name) == old(Lookup(effectiveWeights, name))
        decreases |rest|
      {
        var name :| name in rest;
        if cfg[name].loadBalance {
          if name !in effectiveWeights {
            effectiveWeights := effectiveWeights[name := cfg[name].weights];
          }
        }
        rest := rest - {name};
      }
    }

    method GetEffectiveWeights(cluster: string, cfg: Config) returns (w: Weights)
      ensures forall c: Cluster ::
        c.config == cfg && c.effective == Lookup(effectiveWeights, cluster) ==> w == Shares(c)
    {
      if cluster in effectiveWeights {
        return effectiveWeights[cluster];
      }
      if cfg.loadBalance {
        return cfg.weights;
      }
      return Weights(0, 0);
    }
  }

  function Lookup<V>(m: map<string, V>, key: string): Option<V> {
    if key in m then Some(m[key]) else None
  }

  class Rebalancer {
    const router: Router
    var cfg: map<string, Config>
    var original: map<string, Weights>
    var primaryRecovering: map<string, bool>
    var prevHealthy: map<string, Prev>

    function View(name: string): Cluster
      requires name in cfg
      reads this, router
    {
      ViewAs(name, cfg[name])
    }

    /** The same under any configuration, for a name that may have none yet. */
    function ViewAs(name: string, config: Config): Cluster
      reads this, router
    {
      Cluster(config, Lookup(router.effectiveWeights, name), Lookup(original, name),
              name in primaryRecovering && primaryRecovering[name], Lookup(prevHealthy, name))
    }

    /** Nothing is different for the other clusters of the configuration. */
    twostate predicate OthersKept(name: string)
      reads this, router
    {
      cfg == old(cfg) && forall other :: other in cfg && other != name ==> View(other) == old(View(other))
    }

    constructor (r: Router, c: map<string, Config>)
      ensures router == r && cfg == c
      ensures original == map name | name in c && c[name].loadBalance :: c[name].weights
      ensures primaryRecovering == map[] && prevHealthy == map[]
    {
      router, cfg := r, c;
      original := map name | name in c && c[name].loadBalance :: c[name].weights;
      primaryRecovering, prevHealthy := map[], map[];
    }

    method HandleDown(name: string, primaryDown: bool, secondaryDown: bool)
      modifies router
      ensures OthersKept(name)
      ensures name in cfg ==>
        View(name) ==
        if cfg[name].loadBalance && (primaryDown || secondaryDown) then Shift(old(View(name)), primaryDown)
        else old(View(name))
      ensures name !in cfg ==> router.effectiveWeights == old(router.effectiveWeights)
    {
      if name !in cfg || !cfg[name].loadBalance {
        return;
      }
      if !primaryDown && !secondaryDown {
        return;
      }
      var newPrimW, newSecW;
      if primaryDown {
        newPrimW, newSecW := 0, 100;
      } else {
        newPrimW, newSecW := 100, 0;
      }
      router.SetEffectiveWeights(name, newPrimW, newSecW);
    }

    method HandleSecondaryUp(name: string)
      modifies router
      ensures OthersKept(name)
      ensures forall config :: ViewAs(name, config) == Restore(old(ViewAs(name, config)))
    {
      if name !in original {
        return;
      }
      router.SetEffectiveWeights(name, original[name].primary, original[name].secondary);
    }

    method HandlePrimaryUp(name: string, upSince: Option<int>, now: int)
      modifies router, this`primaryRecovering
      ensures OthersKept(name)
      ensures name in cfg ==>
        View(name) ==
        if cfg[name].loadBalance then PrimaryUp(old(View(name)), upSince, now) else old(View(name))
      ensures name !in cfg ==>
        router.effectiveWeights == old(router.effectiveWeights) && primaryRecovering == old(primaryRecovering)
    {
      if name !in cfg || !cfg[name].loadBalance {
        return;
      }
      var recoveryMinUptime := cfg[name].recoveryMinUptime;
      if recoveryMinUptime <= 0 {
        recoveryMinUptime := 120 * SECOND;
      }
      if upSince.None? || now - upSince.value >= recoveryMinUptime {
        if name !in original {
          return;
        }
        router.SetEffectiveWeights(name, original[name].primary, original[name].secondary);
        primaryRecovering := primaryRecovering[name := false];
      } else {
        primaryRecovering := primaryRecovering[name := true];
      }
    }

    method CheckPrimaryRecovery(name: string, upSince: Option<int>, now: int)
      modifies router, this`primaryRecovering
      ensures OthersKept(name)
      ensures name in cfg ==>
        View(name) ==
        if cfg[name].loadBalance then CheckRecovery(old(View(name)), upSince, now)
        else old(View(name)).(recovering := false)
      ensures name !in cfg ==> forall config ::
        ViewAs(name, config) == old(ViewAs(name, config)).(recovering := false)
    {
      if name !in cfg || !cfg[name].loadBalance {
        primaryRecovering := primaryRecovering[name := false];
        return;
      }
      var recoveryMinUptime := cfg[name].recoveryMinUptime;
      if recoveryMinUptime <= 0 {
        recoveryMinUptime := 120 * SECOND;
      }
      if upSince.None? || now - upSince.value >= recoveryMinUptime {
        if name !in original {
          primaryRecovering := primaryRecovering[name := false];
          return;
        }
        router.SetEffectiveWeights(name, original[name].primary, original[name].secondary);
        primaryRecovering := primaryRecovering[name := false];
      }
    }

    method HandleTransitions(name: string, prev: Prev, ch: Health, now: int)
      requires name in cfg && cfg[name].loadBalance
      modifies router, this`primaryRecovering
      ensures View(name) == Adjust(old(View(name)), prev, ch, now)
      ensures OthersKept(name)
    {
      ghost var c := View(name);
      var primaryWentDown := prev.primaryHealthy && !ch.primaryHealthy;
      var secondaryWentDown := prev.secondaryHealthy && !ch.secondaryHealthy;
      var primaryCameUp := !prev.primaryHealthy && ch.primaryHealthy;
      var secondaryCameUp := !prev.secondaryHealthy && ch.secondaryHealthy;
      if primaryWentDown || secondaryWentDown {
        HandleDown(name, primaryWentDown, secondaryWentDown);
        c := Shift(c, primaryWentDown);
      }
      assert View(name) == c;
      if secondaryCameUp {
        HandleSecondaryUp(name);
        c := Restore(c);
      }
      assert View(name) == c;
      if primaryCameUp {
        HandlePrimaryUp(name, ch.upSince, now);
        c := PrimaryUp(c, ch.upSince, now);
      }
      assert View(name) == c;
      if name in primaryRecovering && primaryRecovering[name] {
        CheckPrimaryRecovery(name, ch.upSince, now);
      }
    }

    /** The body of the tick's loop. */
    method TickCluster(name: string, ch: Health, now: int)
      modifies router, this`primaryRecovering, this`prevHealthy
      ensures name in cfg ==> View(name) == Tick(old(View(name)), ch, now)
      ensures OthersKept(name)
    {
      if name !in cfg || !cfg[name].loadBalance || !cfg[name].autoRebalance {
        return;
      }
      var nowHealthy := Prev(ch.primaryHealthy, ch.secondaryHealthy);
      if name !in prevHealthy {
        prevHealthy := prevHealthy[name := nowHealthy];
        return;
      }
      HandleTransitions(name, prevHealthy[name], ch, now);
      prevHealthy := prevHealthy[name := nowHealthy];
    }

    /** Each cluster with a health report takes its tick, in whatever order. */
    method TickAll(health: map<string, Health>, now: int)
      modifies router, this`primaryRecovering, this`prevHealthy
      ensures forall name :: name in cfg ==>
        View(name) == if name in health then Tick(old(View(name)), health[name], now) else old(View(name))
    {
      var rest := health.Keys;
      while rest != {}
        invariant rest <= health.Keys
        invariant forall name :: name in cfg ==>
          View(name) ==
            if name in health && name !in rest then Tick(old(View(name)), health[name], now) else old(View(name))
        decreases |rest|
      {
        var name :| name in rest;
        TickCluster(name, health[name], now);
        rest := rest - {name};
      }
    }

    method UpdateConfig(newCfg: map<string, Config>)
      modifies this`cfg, this`original
      ensures cfg == newCfg
      ensures forall name :: name in newCfg ==>
        View(name) == Reconfigure(old(ViewAs(name, newCfg[name])), newCfg[name])
    {
      cfg := newCfg;
      original := original + map name | name in newCfg && newCfg[name].loadBalance :: newCfg[name].weights;
    }

    method ResetAll()
      modifies router, this`primaryRecovering
      ensures forall name :: name in cfg ==> View(name) == ResetWeights(old(View(name)))
    {
      var rest := original.Keys;
      while rest != {}
        invariant rest <= original.Keys
        invariant forall name :: name in cfg ==>
          View(name) == if name in original && name !in rest then ResetWeights(old(View(name))) else old(View(name))
        decreases |rest|
      {
        var name :| name in rest;
        router.SetEffectiveWeights(name, original[name].primary, original[name].secondary);
        primaryRecovering := primaryRecovering[name := false];
        rest := rest - {name};
      }
    }
  }
}
