/** internal/failover/rebalance.go: weighted routing over two endpoints with fast
    failover and slow failback.  This module is the value-level specification: what
    one recorded success or failure does to the state.  Times and durations are
    nanoseconds; each recorded result comes with the one clock reading it uses. */
module LoadBalance {
  import opened SlidingWindow
  import opened Wire

  const SECOND := 1_000_000_000
  const DEFAULT_FAILURE_THRESHOLD := 3
  const DEFAULT_RECOVERY_THRESHOLD := 5
  const DEFAULT_RECOVERY_MIN_UPTIME := 120 * SECOND

  datatype Status = Up | Down | Recovering
  datatype Role = Primary | Secondary

  /** A validated cluster configuration: the weights are not negative. */
  datatype Config = Config(
    primary: string,
    secondary: string,
    primaryWeight: nat,
    secondaryWeight: nat,
    failureThreshold: int,
    recoveryThreshold: int,
    recoveryMinUptime: int,
    minTimeBetweenFailovers: int,
    maxFailovers: int,
    window: int)
  {
    function Addr(role: Role): string {
      if role.Primary? then primary else secondary
    }

    function Weight(role: Role): nat {
      if role.Primary? then primaryWeight else secondaryWeight
    }

    function FailuresNeeded(): (n: int)
      ensures n > 0
    {
      if failureThreshold <= 0 then DEFAULT_FAILURE_THRESHOLD else failureThreshold
    }

    function SuccessesNeeded(): (n: int)
      ensures n > 0
    {
      if recoveryThreshold <= 0 then DEFAULT_RECOVERY_THRESHOLD else recoveryThreshold
    }

    function UptimeNeeded(): (n: int)
      ensures n > 0
    {
      if recoveryMinUptime <= 0 then DEFAULT_RECOVERY_MIN_UPTIME else recoveryMinUptime
    }

    predicate HasBreaker() {
      maxFailovers > 0 && window > 0
    }
  }

  datatype Endpoint = Endpoint(
    addr: string,
    status: Status,
    upSince: int,
    successes: nat,
    failures: nat,
    originalWeight: nat,
    effectiveWeight: nat)

  datatype State = State(primary: Endpoint, secondary: Endpoint, history: seq<int>, lastFailoverAt: map<string, int>) {
    function Of(role: Role): Endpoint {
      if role.Primary? then primary else secondary
    }
  }

  function Fresh(c: Config, role: Role, now: int): Endpoint {
    Endpoint(c.Addr(role), Up, now, 0, 0, c.Weight(role), c.Weight(role))
  }

  function Initial(c: Config, now: int): State {
    State(Fresh(c, Primary, now), Fresh(c, Secondary, now), [], map[])
  }

  /** What a result recorded for one endpoint does to it and to the shared fields. */
  datatype Effect = Effect(endpoint: Endpoint, history: seq<int>, lastFailoverAt: map<string, int>)

  function Promote(c: Config, x: Effect, now: int): Effect {
    if && c.minTimeBetweenFailovers > 0 && x.endpoint.addr in x.lastFailoverAt
       && now - x.lastFailoverAt[x.endpoint.addr] < c.minTimeBetweenFailovers
    then x
    else
      var x := if c.HasBreaker() then x.(history := After(x.history, now - c.window)) else x;
      if c.HasBreaker() && |x.history| >= c.maxFailovers then x
      else x.(endpoint := x.endpoint.(status := Up, effectiveWeight := x.endpoint.originalWeight,
                                      failures := 0, successes := 0))
  }

  function Demote(c: Config, x: Effect, now: int): Effect {
    Effect(
      x.endpoint.(status := Down, effectiveWeight := 0, successes := 0),
      if c.maxFailovers > 0 then x.history + [now] else x.history,
      x.lastFailoverAt[x.endpoint.addr := now])
  }

  function OnSuccess(c: Config, x: Effect, now: int): Effect {
    var x := x.(endpoint := x.endpoint.(failures := 0, successes := x.endpoint.successes + 1));
    match x.endpoint.status
    case Down => x.(endpoint := x.endpoint.(status := Recovering, successes := 1, upSince := now))
    case Recovering =>
      if x.endpoint.successes >= c.SuccessesNeeded() && now - x.endpoint.upSince >= c.UptimeNeeded()
      then Promote(c, x, now)
      else x
    case Up => x
  }

  function OnFailure(c: Config, x: Effect, now: int): Effect {
    var x := x.(endpoint := x.endpoint.(failures := x.endpoint.failures + 1, successes := 0));
    match x.endpoint.status
    case Up => if x.endpoint.failures >= c.FailuresNeeded() then Demote(c, x, now) else x
    case Recovering => x.(endpoint := x.endpoint.(status := Down, effectiveWeight := 0, failures := 1))
    case Down => x.(endpoint := x.endpoint.(failures := 1))
  }

  datatype Event = Event(addr: string, ok: bool, at: int)

  /** The endpoint an address means; the primary comes first when both have the same. */
  function RoleOf(s: State, addr: string): Option<Role> {
    if addr == s.primary.addr then Some(Primary) else if addr == s.secondary.addr then Some(Secondary) else None
  }

  function Record(c: Config, s: State, e: Event): State {
    match RoleOf(s, e.addr)
    case Some(Primary) =>
      var x := Recorded(c, s, s.primary, e);
      State(x.endpoint, s.secondary, x.history, x.lastFailoverAt)
    case Some(Secondary) =>
      var x := Recorded(c, s, s.secondary, e);
      State(s.primary, x.endpoint, x.history, x.lastFailoverAt)
    case None => s
  }

  function Recorded(c: Config, s: State, endpoint: Endpoint, e: Event): Effect {
    var x := Effect(endpoint, s.history, s.lastFailoverAt);
    if e.ok then OnSuccess(c, x, e.at) else OnFailure(c, x, e.at)
  }

  /** Weighted choice: `random` is the number the random source yields. */
  function Choose(s: State, random: nat): Role {
    var bothDown := s.primary.effectiveWeight == 0 && s.secondary.effectiveWeight == 0;
    var pw := if bothDown then s.primary.originalWeight else s.primary.effectiveWeight;
    var sw := if bothDown then s.secondary.originalWeight else s.secondary.effectiveWeight;
    if pw + sw == 0 || random % (pw + sw) < pw then Primary else Secondary
  }

  // ------------------------------------------------------ the object that does it

  class EndpointState {
    var addr: string
    var status: Status
    var upSince: int
    var consecutiveSuccess: nat
    var consecutiveFailure: nat
    var originalWeight: nat
    var effectiveWeight: nat

    constructor (addr: string, weight: nat, now: int)
      ensures Value() == Endpoint(addr, Up, now, 0, 0, weight, weight)
    {
      this.addr, status, upSince := addr, Up, now;
      consecutiveSuccess, consecutiveFailure := 0, 0;
      originalWeight, effectiveWeight := weight, weight;
    }

    function Value(): Endpoint
      reads this
    {
      Endpoint(addr, status, upSince, consecutiveSuccess, consecutiveFailure, originalWeight, effectiveWeight)
    }
  }

  class Rebalancer {
    const config: Config
    const primary: EndpointState
    const secondary: EndpointState
    var failoverHistory: seq<int>
    var lastFailoverAt: map<string, int>

    ghost predicate Valid()
      reads this
    {
      primary != secondary
    }

    function Value(): State
      reads this, primary, secondary
    {
      State(primary.Value(), secondary.Value(), failoverHistory, lastFailoverAt)
    }

    /** The part of the state a result recorded for `ep` can change. */
    function Part(ep: EndpointState): Effect
      reads this, ep
    {
      Effect(ep.Value(), failoverHistory, lastFailoverAt)
    }

    constructor (c: Config, now: int)
      ensures Valid() && fresh(primary) && fresh(secondary)
      ensures config == c && Value() == Initial(c, now)
    {
      config := c;
      primary := new EndpointState(c.primary, c.primaryWeight, now);
      secondary := new EndpointState(c.secondary, c.secondaryWeight, now);
      failoverHistory, lastFailoverAt := [], map[];
    }

    /** Which of the two objects, if any, has this address. */
    method EndpointFor(addr: string) returns (ep: EndpointState?)
      requires Valid()
      ensures ep == primary <==> RoleOf(Value(), addr) == Some(Primary)
      ensures ep == secondary <==> RoleOf(Value(), addr) == Some(Secondary)
      ensures ep == null || ep == primary || ep == secondary
    {
      if primary.addr == addr {
        return primary;
      }
      if secondary.addr == addr {
        return secondary;
      }
      return null;
    }

    method PruneFailoverHistory(now: int)
      modifies this`failoverHistory
      ensures failoverHistory == After(old(failoverHistory), now - config.window)
    {
      var cutoff := now - config.window;
      var kept := [];
      for i := 0 to |failoverHistory|
        invariant failoverHistory == old(failoverHistory)
        invariant kept == After(failoverHistory[..i], cutoff)
      {
        assert failoverHistory[..i + 1][..i] == failoverHistory[..i];
        if failoverHistory[i] > cutoff {
          kept := kept + [failoverHistory[i]];
        }
      }
      assert failoverHistory[..|failoverHistory|] == failoverHistory;
      failoverHistory := kept;
    }

    method PromoteToUp(ep: EndpointState, now: int)
      modifies this, ep
      ensures Part(ep) == Promote(config, old(Part(ep)), now)
    {
      if config.minTimeBetweenFailovers > 0 {
        if ep.addr in lastFailoverAt {
          if now - lastFailoverAt[ep.addr] < config.minTimeBetweenFailovers {
            return;
          }
        }
      }
      if config.maxFailovers > 0 && config.window > 0 {
        PruneFailoverHistory(now);
        if |failoverHistory| >= config.maxFailovers {
          return;
        }
      }
      ep.status := Up;
      ep.effectiveWeight := ep.originalWeight;
      ep.consecutiveFailure := 0;
      ep.consecutiveSuccess := 0;
    }

    method DemoteToDown(ep: EndpointState, now: int)
      modifies this, ep
      ensures Part(ep) == Demote(config, old(Part(ep)), now)
    {
      ep.status := Down;
      ep.effectiveWeight := 0;
      ep.consecutiveSuccess := 0;
      lastFailoverAt := lastFailoverAt[ep.addr := now];
      if config.maxFailovers > 0 {
        failoverHistory := failoverHistory + [now];
      }
    }

    method RecordSuccess(addr: string, now: int)
      requires Valid()
      modifies this, primary, secondary
      ensures Value() == Record(config, old(Value()), Event(addr, true, now))
    {
      var ep := EndpointFor(addr);
      if ep == null {
        return;
      }
      ep.consecutiveFailure := 0;
      ep.consecutiveSuccess := ep.consecutiveSuccess + 1;
      match ep.status {
        case Down =>
          ep.status := Recovering;
          ep.consecutiveSuccess := 1;
          ep.upSince := now;
        case Recovering =>
          var uptime := now - ep.upSince;
          if ep.consecutiveSuccess >= config.SuccessesNeeded() && uptime >= config.UptimeNeeded() {
            PromoteToUp(ep, now);
          }
        case Up =>
      }
    }

    method RecordFailure(addr: string, now: int)
      requires Valid()
      modifies this, primary, secondary
      ensures Value() == Record(config, old(Value()), Event(addr, false, now))
    {
      var ep := EndpointFor(addr);
      if ep == null {
        return;
      }
      ep.consecutiveSuccess := 0;
      ep.consecutiveFailure := ep.consecutiveFailure + 1;
      match ep.status {
        case Up =>
          if ep.consecutiveFailure >= config.FailuresNeeded() {
            DemoteToDown(ep, now);
          }
        case Recovering =>
          ep.status := Down;
          ep.effectiveWeight := 0;
          ep.consecutiveSuccess := 0;
          ep.consecutiveFailure := 1;
        case Down =>
          ep.consecutiveFailure := 1;
      }
    }

    method SelectTarget(random: nat) returns (addr: string)
      ensures addr == Value().Of(Choose(Value(), random)).addr
    {
      var pw, sw := primary.effectiveWeight, secondary.effectiveWeight;
      if pw == 0 && sw == 0 {
        pw, sw := primary.originalWeight, secondary.originalWeight;
      }
      var total := pw + sw;
      if total == 0 {
        return primary.addr;
      }
      var roll := random % total;
      if roll < pw {
        return primary.addr;
      }
      return secondary.addr;
    }
  }
}
