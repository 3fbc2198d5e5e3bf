/** What holds of every run of the load-balance rebalancer: fast failover and slow
    failback happen exactly when the results recorded so far say so, routing avoids
    an endpoint that is not UP, and the circuit breaker bounds the demotions in
    every window. */
module LoadBalanceLaws {
  import opened Wire
  import opened LoadBalance
  import opened SlidingWindow

  // -------------------------------------------------------------------- histories

  /** The state after recording `events` in order, starting at `start`. */
  function Run(c: Config, start: int, events: seq<Event>): State {
    if events == [] then Initial(c, start)
    else Record(c, Run(c, start, events[..|events| - 1]), events[|events| - 1])
  }

  /** The clock does not go backwards. */
  predicate Timed(start: int, events: seq<Event>) {
    && (forall i :: 0 <= i < |events| ==> start <= events[i].at)
    && (forall i, j :: 0 <= i < j < |events| ==> events[i].at <= events[j].at)
  }

  function Now(start: int, events: seq<Event>): int {
    if events == [] then start else events[|events| - 1].at
  }

  /** Successes at an address since its last failure. */
  function Successes(events: seq<Event>, addr: string): nat {
    if events == [] then 0 else
    var before, e := Successes(events[..|events| - 1], addr), events[|events| - 1];
    if e.addr != addr then before else if e.ok then before + 1 else 0
  }

  /** When the first of them happened. */
  function Since(events: seq<Event>, addr: string): int {
    if events == [] then 0 else
    var before, e := events[..|events| - 1], events[|events| - 1];
    if e.addr == addr && e.ok && Successes(before, addr) == 0 then e.at else Since(before, addr)
  }

  /** Failures at an address since its last success. */
  function Failures(events: seq<Event>, addr: string): nat {
    if events == [] then 0 else
    var before, e := Failures(events[..|events| - 1], addr), events[|events| - 1];
    if e.addr != addr then before else if e.ok then 0 else before + 1
  }

  predicate Demoted(before: State, after: State, role: Role) {
    before.Of(role).status == Up && after.Of(role).status == Down
  }

  /** When endpoints went from UP to DOWN, in order. */
  function Demotions(c: Config, start: int, events: seq<Event>): seq<int> {
    if events == [] then [] else
    var past, e := events[..|events| - 1], events[|events| - 1];
    var before, after := Run(c, start, past), Run(c, start, events);
    AddIf(Demoted(before, after, Primary) || Demoted(before, after, Secondary), Demotions(c, start, past), e.at)
  }

  function LastDemotion(c: Config, start: int, events: seq<Event>, role: Role): Option<int> {
    if events == [] then None else
    var past, e := events[..|events| - 1], events[|events| - 1];
    if Demoted(Run(c, start, past), Run(c, start, events), role) then Some(e.at) else LastDemotion(c, start, past, role)
  }

  // ------------------------------------------------------- what each endpoint knows

  /** Two endpoints with one address share its results, and the primary gets them all. */
  predicate Heard(c: Config, role: Role) {
    role.Primary? || c.primary != c.secondary
  }

  /** What the results recorded so far say about an endpoint. */
  datatype Facts = Facts(successes: nat, since: int, failures: nat, lastDemotion: Option<int>)

  function FactsOf(c: Config, start: int, events: seq<Event>, role: Role): Facts {
    var addr := c.Addr(role);
    Facts(Successes(events, addr), Since(events, addr), Failures(events, addr), LastDemotion(c, start, events, role))
  }

  predicate Knows(c: Config, role: Role, ep: Endpoint, lastFailoverAt: map<string, int>, f: Facts) {
    && ep.addr == c.Addr(role) && ep.originalWeight == c.Weight(role)
    && ep.effectiveWeight == (if ep.status.Up? then c.Weight(role) else 0)
    && (!Heard(c, role) ==> ep.status.Up?)
    && (ep.status.Down? ==> f.successes == 0)
    && (ep.status.Recovering? ==> ep.successes == f.successes >= 1 && ep.upSince == f.since)
    && (ep.status.Up? && Heard(c, role) ==> ep.failures == f.failures < c.FailuresNeeded())
    && (Heard(c, role) ==> (ep.addr in lastFailoverAt <==> f.lastDemotion.Some?))
    && (Heard(c, role) && f.lastDemotion.Some? ==> lastFailoverAt[ep.addr] == f.lastDemotion.value)
  }

  predicate KnowsIn(c: Config, s: State, role: Role, f: Facts) {
    Knows(c, role, s.Of(role), s.lastFailoverAt, f)
  }

  /** The facts after one more result for the same address. */
  function Learn(f: Facts, e: Event, demoted: bool): Facts {
    Facts(
      if e.ok then f.successes + 1 else 0,
      if e.ok && f.successes == 0 then e.at else f.since,
      if e.ok then 0 else f.failures + 1,
      if demoted then Some(e.at) else f.lastDemotion)
  }

  lemma KnowsAfterResult(c: Config, role: Role, s: State, ep: Endpoint, e: Event, f: Facts)
    requires Knows(c, role, ep, s.lastFailoverAt, f) && Heard(c, role)
    ensures var x := Recorded(c, s, ep, e);
            Knows(c, role, x.endpoint, x.lastFailoverAt, Learn(f, e, ep.status.Up? && x.endpoint.status.Down?))
  {
  }

  /** A result changes the endpoint it is for and the shared fields, nothing else. */
  lemma OtherUntouched(c: Config, s: State, e: Event, role: Role)
    requires RoleOf(s, e.addr) != Some(role)
    ensures var s' := Record(c, s, e);
            && s'.Of(role) == s.Of(role)
            && (forall a :: a != e.addr ==> (a in s'.lastFailoverAt <==> a in s.lastFailoverAt))
            && (forall a :: a != e.addr && a in s.lastFailoverAt ==> s'.lastFailoverAt[a] == s.lastFailoverAt[a])
  {
  }

  /** The facts of a longer history. */
  lemma FactsStep(c: Config, start: int, past: seq<Event>, e: Event, role: Role)
    ensures var before, after := Run(c, start, past), Run(c, start, past + [e]);
            var demoted := Demoted(before, after, role);
            && after == Record(c, before, e)
            && Demotions(c, start, past + [e])
               == AddIf(Demoted(before, after, Primary) || Demoted(before, after, Secondary),
                        Demotions(c, start, past), e.at)
            && FactsOf(c, start, past + [e], role)
               == (if e.addr == c.Addr(role) then Learn(FactsOf(c, start, past, role), e, demoted)
                   else FactsOf(c, start, past, role).(lastDemotion :=
                     if demoted then Some(e.at) else LastDemotion(c, start, past, role)))
  {
    assert (past + [e])[..|past|] == past;
  }

  lemma KnowsStep(c: Config, s: State, e: Event, role: Role, f: Facts, g: Facts)
    requires KnowsIn(c, s, role, f)
    requires s.primary.addr == c.primary && s.secondary.addr == c.secondary
    requires var demoted := Demoted(s, Record(c, s, e), role);
             g == if e.addr == c.Addr(role) then Learn(f, e, demoted)
                  else f.(lastDemotion := if demoted then Some(e.at) else f.lastDemotion)
    ensures KnowsIn(c, Record(c, s, e), role, g)
  {
    if RoleOf(s, e.addr) == Some(role) {
      KnowsAfterResult(c, role, s, s.Of(role), e, f);
    } else {
      OtherUntouched(c, s, e, role);
    }
  }

  lemma {:induction false} AlwaysKnows(c: Config, start: int, events: seq<Event>, role: Role)
    ensures KnowsIn(c, Run(c, start, events), role, FactsOf(c, start, events, role))
  {
    if events != [] {
      var past, e := events[..|events| - 1], events[|events| - 1];
      assert events == past + [e];
      AlwaysKnows(c, start, past, Primary);
      AlwaysKnows(c, start, past, Secondary);
      FactsStep(c, start, past, e, role);
      KnowsStep(c, Run(c, start, past), e, role, FactsOf(c, start, past, role), FactsOf(c, start, events, role));
    }
  }

  // ------------------------------------------------------ what the breaker remembers

  /** The history holds every demotion later than some cutoff outside the window. */
  ghost predicate Remembers(c: Config, history: seq<int>, log: seq<int>, now: int) {
    c.HasBreaker() ==> exists cutoff :: cutoff <= now - c.window && history == After(log, cutoff)
  }

  lemma RemembersPruned(c: Config, history: seq<int>, log: seq<int>, now: int, later: int)
    requires Remembers(c, history, log, now) && now <= later && c.HasBreaker()
    ensures After(history, later - c.window) == After(log, later - c.window)
  {
    var cutoff :| cutoff <= now - c.window && history == After(log, cutoff);
    AfterAfter(log, cutoff, later - c.window);
  }

  lemma RemembersDemotion(c: Config, history: seq<int>, log: seq<int>, now: int, later: int)
    requires Remembers(c, history, log, now) && now <= later
    ensures c.maxFailovers > 0 ==> Remembers(c, history + [later], log + [later], later)
    ensures Remembers(c, history, log, later)
  {
    if c.HasBreaker() {
      var cutoff :| cutoff <= now - c.window && history == After(log, cutoff);
      AfterSnoc(log, later, cutoff);
    }
  }

  lemma RemembersSuccess(c: Config, x: Effect, now: int, log: seq<int>, later: int)
    requires Remembers(c, x.history, log, now) && now <= later
    ensures Remembers(c, OnSuccess(c, x, later).history, log, later)
  {
    RemembersDemotion(c, x.history, log, now, later);
    if c.HasBreaker() {
      RemembersPruned(c, x.history, log, now, later);
    }
  }

  lemma RemembersResult(c: Config, s: State, ep: Endpoint, e: Event, log: seq<int>, now: int)
    requires Remembers(c, s.history, log, now) && now <= e.at
    ensures var x := Recorded(c, s, ep, e);
            Remembers(c, x.history, AddIf(ep.status.Up? && x.endpoint.status.Down?, log, e.at), e.at)
  {
    if e.ok {
      RemembersSuccess(c, Effect(ep, s.history, s.lastFailoverAt), now, log, e.at);
    } else {
      RemembersDemotion(c, s.history, log, now, e.at);
    }
  }

  lemma TimedPrefix(start: int, events: seq<Event>)
    requires Timed(start, events) && events != []
    ensures Timed(start, events[..|events| - 1])
    ensures Now(start, events[..|events| - 1]) <= events[|events| - 1].at
  {
  }

  lemma {:induction false} AlwaysRemembers(c: Config, start: int, events: seq<Event>)
    requires Timed(start, events)
    ensures Remembers(c, Run(c, start, events).history, Demotions(c, start, events), Now(start, events))
  {
    if events == [] {
      assert After([], start - c.window) == [];
    } else {
      var past, e := events[..|events| - 1], events[|events| - 1];
      assert events == past + [e];
      TimedPrefix(start, events);
      AlwaysRemembers(c, start, past);
      FactsStep(c, start, past, e, Primary);
      var s, log := Run(c, start, past), Demotions(c, start, past);
      match RoleOf(s, e.addr) {
        case Some(role) =>
          RemembersResult(c, s, s.Of(role), e, log, Now(start, past));
        case None =>
          RemembersDemotion(c, s.history, log, Now(start, past), e.at);
      }
    }
  }

  // ------------------------------------------------------------- failover and failback

  /** When a success recorded at `now` brings a non-UP endpoint back; an unset threshold
      is 5 successes, an unset uptime 120 seconds. */
  predicate MayReturn(c: Config, f: Facts, log: seq<int>, now: int) {
    && f.successes >= 2 && f.successes >= (if c.recoveryThreshold <= 0 then 5 else c.recoveryThreshold)
    && now - f.since >= (if c.recoveryMinUptime <= 0 then 120_000_000_000 else c.recoveryMinUptime)
    && (c.minTimeBetweenFailovers > 0 && f.lastDemotion.Some? ==>
          now - f.lastDemotion.value >= c.minTimeBetweenFailovers)
    && (c.maxFailovers > 0 && c.window > 0 ==> |After(log, now - c.window)| < c.maxFailovers)
  }

  lemma FailbackResult(c: Config, role: Role, s: State, e: Event, f: Facts, log: seq<int>, now: int)
    requires KnowsIn(c, s, role, f) && Heard(c, role) && s.Of(role).status != Up
    requires Remembers(c, s.history, log, now) && now <= e.at
    ensures Recorded(c, s, s.Of(role), e).endpoint.status == Up <==> e.ok && MayReturn(c, Learn(f, e, false), log, e.at)
  {
    if c.HasBreaker() {
      RemembersPruned(c, s.history, log, now, e.at);
    }
  }

  /** Slow failback, exactly: an endpoint that is not UP comes UP with the next result
      if and only if that result is a success of its own, the successes since its last
      failure are at least two and at least recovery_threshold and have lasted
      recovery_min_uptime, its last demotion is min_time_between_failovers ago, and
      the window holds fewer demotions, of both endpoints, than the breaker allows. */
  lemma {:induction false} FailbackExactly(c: Config, start: int, past: seq<Event>, e: Event, role: Role)
    requires Timed(start, past + [e])
    requires Run(c, start, past).Of(role).status != Up
    ensures Run(c, start, past + [e]).Of(role).status == Up
       <==> && e.ok && e.addr == c.Addr(role)
            && MayReturn(c, FactsOf(c, start, past + [e], role), Demotions(c, start, past), e.at)
  {
    var s, f := Run(c, start, past), FactsOf(c, start, past, role);
    assert (past + [e])[..|past|] == past;
    TimedPrefix(start, past + [e]);
    AlwaysKnows(c, start, past, Primary);
    AlwaysKnows(c, start, past, Secondary);
    FactsStep(c, start, past, e, role);
    AlwaysRemembers(c, start, past);
    if RoleOf(s, e.addr) == Some(role) {
      FailbackResult(c, role, s, e, f, Demotions(c, start, past), Now(start, past));
    } else {
      OtherUntouched(c, s, e, role);
    }
  }

  /** Fast failover, exactly: an UP endpoint leaves UP with the next result if and only
      if that is a failure of its own and makes failure_threshold of them in a row; it
      is then DOWN.  The secondary has no results of its own when it shares the
      primary's address, and stays UP. */
  lemma FailoverExactly(c: Config, start: int, past: seq<Event>, e: Event, role: Role)
    requires Run(c, start, past).Of(role).status == Up
    ensures Run(c, start, past + [e]).Of(role).status != Up
       <==> && Heard(c, role) && !e.ok && e.addr == c.Addr(role)
            && Failures(past + [e], c.Addr(role)) == (if c.failureThreshold <= 0 then 3 else c.failureThreshold)
    ensures Run(c, start, past + [e]).Of(role).status != Recovering
  {
    var s := Run(c, start, past);
    AlwaysKnows(c, start, past, Primary);
    AlwaysKnows(c, start, past, Secondary);
    FactsStep(c, start, past, e, role);
    if RoleOf(s, e.addr) != Some(role) {
      OtherUntouched(c, s, e, role);
    }
  }

  // -------------------------------------------------------------------------- routing

  function Other(role: Role): Role {
    if role.Primary? then Secondary else Primary
  }

  /** After any run, exactly: with one endpoint UP and the other not, all traffic goes to
      the UP one if it has a weight, and otherwise to the one that is not UP, unless
      neither has a weight and the UP one is the primary; with both UP, or neither, the
      primary is chosen for the random numbers below its configured weight, modulo the
      sum of both weights. */
  lemma RoutingAvoidsDown(c: Config, start: int, events: seq<Event>, role: Role, random: nat)
    ensures var s := Run(c, start, events);
            && (s.Of(role).status.Up? && !s.Of(Other(role)).status.Up? ==>
                  (Choose(s, random) == role
                   <==> c.Weight(role) > 0 || (role.Primary? && c.Weight(Other(role)) == 0)))
            && (s.primary.status.Up? == s.secondary.status.Up? ==>
                  (Choose(s, random) == Primary
                   <==> || c.primaryWeight + c.secondaryWeight == 0
                        || random % (c.primaryWeight + c.secondaryWeight) < c.primaryWeight))
  {
    AlwaysKnows(c, start, events, Primary);
    AlwaysKnows(c, start, events, Secondary);
    var s := Run(c, start, events);
    if s.primary.status.Up? == s.secondary.status.Up? {
      ConfiguredChoice(c, s, random);
    }
  }

  lemma ConfiguredChoice(c: Config, s: State, random: nat)
    requires forall role :: s.Of(role).originalWeight == c.Weight(role)
    requires forall role ::
      s.Of(role).effectiveWeight == if s.Of(role).status.Up? then c.Weight(role) else 0
    requires s.primary.status.Up? == s.secondary.status.Up?
    ensures Choose(s, random) == Primary
       <==> || c.primaryWeight + c.secondaryWeight == 0
            || random % (c.primaryWeight + c.secondaryWeight) < c.primaryWeight
  {
    assert s.Of(Primary) == s.primary && s.Of(Secondary) == s.secondary;
  }

  /** How many of `n` consecutive random numbers choose the primary. */
  function PrimaryChoices(s: State, from: nat, n: nat): nat {
    if n == 0 then 0
    else PrimaryChoices(s, from, n - 1) + (if Choose(s, from + n - 1) == Primary then 1 else 0)
  }

  /** How many of `n` consecutive numbers have a remainder below `p`. */
  function Below(from: nat, n: nat, p: nat, m: nat): nat
    requires m > 0
  {
    if n == 0 then 0 else Below(from, n - 1, p, m) + (if (from + n - 1) % m < p then 1 else 0)
  }

  lemma {:induction false} BelowFromZero(n: nat, p: nat, m: nat)
    requires m > 0 && n <= m && p <= m
    ensures Below(0, n, p, m) == if n < p then n else p
  {
    if n > 0 {
      BelowFromZero(n - 1, p, m);
      RemainderIs(n - 1, m, 0, n - 1);
    }
  }

  lemma {:induction false} BelowShift(from: nat, n: nat, p: nat, m: nat)
    requires m > 0
    ensures Below(from + 1, n, p, m) + (if from % m < p then 1 else 0)
         == Below(from, n, p, m) + (if (from + n) % m < p then 1 else 0)
  {
    if n > 0 {
      BelowShift(from, n - 1, p, m);
    }
  }

  lemma NoMultiple(k: int, m: int)
    requires m > 0 && -m < k * m < m
    ensures k == 0
  {
    assert k >= 1 ==> k * m >= m;
    assert k <= -1 ==> k * m <= -m;
  }

  lemma RemainderIs(x: nat, m: nat, q: int, r: nat)
    requires m > 0 && r < m && x == q * m + r
    ensures x % m == r
  {
    var k: int := x / m - q;
    assert k * m == x / m * m - q * m;
    assert x == x / m * m + x % m;
    NoMultiple(k, m);
  }

  lemma OnceAround(from: nat, m: nat)
    requires m > 0
    ensures (from + m) % m == from % m
  {
    var q: int, r: int := from / m, from % m;
    assert from == q * m + r;
    assert (q + 1) * m == q * m + m;
    RemainderIs(from + m, m, q + 1, r);
  }

  lemma {:induction false} BelowInARow(from: nat, p: nat, m: nat)
    requires m > 0 && p <= m
    ensures Below(from, m, p, m) == p
  {
    if from == 0 {
      BelowFromZero(m, p, m);
    } else {
      BelowInARow(from - 1, p, m);
      BelowShift(from - 1, m, p, m);
      OnceAround(from - 1, m);
    }
  }

  /** So the weights are the shares: of any primaryWeight + secondaryWeight consecutive
      random numbers exactly primaryWeight choose the primary. */
  lemma WeightsAreShares(c: Config, start: int, events: seq<Event>, from: nat)
    requires c.primaryWeight + c.secondaryWeight > 0
    requires var s := Run(c, start, events); s.primary.status.Up? == s.secondary.status.Up?
    ensures PrimaryChoices(Run(c, start, events), from, c.primaryWeight + c.secondaryWeight) == c.primaryWeight
  {
    var total := c.primaryWeight + c.secondaryWeight;
    ChoicesBelow(c, start, events, from, total);
    BelowInARow(from, c.primaryWeight, total);
  }

  lemma {:induction false} ChoicesBelow(c: Config, start: int, events: seq<Event>, from: nat, n: nat)
    requires c.primaryWeight + c.secondaryWeight > 0
    requires var s := Run(c, start, events); s.primary.status.Up? == s.secondary.status.Up?
    ensures PrimaryChoices(Run(c, start, events), from, n)
         == Below(from, n, c.primaryWeight, c.primaryWeight + c.secondaryWeight)
  {
    if n > 0 {
      ChoicesBelow(c, start, events, from, n - 1);
      RoutingAvoidsDown(c, start, events, Primary, from + n - 1);
    }
  }

  // ------------------------------------------------------------------ circuit breaker

  function UpCount(s: State): nat {
    (if s.primary.status.Up? then 1 else 0) + (if s.secondary.status.Up? then 1 else 0)
  }

  lemma PromotionNeedsRoom(c: Config, s: State, ep: Endpoint, e: Event)
    requires c.HasBreaker() && ep.status != Up && Recorded(c, s, ep, e).endpoint.status == Up
    ensures |After(s.history, e.at - c.window)| < c.maxFailovers
  {
  }

  /** With both endpoints UP, the window has room for two more demotions; with one
      UP, for one more. */
  ghost predicate Roomy(max: nat, window: int, up: nat, log: seq<int>, now: int) {
    && Sorted(log) && (log != [] ==> log[|log| - 1] <= now)
    && (up >= 1 && |log| > max ==> log[|log| - 1 - max] <= now - window)
    && (up == 2 && |log| >= max > 0 ==> log[|log| - max] <= now - window)
    && Spaced(log, max + 1, window)
  }

  lemma RoomyLater(max: nat, window: int, up: nat, up': nat, log: seq<int>, now: int, later: int)
    requires Roomy(max, window, up, log, now) && now <= later && up' <= up <= 2
    ensures Roomy(max, window, up', log, later)
  {
  }

  lemma RoomyDemotion(max: nat, window: int, up: nat, log: seq<int>, now: int, later: int)
    requires Roomy(max, window, up, log, now) && now <= later && 1 <= up <= 2 && (up == 2 ==> max > 0)
    ensures Roomy(max, window, up - 1, log + [later], later)
  {
    var log' := log + [later];
    forall i, j | 0 <= i < j < |log'| && j == i + max + 1
      ensures log'[j] - log'[i] >= window
    {
      if j < |log| {
        assert log[j] - log[i] >= window;
      } else {
        assert i == |log| - 1 - max;
      }
    }
  }

  lemma RoomyPromotion(max: nat, window: int, up: nat, log: seq<int>, now: int, later: int)
    requires Roomy(max, window, up, log, now) && now <= later && up <= 1
    requires |After(log, later - window)| <= max && (up == 1 ==> |After(log, later - window)| < max)
    ensures Roomy(max, window, up + 1, log, later)
  {
    if |log| > max {
      FewAfter(log, later - window, max + 1);
    }
    if up == 1 && |log| >= max {
      FewAfter(log, later - window, max);
    }
  }

  /** One step changes the number of UP endpoints by at most one, down when it demotes. */
  lemma StepShape(c: Config, s: State, e: Event)
    ensures var s' := Record(c, s, e);
            var demoted := Demoted(s, s', Primary) || Demoted(s, s', Secondary);
            && (demoted ==> UpCount(s') == UpCount(s) - 1)
            && (!demoted && UpCount(s') != UpCount(s) ==>
                  && UpCount(s') == UpCount(s) + 1
                  && RoleOf(s, e.addr).Some?
                  && s.Of(RoleOf(s, e.addr).value).status != Up
                  && Recorded(c, s, s.Of(RoleOf(s, e.addr).value), e).endpoint.status == Up)
  {
    match RoleOf(s, e.addr) {
      case None =>
      case Some(role) =>
        if s.Of(role).status.Up? {
          UpStaysUpOrFalls(c, s, s.Of(role), e);
        }
    }
  }

  lemma RoomChange(
      max: nat, window: int, up: nat, up': nat, demoted: bool, log: seq<int>, now: int, later: int)
    requires Roomy(max, window, up, log, now) && now <= later && up <= 2 && up' <= 2 && (up == 2 ==> max > 0)
    requires demoted ==> up' == up - 1
    requires !demoted && up' != up ==>
      up' == up + 1 && |After(log, later - window)| <= max && (up == 1 ==> |After(log, later - window)| < max)
    ensures Roomy(max, window, up', AddIf(demoted, log, later), later)
  {
    if demoted {
      RoomyDemotion(max, window, up, log, now, later);
    } else if up' == up {
      RoomyLater(max, window, up, up, log, now, later);
    } else {
      RoomyPromotion(max, window, up, log, now, later);
    }
  }

  /** `spare` endpoints are never demoted: none, or the secondary when it shares the
      primary's address. */
  lemma RoomStep(c: Config, s: State, e: Event, log: seq<int>, now: int, spare: nat)
    requires c.HasBreaker() && now <= e.at && Remembers(c, s.history, log, now)
    requires spare <= 1 && spare <= UpCount(s) && spare <= UpCount(Record(c, s, e))
    requires Roomy(c.maxFailovers - spare, c.window, UpCount(s) - spare, log, now)
    ensures var s' := Record(c, s, e);
            var demoted := Demoted(s, s', Primary) || Demoted(s, s', Secondary);
            Roomy(c.maxFailovers - spare, c.window, UpCount(s') - spare, AddIf(demoted, log, e.at), e.at)
  {
    var s' := Record(c, s, e);
    var demoted := Demoted(s, s', Primary) || Demoted(s, s', Secondary);
    StepShape(c, s, e);
    if !demoted && UpCount(s') != UpCount(s) {
      PromotionNeedsRoom(c, s, s.Of(RoleOf(s, e.addr).value), e);
      RemembersPruned(c, s.history, log, now, e.at);
    }
    RoomChange(c.maxFailovers - spare, c.window, UpCount(s) - spare, UpCount(s') - spare, demoted, log, now, e.at);
  }

  lemma UpStaysUpOrFalls(c: Config, s: State, ep: Endpoint, e: Event)
    requires ep.status.Up?
    ensures !Recorded(c, s, ep, e).endpoint.status.Recovering?
  {
  }

  function Spare(c: Config): nat {
    if c.primary == c.secondary then 1 else 0
  }

  lemma SpareIsUp(c: Config, start: int, events: seq<Event>)
    ensures Spare(c) <= UpCount(Run(c, start, events))
  {
    AlwaysKnows(c, start, events, Secondary);
  }

  /** Every window has room after a run. */
  ghost predicate HasRoom(c: Config, s: State, log: seq<int>, now: int) {
    && c.HasBreaker() && Spare(c) <= UpCount(s)
    && Roomy(c.maxFailovers - Spare(c), c.window, UpCount(s) - Spare(c), log, now)
  }

  lemma RoomExtends(c: Config, s: State, e: Event, log: seq<int>, now: int)
    requires HasRoom(c, s, log, now) && now <= e.at && Remembers(c, s.history, log, now)
    requires Spare(c) <= UpCount(Record(c, s, e))
    ensures var s' := Record(c, s, e);
            HasRoom(c, s', AddIf(Demoted(s, s', Primary) || Demoted(s, s', Secondary), log, e.at), e.at)
  {
    RoomStep(c, s, e, log, now, Spare(c));
  }

  lemma {:induction false} AlwaysRoom(c: Config, start: int, events: seq<Event>)
    requires Timed(start, events) && c.HasBreaker()
    ensures HasRoom(c, Run(c, start, events), Demotions(c, start, events), Now(start, events))
  {
    if events != [] {
      var past, e := events[..|events| - 1], events[|events| - 1];
      assert events == past + [e];
      TimedPrefix(start, events);
      AlwaysRoom(c, start, past);
      AlwaysRemembers(c, start, past);
      FactsStep(c, start, past, e, Primary);
      SpareIsUp(c, start, events);
      RoomExtends(c, Run(c, start, past), e, Demotions(c, start, past), Now(start, past));
    }
  }

  lemma RoomBounds(c: Config, s: State, log: seq<int>, now: int, from: int)
    requires HasRoom(c, s, log, now)
    ensures Within(log, from, from + c.window) <= c.maxFailovers + 1 - Spare(c)
  {
    SpacedBound(log, c.maxFailovers + 1 - Spare(c), c.window, from);
  }

  /** In any run, every window of length circuit_breaker_window holds at most
      circuit_breaker_max_failovers + 1 demotions, over both endpoints; only
      circuit_breaker_max_failovers when both have one address. */
  lemma BreakerBoundsEveryWindow(c: Config, start: int, events: seq<Event>, from: int)
    requires Timed(start, events) && c.HasBreaker()
    ensures Within(Demotions(c, start, events), from, from + c.window) <= c.maxFailovers + 1 - Spare(c)
  {
    AlwaysRoom(c, start, events);
    RoomBounds(c, Run(c, start, events), Demotions(c, start, events), Now(start, events), from);
  }

  // ------------------------------------------------------------- the bound is reached

  predicate Rested(c: Config, start: int, events: seq<Event>, role: Role) {
    Run(c, start, events).Of(role).status == Up && Failures(events, c.Addr(role)) == 0
  }

  lemma TimedSnoc(start: int, past: seq<Event>, e: Event)
    requires Timed(start, past) && Now(start, past) <= e.at
    ensures Timed(start, past + [e])
  {
  }

  /** An endpoint that was UP, after `n` failures in a row at `t`; `log` are the demotions
      before them, and the other endpoint has rested if it `rests`. */
  predicate Fails(c: Config, start: int, events: seq<Event>, role: Role, t: int, n: nat, log: seq<int>, rests: bool) {
    && Timed(start, events) && Now(start, events) <= t
    && Failures(events, c.Addr(role)) == n
    && Run(c, start, events).Of(role).status == (if n < c.FailuresNeeded() then Up else Down)
    && (n == c.FailuresNeeded() ==> LastDemotion(c, start, events, role) == Some(t))
    && Demotions(c, start, events) == AddIf(n == c.FailuresNeeded(), log, t)
    && (rests ==> Rested(c, start, events, Other(role)))
  }

  lemma RestKept(c: Config, start: int, before: seq<Event>, e: Event, role: Role)
    requires c.primary != c.secondary && e.addr == c.Addr(role)
    ensures Run(c, start, before + [e]).Of(Other(role)) == Run(c, start, before).Of(Other(role))
    ensures Failures(before + [e], c.Addr(Other(role))) == Failures(before, c.Addr(Other(role)))
  {
    AlwaysKnows(c, start, before, Primary);
    AlwaysKnows(c, start, before, Secondary);
    FactsStep(c, start, before, e, Other(role));
    OtherUntouched(c, Run(c, start, before), e, Other(role));
  }

  lemma FailureFacts(c: Config, start: int, before: seq<Event>, role: Role, e: Event)
    requires c.primary != c.secondary && !e.ok && e.addr == c.Addr(role)
    requires Run(c, start, before).Of(role).status == Up
    ensures var n, after := Failures(before, c.Addr(role)) + 1, before + [e];
            && Failures(after, c.Addr(role)) == n
            && Run(c, start, after).Of(role).status == (if n == c.FailuresNeeded() then Down else Up)
            && (n == c.FailuresNeeded() ==> LastDemotion(c, start, after, role) == Some(e.at))
            && Demotions(c, start, after) == AddIf(n == c.FailuresNeeded(), Demotions(c, start, before), e.at)
  {
    RestKept(c, start, before, e, role);
    FactsStep(c, start, before, e, role);
    FailoverExactly(c, start, before, e, role);
  }

  lemma FailsOnce(c: Config, start: int, before: seq<Event>, role: Role, t: int, n: nat, log: seq<int>, rests: bool)
    requires c.primary != c.secondary && n < c.FailuresNeeded() && Fails(c, start, before, role, t, n, log, rests)
    ensures Fails(c, start, before + [Event(c.Addr(role), false, t)], role, t, n + 1, log, rests)
  {
    var e := Event(c.Addr(role), false, t);
    TimedSnoc(start, before, e);
    RestKept(c, start, before, e, role);
    FailureFacts(c, start, before, role, e);
  }

  /** failure_threshold failures in a row demote a rested endpoint once, and no other. */
  lemma {:induction false} FailuresDemote(
      c: Config, start: int, past: seq<Event>, role: Role, t: int, n: nat, log: seq<int>, rests: bool)
    returns (events: seq<Event>)
    requires c.primary != c.secondary && n <= c.FailuresNeeded() && Fails(c, start, past, role, t, 0, log, rests)
    ensures Fails(c, start, events, role, t, n, log, rests)
  {
    if n == 0 {
      events := past;
    } else {
      var before := FailuresDemote(c, start, past, role, t, n - 1, log, rests);
      FailsOnce(c, start, before, role, t, n - 1, log, rests);
      events := before + [Event(c.Addr(role), false, t)];
    }
  }

  /** An endpoint that is not UP after `n` successes, all at `t`, since its demotion then,
      the last of the demotions in `log`; the other has rested. */
  predicate Waits(c: Config, start: int, events: seq<Event>, role: Role, t: int, n: nat, log: seq<int>) {
    && Timed(start, events) && Now(start, events) <= t
    && Run(c, start, events).Of(role).status != Up
    && Successes(events, c.Addr(role)) == n && (n > 0 ==> Since(events, c.Addr(role)) == t)
    && LastDemotion(c, start, events, role) == Some(t) && Demotions(c, start, events) == log
    && Rested(c, start, events, Other(role))
  }

  lemma SuccessFacts(c: Config, start: int, before: seq<Event>, role: Role, e: Event)
    requires c.primary != c.secondary && e.ok && e.addr == c.Addr(role)
    requires Run(c, start, before).Of(role).status != Up
    ensures FactsOf(c, start, before + [e], role) == Learn(FactsOf(c, start, before, role), e, false)
    ensures Demotions(c, start, before + [e]) == Demotions(c, start, before)
  {
    RestKept(c, start, before, e, role);
    FactsStep(c, start, before, e, role);
  }

  lemma WaitsOn(c: Config, start: int, before: seq<Event>, role: Role, t: int, n: nat, log: seq<int>)
    requires c.primary != c.secondary && Waits(c, start, before, role, t, n, log)
    ensures Waits(c, start, before + [Event(c.Addr(role), true, t)], role, t, n + 1, log)
  {
    var e := Event(c.Addr(role), true, t);
    TimedSnoc(start, before, e);
    RestKept(c, start, before, e, role);
    SuccessFacts(c, start, before, role, e);
    FailbackExactly(c, start, before, e, role);
  }

  /** Successes all at one time do not bring it back. */
  lemma {:induction false} SuccessesWait(
      c: Config, start: int, past: seq<Event>, role: Role, t: int, n: nat, log: seq<int>)
    returns (events: seq<Event>)
    requires c.primary != c.secondary && Waits(c, start, past, role, t, 0, log)
    ensures Waits(c, start, events, role, t, n, log)
  {
    if n == 0 {
      events := past;
    } else {
      var before := SuccessesWait(c, start, past, role, t, n - 1, log);
      WaitsOn(c, start, before, role, t, n - 1, log);
      events := before + [Event(c.Addr(role), true, t)];
    }
  }

  lemma {:induction false} AfterAtMost(times: seq<int>, cutoff: int)
    ensures |After(times, cutoff)| <= |times|
  {
    if times != [] {
      AfterAtMost(times[..|times| - 1], cutoff);
    }
  }

  /** How long a demoted endpoint must wait at least. */
  function RecoveryTime(c: Config): (t: int)
    ensures t > 0
  {
    if c.minTimeBetweenFailovers > c.UptimeNeeded() then c.minTimeBetweenFailovers else c.UptimeNeeded()
  }

  /** Both endpoints rested at `now`, after the demotions in `log`. */
  predicate BothRested(c: Config, start: int, events: seq<Event>, log: seq<int>, now: int) {
    && Timed(start, events) && Now(start, events) <= now && Demotions(c, start, events) == log
    && Rested(c, start, events, Primary) && Rested(c, start, events, Secondary)
  }

  lemma TimeIsUp(c: Config, f: Facts, log: seq<int>, t: int, now: int)
    requires f.successes == c.SuccessesNeeded() + 1 && f.since == t && f.lastDemotion == Some(t)
    requires now == t + RecoveryTime(c) && c.HasBreaker() && |log| < c.maxFailovers
    ensures MayReturn(c, f, log, now)
  {
    AfterAtMost(log, now - c.window);
  }

  /** One more success when the time is up does, while the breaker has counted fewer
      demotions than its maximum. */
  lemma SuccessReturns(c: Config, start: int, waiting: seq<Event>, t: int, log: seq<int>) returns (events: seq<Event>)
    requires c.primary != c.secondary && c.HasBreaker() && |log| < c.maxFailovers
    requires Waits(c, start, waiting, Primary, t, c.SuccessesNeeded(), log)
    ensures BothRested(c, start, events, log, t + RecoveryTime(c))
  {
    var e := Event(c.primary, true, t + RecoveryTime(c));
    TimedSnoc(start, waiting, e);
    RestKept(c, start, waiting, e, Primary);
    SuccessFacts(c, start, waiting, Primary, e);
    TimeIsUp(c, FactsOf(c, start, waiting + [e], Primary), log, t, e.at);
    FailbackExactly(c, start, waiting, e, Primary);
    events := waiting + [e];
  }

  lemma RestedFails(c: Config, start: int, events: seq<Event>, log: seq<int>, t: int)
    requires BothRested(c, start, events, log, t)
    ensures Fails(c, start, events, Primary, t, 0, log, true)
  {
  }

  lemma FailedWaits(c: Config, start: int, events: seq<Event>, t: int, log: seq<int>)
    requires Fails(c, start, events, Primary, t, c.FailuresNeeded(), log, true)
    ensures Waits(c, start, events, Primary, t, 0, log + [t])
  {
    AlwaysKnows(c, start, events, Primary);
  }

  /** The primary goes down and comes back, and the secondary stays UP. */
  lemma OneRound(c: Config, start: int, past: seq<Event>, log: seq<int>, t: int) returns (events: seq<Event>)
    requires c.primary != c.secondary && c.HasBreaker() && |log| + 1 < c.maxFailovers
    requires BothRested(c, start, past, log, t)
    ensures BothRested(c, start, events, log + [t], t + RecoveryTime(c))
  {
    RestedFails(c, start, past, log, t);
    var failed := FailuresDemote(c, start, past, Primary, t, c.FailuresNeeded(), log, true);
    FailedWaits(c, start, failed, t, log);
    var waiting := SuccessesWait(c, start, failed, Primary, t, c.SuccessesNeeded(), log + [t]);
    events := SuccessReturns(c, start, waiting, t, log + [t]);
  }

  /** The time of the round after `k` others, each taking `u`. */
  function Clock(start: int, u: int, k: nat): int {
    if k == 0 then start else Clock(start, u, k - 1) + u
  }

  lemma {:induction false} ClockIs(start: int, u: int, k: nat)
    ensures Clock(start, u, k) == start + k * u
  {
    if k > 0 {
      ClockIs(start, u, k - 1);
      assert (k - 1) * u + u == k * u;
    }
  }

  function Rounds(start: int, u: int, k: nat): seq<int> {
    if k == 0 then [] else Rounds(start, u, k - 1) + [Clock(start, u, k - 1)]
  }

  lemma {:induction false} RoundsWithin(start: int, u: int, k: nat, window: int)
    requires u >= 0 && Clock(start, u, k) < start + window
    ensures |Rounds(start, u, k)| == k && Within(Rounds(start, u, k), start, start + window) == k
    ensures Clock(start, u, k) >= start
  {
    if k > 0 {
      RoundsWithin(start, u, k - 1, window);
      WithinSnoc(Rounds(start, u, k - 1), Clock(start, u, k - 1), start, start + window);
    }
  }

  lemma {:induction false} ManyRounds(c: Config, start: int, k: nat) returns (events: seq<Event>)
    requires c.primary != c.secondary && c.HasBreaker() && k < c.maxFailovers
    ensures |Rounds(start, RecoveryTime(c), k)| == k
    ensures BothRested(c, start, events, Rounds(start, RecoveryTime(c), k), Clock(start, RecoveryTime(c), k))
  {
    var u := RecoveryTime(c);
    if k == 0 {
      events := [];
    } else {
      var past := ManyRounds(c, start, k - 1);
      events := OneRound(c, start, past, Rounds(start, u, k - 1), Clock(start, u, k - 1));
    }
  }

  lemma FailedRests(c: Config, start: int, events: seq<Event>, t: int, log: seq<int>)
    requires Fails(c, start, events, Primary, t, c.FailuresNeeded(), log, true)
    ensures Fails(c, start, events, Secondary, t, 0, log + [t], false)
  {
  }

  /** Both rested endpoints go down together. */
  lemma BothGoDown(c: Config, start: int, past: seq<Event>, log: seq<int>, t: int) returns (events: seq<Event>)
    requires c.primary != c.secondary && BothRested(c, start, past, log, t)
    ensures Timed(start, events) && Demotions(c, start, events) == log + [t] + [t]
  {
    RestedFails(c, start, past, log, t);
    var primaryDown := FailuresDemote(c, start, past, Primary, t, c.FailuresNeeded(), log, true);
    FailedRests(c, start, primaryDown, t, log);
    events := FailuresDemote(c, start, primaryDown, Secondary, t, c.FailuresNeeded(), log + [t], false);
  }

  lemma TwoMoreWithin(start: int, u: int, k: nat, window: int)
    requires u >= 0 && Clock(start, u, k) < start + window
    ensures var t := Clock(start, u, k);
            |Rounds(start, u, k)| == k && Within(Rounds(start, u, k) + [t] + [t], start, start + window) == k + 2
  {
    var log, t := Rounds(start, u, k), Clock(start, u, k);
    RoundsWithin(start, u, k, window);
    WithinSnoc(log, t, start, start + window);
    WithinSnoc(log + [t], t, start, start + window);
  }

  lemma ReachBound(c: Config, start: int, u: int, k: nat) returns (events: seq<Event>)
    requires c.primary != c.secondary && c.HasBreaker() && u == RecoveryTime(c) && k + 1 == c.maxFailovers
    ensures Timed(start, events)
    ensures Demotions(c, start, events) == Rounds(start, u, k) + [Clock(start, u, k)] + [Clock(start, u, k)]
  {
    var past := ManyRounds(c, start, k);
    events := BothGoDown(c, start, past, Rounds(start, u, k), Clock(start, u, k));
  }

  lemma RoundsFit(start: int, u: int, k: nat, window: int)
    requires k * u < window
    ensures Clock(start, u, k) < start + window
  {
    ClockIs(start, u, k);
  }

  lemma ReachBoundWithin(c: Config, start: int, u: int, k: nat) returns (events: seq<Event>)
    requires c.primary != c.secondary && c.HasBreaker() && u == RecoveryTime(c) && k + 1 == c.maxFailovers
    requires Clock(start, u, k) < start + c.window
    ensures Timed(start, events)
    ensures Within(Demotions(c, start, events), start, start + c.window) == c.maxFailovers + 1
  {
    events := ReachBound(c, start, u, k);
    TwoMoreWithin(start, u, k, c.window);
  }

  /** The bound is reached, one above the maximum, for every maximum and thresholds, when
      the window is long enough for the primary to recover all but once: the breaker
      guards promotions only, so both endpoints can be UP when one demotion is left,
      and go down together. */
  lemma BreakerBoundIsReached(c: Config, start: int)
    requires c.primary != c.secondary && c.HasBreaker()
    requires (c.maxFailovers - 1) * RecoveryTime(c) < c.window
    ensures exists events ::
      Timed(start, events) && Within(Demotions(c, start, events), start, start + c.window) == c.maxFailovers + 1
  {
    RoundsFit(start, RecoveryTime(c), c.maxFailovers - 1, c.window);
    var events := ReachBoundWithin(c, start, RecoveryTime(c), c.maxFailovers - 1);
  }
}
