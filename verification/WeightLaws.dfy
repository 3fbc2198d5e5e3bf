/** What holds of every run of the load_balance weights, and exactly when the original
    weights come back. */
module WeightLaws {
  import opened WeightRebalance
  import opened Wire
  import S = StickyRouting

  /** A tick, a reload of the rebalancer's or of the router's configuration, a reset. */
  datatype Event =
    | Ticked(health: Health, at: int)
    | Reloaded(config: Config)
    | RouterReloaded(config: Config)
    | WasReset

  function Next(c: Cluster, e: Event): Cluster {
    match e
    case Ticked(h, at) => Tick(c, h, at)
    case Reloaded(config) => Reconfigure(c, config)
    case RouterReloaded(config) => c.(effective := Seeded(c.effective, config))
    case WasReset => ResetWeights(c)
  }

  function Run(config: Config, events: seq<Event>): Cluster {
    if events == [] then Initial(config) else Next(Run(config, events[..|events| - 1]), events[|events| - 1])
  }

  lemma RunStep(config: Config, past: seq<Event>, e: Event)
    ensures Run(config, past + [e]) == Next(Run(config, past), e)
  {
    assert (past + [e])[..|past|] == past;
  }

  // --------------------------------------------------------------------- conservation

  predicate AllValidated(events: seq<Event>) {
    forall i :: 0 <= i < |events| ==> IsValidated(events[i])
  }

  predicate IsValidated(e: Event) {
    (e.Reloaded? || e.RouterReloaded?) ==> e.config.Validated()
  }

  predicate Splits(c: Cluster) {
    && c.config.Validated()
    && (c.effective.Some? ==> IsSplit(c.effective.value))
    && (c.original.Some? ==> IsSplit(c.original.value))
  }

  lemma AdjustSplits(c: Cluster, was: Prev, h: Health, now: int)
    requires Splits(c)
    ensures Splits(Adjust(c, was, h, now))
  {
  }

  lemma NextSplits(c: Cluster, e: Event)
    requires Splits(c) && IsValidated(e)
    ensures Splits(Next(c, e))
  {
    if e.Ticked? && c.prev.Some? {
      AdjustSplits(c, c.prev.value, e.health, e.at);
    }
  }

  /** In every run over validated configurations the weights routing uses for a
      load_balance cluster are a split of 100. */
  lemma {:induction false} WeightsSumTo100(config: Config, events: seq<Event>)
    requires config.Validated() && AllValidated(events)
    ensures Splits(Run(config, events))
    ensures Run(config, events).config.loadBalance ==> IsSplit(Shares(Run(config, events)))
  {
    if events != [] {
      WeightsSumTo100(config, events[..|events| - 1]);
      NextSplits(Run(config, events[..|events| - 1]), events[|events| - 1]);
    }
  }

  // -------------------------------------------------------------- a primary that fails

  /** The health reports of a run in which the primary fails once: healthy for `down`
      ticks, then unhealthy until tick `up`, then healthy since `since`; the secondary
      is healthy throughout and the clock does not go backwards. */
  predicate FailsOnce(ticks: seq<Event>, down: nat, up: nat, since: int) {
    && 0 < down <= up <= |ticks|
    && (forall i :: 0 <= i < |ticks| ==> ticks[i].Ticked? && ticks[i].health.secondaryHealthy)
    && (forall i :: 0 <= i < |ticks| ==> (ticks[i].health.primaryHealthy <==> i < down || up <= i))
    && (forall i :: up <= i < |ticks| ==> ticks[i].health.upSince == Some(since))
    && (forall i, j :: 0 <= i < j < |ticks| ==> ticks[i].at <= ticks[j].at)
  }

  /** recovery_min_uptime, 120 seconds when it is not set. */
  function RequiredUptime(config: Config): int {
    if config.recoveryMinUptime <= 0 then 120_000_000_000 else config.recoveryMinUptime
  }

  /** Up for as long as that; the zero time always is. */
  predicate UpLongEnough(config: Config, upSince: Option<int>, now: int) {
    upSince.None? || now - upSince.value >= RequiredUptime(config)
  }

  /** Whether the primary's recovery is complete at some tick after it came up. */
  predicate Recovered(config: Config, ticks: seq<Event>, up: nat, since: int)
    requires forall i :: 0 <= i < |ticks| ==> ticks[i].Ticked?
  {
    |ticks| > up && ticks[|ticks| - 1].at - since >= RequiredUptime(config)
  }

  lemma FailsOncePrefix(ticks: seq<Event>, down: nat, up: nat, since: int)
    requires FailsOnce(ticks, down, up, since) && |ticks| > up
    ensures FailsOnce(ticks[..|ticks| - 1], down, up, since)
  {
  }

  /** What the rebalancer keeps while the primary fails and recovers. */
  ghost predicate Handles(config: Config, c: Cluster, primaryHealthy: bool, shifted: bool, recovering: bool) {
    && c.config == config && c.original == Some(config.weights)
    && c.effective == Some(if shifted then TO_SECONDARY else config.weights)
    && c.recovering == recovering && c.prev == Some(Prev(primaryHealthy, true))
  }

  predicate Rebalances(config: Config) {
    config.loadBalance && config.autoRebalance
  }

  lemma {:induction false} BeforeFailure(config: Config, ticks: seq<Event>)
    requires Rebalances(config) && ticks != []
    requires forall i :: 0 <= i < |ticks| ==>
      ticks[i].Ticked? && ticks[i].health.primaryHealthy && ticks[i].health.secondaryHealthy
    ensures Handles(config, Run(config, ticks), true, false, false)
  {
    if |ticks| == 1 {
      assert ticks[..0] == [];
    } else {
      BeforeFailure(config, ticks[..|ticks| - 1]);
    }
  }

  lemma {:induction false} DuringFailure(config: Config, ticks: seq<Event>, down: nat)
    requires Rebalances(config) && 0 < down < |ticks|
    requires forall i :: 0 <= i < |ticks| ==> ticks[i].Ticked? && ticks[i].health.secondaryHealthy
    requires forall i :: 0 <= i < |ticks| ==> (ticks[i].health.primaryHealthy <==> i < down)
    ensures Handles(config, Run(config, ticks), false, true, false)
  {
    var past := ticks[..|ticks| - 1];
    if |ticks| == down + 1 {
      BeforeFailure(config, past);
    } else {
      DuringFailure(config, past, down);
    }
  }

  lemma AfterTick(config: Config, c: Cluster, e: Event, since: int, wasHealthy: bool, shifted: bool, recovering: bool)
    requires Rebalances(config) && Handles(config, c, wasHealthy, shifted, recovering)
    requires e.Ticked? && e.health == Health(true, true, Some(since))
    requires if wasHealthy then shifted == recovering else shifted && !recovering
    ensures var waiting := shifted && e.at - since < RequiredUptime(config);
            Handles(config, Next(c, e), true, waiting, waiting)
  {
  }

  lemma {:induction false} AfterFailure(config: Config, ticks: seq<Event>, down: nat, up: nat, since: int)
    requires Rebalances(config) && FailsOnce(ticks, down, up, since) && down < up < |ticks|
    ensures var waiting := !Recovered(config, ticks, up, since);
            Handles(config, Run(config, ticks), true, waiting, waiting)
  {
    var past, e := ticks[..|ticks| - 1], ticks[|ticks| - 1];
    if |ticks| == up + 1 {
      DuringFailure(config, past, down);
      AfterTick(config, Run(config, past), e, since, false, true, false);
    } else {
      FailsOncePrefix(ticks, down, up, since);
      AfterFailure(config, past, down, up, since);
      var waiting := !Recovered(config, past, up, since);
      AfterTick(config, Run(config, past), e, since, true, waiting, waiting);
      assert past[|past| - 1].at <= e.at;
    }
  }

  /** Fast failover, slow failback: when the primary fails once and the secondary stays
      healthy, every partition belongs to the secondary from the tick that sees the
      failure until the first tick at which the primary has been up for
      recovery_min_uptime; before and after, each belongs to its configured owner. */
  lemma OwnersThroughOneFailure(
      config: Config, ticks: seq<Event>, down: nat, up: nat, since: int, topic: Bytes, partition: int32)
    requires Rebalances(config) && FailsOnce(ticks, down, up, since)
    ensures var shifted := |ticks| > down && down < up && !Recovered(config, ticks, up, since);
            S.Owner(Shares(Run(config, ticks)).primary, topic, partition)
            == if shifted then S.Secondary else S.Owner(config.weights.primary, topic, partition)
  {
    S.ExtremeWeights(TO_SECONDARY.primary, topic, partition);
    if |ticks| <= down || down == up {
      BeforeFailure(config, ticks);
    } else if |ticks| <= up {
      DuringFailure(config, ticks, down);
    } else {
      AfterFailure(config, ticks, down, up, since);
    }
  }

  // --------------------------------------------------------- a primary that is not back

  /** Every tick, exactly: the original weights come back when the secondary comes up or
      a recovering primary passes the uptime test (the zero time passes); otherwise an
      endpoint that goes down loses its weight, the primary first; otherwise nothing
      changes.  A primary that comes up is recovering until it passes the test. */
  lemma TickExactly(c: Cluster, h: Health, now: int)
    requires Rebalances(c.config) && c.prev.Some? && c.original.Some?
    ensures var was := c.prev.value;
            var restores := || (!was.secondaryHealthy && h.secondaryHealthy)
                            || ((c.recovering || (!was.primaryHealthy && h.primaryHealthy))
                                && UpLongEnough(c.config, h.upSince, now));
            Shares(Tick(c, h, now)) ==
              if restores then c.original.value
              else if was.primaryHealthy && !h.primaryHealthy then TO_SECONDARY
              else if was.secondaryHealthy && !h.secondaryHealthy then TO_PRIMARY
              else Shares(c)
    ensures Tick(c, h, now).recovering
       <==> (c.recovering || (!c.prev.value.primaryHealthy && h.primaryHealthy))
            && !UpLongEnough(c.config, h.upSince, now)
    ensures Tick(c, h, now).prev == Some(Prev(h.primaryHealthy, h.secondaryHealthy))
  {
  }

  /** The configuration the rebalancer was last given. */
  function LatestConfig(config: Config, events: seq<Event>): Config {
    if events == [] then config
    else
      var e := events[|events| - 1];
      if e.Reloaded? then e.config else LatestConfig(config, events[..|events| - 1])
  }

  /** In every run the weights to go back to are the latest configured ones. */
  lemma {:induction false} OriginalsAreConfigured(config: Config, events: seq<Event>)
    ensures var c, latest := Run(config, events), LatestConfig(config, events);
            c.config == latest && (latest.loadBalance ==> c.original == Some(latest.weights))
  {
    if events != [] {
      OriginalsAreConfigured(config, events[..|events| - 1]);
    }
  }

  /** A reload leaves weights in force alone; the router's gives a load_balance cluster
      that has none its configured ones. */
  lemma ReloadsKeepShares(c: Cluster, config: Config)
    ensures c.effective.Some? ==>
      Shares(Next(c, Reloaded(config))) == Shares(Next(c, RouterReloaded(config))) == Shares(c)
    ensures c.effective.None? ==>
      && Next(c, Reloaded(config)).effective == None
      && Next(c, RouterReloaded(config)).effective == (if config.loadBalance then Some(config.weights) else None)
  {
  }

  /** So in every run, reloads included, what a restoring tick or a reset brings back is
      the latest configured weights, and without one a tick does what `TickExactly`
      says; the first tick, and every tick of a cluster that is not rebalanced, leaves
      the weights alone. */
  lemma RestoresConfigured(config: Config, events: seq<Event>, h: Health, now: int)
    requires LatestConfig(config, events).loadBalance
    ensures var c, latest := Run(config, events), LatestConfig(config, events);
            && Shares(Next(c, WasReset)) == latest.weights && !Next(c, WasReset).recovering
            && (!latest.autoRebalance || c.prev.None? ==> Shares(Next(c, Ticked(h, now))) == Shares(c))
            && (latest.autoRebalance && c.prev.Some? ==>
                  var was := c.prev.value;
                  var restores := || (!was.secondaryHealthy && h.secondaryHealthy)
                                  || ((c.recovering || (!was.primaryHealthy && h.primaryHealthy))
                                      && UpLongEnough(latest, h.upSince, now));
                  Shares(Next(c, Ticked(h, now))) ==
                    if restores then latest.weights
                    else if was.primaryHealthy && !h.primaryHealthy then TO_SECONDARY
                    else if was.secondaryHealthy && !h.secondaryHealthy then TO_PRIMARY
                    else Shares(c))
  {
    OriginalsAreConfigured(config, events);
    var c := Run(config, events);
    if c.config.autoRebalance && c.prev.Some? {
      TickExactly(c, h, now);
    }
  }

  /** The primary is up and has been for recovery_min_uptime. */
  predicate IsBack(config: Config, h: Health, now: int) {
    h.primaryHealthy && UpLongEnough(config, h.upSince, now)
  }

  /** When a tick gives weight to a primary that had lost it and is not back: when the
      secondary comes up or a recovering primary's report passes for back, for a
      primary with a share in the configuration; or when the secondary goes down and
      the primary does not in the same tick. */
  lemma PrematureExactly(c: Cluster, h: Health, now: int)
    requires Rebalances(c.config) && c.prev.Some? && c.original.Some?
    requires c.effective == Some(TO_SECONDARY) && !IsBack(c.config, h, now)
    ensures var was := c.prev.value;
            var restores := || (!was.secondaryHealthy && h.secondaryHealthy)
                            || (c.recovering && !h.primaryHealthy && UpLongEnough(c.config, h.upSince, now));
            var shifts := was.secondaryHealthy && !h.secondaryHealthy && !(was.primaryHealthy && !h.primaryHealthy);
            Shares(Tick(c, h, now)).primary != 0 <==> (if restores then c.original.value.primary != 0 else shifts)
  {
    TickExactly(c, h, now);
  }

  /** Ticks with the reports the health checker makes: the time since which the primary
      is up is given exactly while it is up. */
  predicate Reports(ticks: seq<Event>) {
    forall i :: 0 <= i < |ticks| ==>
      ticks[i].Ticked? && (ticks[i].health.primaryHealthy <==> ticks[i].health.upSince.Some?)
  }

  lemma ReportsPrefix(ticks: seq<Event>)
    requires Reports(ticks) && ticks != []
    ensures Reports(ticks[..|ticks| - 1]) && ticks[|ticks| - 1].Ticked?
  {
  }

  /** By its reports alone: the primary has gone down and is not back yet. */
  predicate Away(config: Config, ticks: seq<Event>)
    requires Reports(ticks)
  {
    if ticks == [] then false
    else
      var past, e := ticks[..|ticks| - 1], ticks[|ticks| - 1];
      ReportsPrefix(ticks);
      !e.health.primaryHealthy || (Away(config, past) && !IsBack(config, e.health, e.at))
  }

  /** At no time of the run did a primary that is away have weight. */
  ghost predicate NeverPremature(config: Config, ticks: seq<Event>)
    requires Reports(ticks)
  {
    if ticks == [] then true
    else
      ReportsPrefix(ticks);
      && NeverPremature(config, ticks[..|ticks| - 1])
      && (Away(config, ticks) ==> Shares(Run(config, ticks)) == TO_SECONDARY)
  }

  /** Also by the reports alone: the first report has the primary up; whenever it goes
      down the secondary does not come up in the same report; and while it is away the
      secondary neither goes down nor comes up, and the primary, once up, stays up. */
  predicate Calm(config: Config, ticks: seq<Event>)
    requires Reports(ticks)
  {
    if ticks == [] then true
    else
      var past, h := ticks[..|ticks| - 1], ticks[|ticks| - 1].health;
      ReportsPrefix(ticks);
      && Calm(config, past)
      && (Away(config, ticks) ==> past != [] && CalmReport(past[|past| - 1].health, h, Away(config, past)))
  }

  predicate CalmReport(was: Health, h: Health, away: bool) {
    if away then was.secondaryHealthy == h.secondaryHealthy && (was.primaryHealthy ==> h.primaryHealthy)
    else was.secondaryHealthy || !h.secondaryHealthy
  }

  function LastReport(ticks: seq<Event>): Option<Health>
    requires Reports(ticks)
  {
    if ticks == [] then None else Some(ticks[|ticks| - 1].health)
  }

  /** What the rebalancer holds in a calm run: it waits exactly while a primary that is
      away has come up. */
  predicate Tracks(config: Config, c: Cluster, last: Option<Health>, away: bool) {
    && c.config == config && c.original == Some(config.weights)
    && (last.None? ==> c.prev == None && !c.recovering && !away && Shares(c) == config.weights)
    && (last.Some? ==>
          && c.prev == Some(Prev(last.value.primaryHealthy, last.value.secondaryHealthy))
          && (away || last.value.primaryHealthy)
          && c.recovering == (away && last.value.primaryHealthy))
    && (away ==> Shares(c) == TO_SECONDARY)
  }

  predicate TracksRun(config: Config, ticks: seq<Event>)
    requires Reports(ticks)
  {
    Tracks(config, Run(config, ticks), LastReport(ticks), Away(config, ticks))
  }

  /** One report: in a calm run, weight is kept from a primary that is away if and only
      if the report is calm too. */
  lemma ReportStep(config: Config, c: Cluster, last: Option<Health>, away: bool, h: Health, now: int)
    requires Rebalances(config) && Tracks(config, c, last, away)
    requires h.primaryHealthy <==> h.upSince.Some?
    ensures var away' := !h.primaryHealthy || (away && !IsBack(config, h, now));
            var calm := away' ==> last.Some? && CalmReport(last.value, h, away);
            && (calm ==> Tracks(config, Tick(c, h, now), Some(h), away'))
            && (!calm && config.weights.primary != 0 ==> away' && Shares(Tick(c, h, now)) != TO_SECONDARY)
  {
    if last.Some? {
      TickExactly(c, h, now);
    }
  }

  lemma {:induction false} CalmTracks(config: Config, ticks: seq<Event>)
    requires Rebalances(config) && Reports(ticks) && Calm(config, ticks)
    ensures TracksRun(config, ticks) && NeverPremature(config, ticks)
  {
    if ticks != [] {
      var past, e := ticks[..|ticks| - 1], ticks[|ticks| - 1];
      ReportsPrefix(ticks);
      CalmTracks(config, past);
      ReportStep(config, Run(config, past), LastReport(past), Away(config, past), e.health, e.at);
    }
  }

  /** In every run of reports, whatever they say, a primary that has gone down gets no
      weight before it is back if the reports are calm; and, for a primary with a share
      in the configuration, only if they are. */
  lemma {:induction false} NeverPrematureExactly(config: Config, ticks: seq<Event>)
    requires Rebalances(config) && Reports(ticks)
    ensures Calm(config, ticks) ==> NeverPremature(config, ticks)
    ensures config.weights.primary != 0 ==> (NeverPremature(config, ticks) <==> Calm(config, ticks))
  {
    if Calm(config, ticks) {
      CalmTracks(config, ticks);
    } else if ticks != [] {
      var past, e := ticks[..|ticks| - 1], ticks[|ticks| - 1];
      ReportsPrefix(ticks);
      NeverPrematureExactly(config, past);
      if Calm(config, past) {
        CalmTracks(config, past);
        ReportStep(config, Run(config, past), LastReport(past), Away(config, past), e.health, e.at);
      }
    }
  }

  const BOTH_UP := Health(true, true, Some(0))

  /** The secondary flaps while the primary is down: as it goes down the primary, still
      down, gets all the weight, and as it comes up its configured share. */
  const SECONDARY_FLAPS := [
    Ticked(BOTH_UP, 0), Ticked(Health(false, true, None), 1), Ticked(Health(false, false, None), 2),
    Ticked(Health(false, true, None), 3)
  ]

  /** The primary goes down again while recovering: its uptime is then reported as the
      zero time, which counts as recovered, and it gets its share back. */
  const PRIMARY_DROPS := [
    Ticked(BOTH_UP, 0), Ticked(Health(false, true, None), 1), Ticked(Health(true, true, Some(2)), 2),
    Ticked(Health(false, true, None), 3)
  ]

  /** The secondary flaps while the primary is up but not for long enough. */
  const FLAPS_IN_RECOVERY := [
    Ticked(BOTH_UP, 0), Ticked(Health(false, true, None), 1), Ticked(Health(true, true, Some(2)), 2),
    Ticked(Health(true, false, Some(2)), 3), Ticked(Health(true, true, Some(2)), 4)
  ]

  lemma RunNext(config: Config, events: seq<Event>, n: nat)
    requires n < |events|
    ensures Run(config, events[..n + 1]) == Next(Run(config, events[..n]), events[n])
  {
    assert events[..n + 1] == events[..n] + [events[n]];
    RunStep(config, events[..n], events[n]);
  }

  lemma SecondaryFlapRestores(config: Config)
    requires Rebalances(config)
    ensures Shares(Run(config, SECONDARY_FLAPS[..2])) == TO_SECONDARY
    ensures Shares(Run(config, SECONDARY_FLAPS[..3])) == TO_PRIMARY
    ensures Shares(Run(config, SECONDARY_FLAPS[..4])) == config.weights
  {
    assert SECONDARY_FLAPS[..0] == [];
    RunNext(config, SECONDARY_FLAPS, 0);
    RunNext(config, SECONDARY_FLAPS, 1);
    RunNext(config, SECONDARY_FLAPS, 2);
    RunNext(config, SECONDARY_FLAPS, 3);
  }

  lemma PrimaryDropRestores(config: Config)
    requires Rebalances(config)
    ensures Shares(Run(config, PRIMARY_DROPS[..3])) == TO_SECONDARY
    ensures Shares(Run(config, PRIMARY_DROPS[..4])) == config.weights
  {
    assert PRIMARY_DROPS[..0] == [];
    RunNext(config, PRIMARY_DROPS, 0);
    RunNext(config, PRIMARY_DROPS, 1);
    RunNext(config, PRIMARY_DROPS, 2);
    RunNext(config, PRIMARY_DROPS, 3);
  }

  lemma FlapInRecoveryRestores(config: Config)
    requires Rebalances(config) && RequiredUptime(config) > 2
    ensures Shares(Run(config, FLAPS_IN_RECOVERY[..3])) == TO_SECONDARY
    ensures Shares(Run(config, FLAPS_IN_RECOVERY[..4])) == TO_PRIMARY
    ensures Shares(Run(config, FLAPS_IN_RECOVERY[..5])) == config.weights
  {
    assert FLAPS_IN_RECOVERY[..0] == [];
    RunNext(config, FLAPS_IN_RECOVERY, 0);
    RunNext(config, FLAPS_IN_RECOVERY, 1);
    RunNext(config, FLAPS_IN_RECOVERY, 2);
    RunNext(config, FLAPS_IN_RECOVERY, 3);
    RunNext(config, FLAPS_IN_RECOVERY, 4);
  }
}
