/** After which health check results the controller holds a cluster healthy. */
module ClusterHealth {
  import opened DisasterRecovery

  /** The results of one cluster's checks, in order. */
  function Results(events: seq<Event>, cluster: Cluster): seq<bool> {
    if events == [] then [] else
    var before, step := Results(events[..|events| - 1], cluster), events[|events| - 1].step;
    if step.HealthResult? && step.cluster == cluster then before + [step.ok] else before
  }

  /** The `n` results up to position `i` are all `ok`. */
  predicate Streak(results: seq<bool>, i: int, n: int, ok: bool) {
    0 <= i - n && i <= |results| && forall k :: i - n <= k < i ==> results[k] == ok
  }

  /** Some streak of `up` successes was not followed by a streak of `down` failures. */
  ghost predicate CameUp(results: seq<bool>, up: int, down: int) {
    exists i :: Streak(results, i, up, true) && NoneAfter(results, i, down)
  }

  ghost predicate NoneAfter(results: seq<bool>, i: int, down: int) {
    forall j :: i < j <= |results| ==> !Streak(results, j, down, false)
  }

  lemma StreakOfPrefix(results: seq<bool>, x: bool, i: int, n: int, ok: bool)
    requires i <= |results|
    ensures Streak(results + [x], i, n, ok) <==> Streak(results, i, n, ok)
  {
    if Streak(results, i, n, ok) {
      forall k | i - n <= k < i ensures (results + [x])[k] == ok {
        assert results[k] == ok;
      }
    }
    if Streak(results + [x], i, n, ok) {
      forall k | i - n <= k < i ensures results[k] == ok {
        assert (results + [x])[k] == ok;
      }
    }
  }

  lemma StreakNeedsLast(results: seq<bool>, x: bool, n: int, ok: bool)
    requires n > 0 && Streak(results + [x], |results| + 1, n, ok)
    ensures x == ok
  {
    assert (results + [x])[|results|] == ok;
  }

  lemma NoneAfterSnoc(results: seq<bool>, x: bool, i: int, down: int)
    requires i <= |results|
    ensures NoneAfter(results + [x], i, down)
       <==> NoneAfter(results, i, down) && !Streak(results + [x], |results| + 1, down, false)
  {
    forall j | i < j <= |results|
      ensures Streak(results + [x], j, down, false) <==> Streak(results, j, down, false)
    {
      StreakOfPrefix(results, x, j, down, false);
    }
  }

  lemma CameUpSnoc(results: seq<bool>, x: bool, up: int, down: int)
    requires up > 0 && down > 0
    ensures CameUp(results + [x], up, down)
       <==> || Streak(results + [x], |results| + 1, up, true)
            || (CameUp(results, up, down) && !Streak(results + [x], |results| + 1, down, false))
  {
    if CameUp(results + [x], up, down) {
      var i :| Streak(results + [x], i, up, true) && NoneAfter(results + [x], i, down);
      if i <= |results| {
        StreakOfPrefix(results, x, i, up, true);
        NoneAfterSnoc(results, x, i, down);
      }
    }
    if Streak(results + [x], |results| + 1, up, true) {
      assert NoneAfter(results + [x], |results| + 1, down);
    }
    if CameUp(results, up, down) && !Streak(results + [x], |results| + 1, down, false) {
      var i :| Streak(results, i, up, true) && NoneAfter(results, i, down);
      StreakOfPrefix(results, x, i, up, true);
      NoneAfterSnoc(results, x, i, down);
    }
  }

  /** How many results at the end are `ok`. */
  function Trailing(results: seq<bool>, ok: bool): nat {
    if results == [] || results[|results| - 1] != ok then 0 else 1 + Trailing(results[..|results| - 1], ok)
  }

  lemma {:induction false} TrailingIsStreak(results: seq<bool>, n: int, ok: bool)
    requires n > 0
    ensures Streak(results, |results|, n, ok) <==> Trailing(results, ok) >= n
  {
    if results != [] {
      var past, x := results[..|results| - 1], results[|results| - 1];
      assert results == past + [x];
      if Streak(results, |results|, n, ok) {
        StreakNeedsLast(past, x, n, ok);
      }
      if x == ok && n > 1 {
        TrailingIsStreak(past, n - 1, ok);
        StreakExtends(past, x, n, ok);
      }
    }
  }

  lemma StreakExtends(past: seq<bool>, x: bool, n: int, ok: bool)
    requires n > 1 && x == ok
    ensures Streak(past + [x], |past| + 1, n, ok) <==> Streak(past, |past|, n - 1, ok)
  {
    StreakOfPrefix(past, x, |past|, n - 1, ok);
  }

  function Threshold(configured: int, unset: int): int {
    if configured <= 0 then unset else configured
  }

  /** The controller's counters, and its verdict, as the results say. */
  ghost predicate Counts(cfg: Config, h: Health, results: seq<bool>) {
    && h.successes == Trailing(results, true) && h.failures == Trailing(results, false)
    && (h.healthy <==> CameUp(results, Threshold(cfg.recoveryThreshold, 2), Threshold(cfg.failureThreshold, 3)))
  }

  lemma CheckedCounts(cfg: Config, h: Health, results: seq<bool>, ok: bool)
    requires Counts(cfg, h, results)
    ensures Counts(cfg, Checked(cfg, h, ok), results + [ok])
  {
    var up, down := Threshold(cfg.recoveryThreshold, 2), Threshold(cfg.failureThreshold, 3);
    assert (results + [ok])[..|results|] == results;
    CameUpSnoc(results, ok, up, down);
    TrailingIsStreak(results + [ok], up, true);
    TrailingIsStreak(results + [ok], down, false);
  }

  function HealthOf(c: Control, cluster: Cluster): Health {
    if cluster.Primary? then c.primary else c.secondary
  }

  lemma OnlyChecksCount(cfg: Config, b: Bu, e: Event, cluster: Cluster)
    ensures HealthOf(Next(cfg, b, e).control, cluster)
         == if e.step.HealthResult? && e.step.cluster == cluster
            then Checked(cfg, HealthOf(b.control, cluster), e.step.ok)
            else HealthOf(b.control, cluster)
  {
  }

  lemma NoneCameUp(up: int, down: int)
    requires up > 0
    ensures !CameUp([], up, down)
  {
  }

  lemma {:induction false} AlwaysCounts(cfg: Config, events: seq<Event>, cluster: Cluster)
    ensures Counts(cfg, HealthOf(Run(cfg, events).control, cluster), Results(events, cluster))
  {
    if events == [] {
      NoneCameUp(Threshold(cfg.recoveryThreshold, 2), Threshold(cfg.failureThreshold, 3));
    } else {
      var past, e := events[..|events| - 1], events[|events| - 1];
      AlwaysCounts(cfg, past, cluster);
      OnlyChecksCount(cfg, Run(cfg, past), e, cluster);
      if e.step.HealthResult? && e.step.cluster == cluster {
        CheckedCounts(cfg, HealthOf(Run(cfg, past).control, cluster), Results(past, cluster), e.step.ok);
      }
    }
  }

  /** In every run a cluster is held healthy if and only if some recovery_threshold of
      its checks in a row succeeded and no failure_threshold of them in a row have
      failed since; 2 and 3 when they are not set. */
  lemma HealthyExactly(cfg: Config, events: seq<Event>, cluster: Cluster)
    ensures var c, results := Run(cfg, events).control, Results(events, cluster);
            (if cluster.Primary? then c.primary else c.secondary).healthy
            <==> CameUp(results, if cfg.recoveryThreshold <= 0 then 2 else cfg.recoveryThreshold,
                        if cfg.failureThreshold <= 0 then 3 else cfg.failureThreshold)
  {
    AlwaysCounts(cfg, events, cluster);
  }
}
