/** What a tick asks of PgBouncer, in the terms of what it read: the load thresholds as
    inequalities between whole numbers, and every SET with the exact condition for it. */
module EngineThresholds {
  import opened Statistics
  import opened Signals
  import opened EngineModel

  lemma Scale(a: real, b: real, c: real)
    requires c > 0.0
    ensures a > b <==> a * c > b * c
  {
    if a > b {
      assert (a - b) * c > 0.0;
    } else if b > a {
      assert (b - a) * c > 0.0;
    }
  }

  /** A ratio of a mean, compared without division. */
  lemma ScaledTwice(sum: int, n: int, m: int, threshold: real)
    requires 0 < n && 0 < m
    ensures sum as real / n as real / m as real > threshold <==> sum as real > threshold * (n * m) as real
    ensures sum as real / n as real / m as real < threshold <==> sum as real < threshold * (n * m) as real
  {
    var nr, mr, sr := n as real, m as real, sum as real;
    var avg := sr / nr;
    assert avg / mr * mr == avg && avg * nr == sr && mr * nr == (n * m) as real;
    Scale(avg / mr, threshold, mr);
    Scale(threshold, avg / mr, mr);
    Scale(avg, threshold * mr, nr);
    Scale(threshold * mr, avg, nr);
    assert threshold * mr * nr == threshold * (n * m) as real;
  }

  /** The thresholds, in whole numbers: above four fifths of the limit, below half of it. */
  lemma ThresholdsExactly(sum: int, n: int, m: int)
    requires 0 < n
    ensures ZoneOf(sum as real / n as real, m) == Invalid <==> m <= 0
    ensures ZoneOf(sum as real / n as real, m) == Above <==> 0 < m && 5 * sum > 4 * (n * m)
    ensures ZoneOf(sum as real / n as real, m) == Below <==> 0 < m && 2 * sum < n * m
  {
    if 0 < m {
      ScaledTwice(sum, n, m, 0.8);
      ScaledTwice(sum, n, m, 0.5);
    }
  }

  /** The active connections of all snapshots together. */
  function TotalActive(sample: seq<LoadSnapshot>): int {
    if sample == [] then 0 else TotalActive(sample[..|sample| - 1]) + sample[|sample| - 1].activeConns
  }

  lemma {:induction false} TotalIsSum(sample: seq<LoadSnapshot>)
    ensures Sum(Actives(sample)) == TotalActive(sample)
  {
    if sample != [] {
      var n := |sample| - 1;
      TotalIsSum(sample[..n]);
      assert Actives(sample)[..n] == Actives(sample[..n]);
    }
  }

  predicate HeavyLoad(view: View)
    requires view.latest.Some?
  {
    var max := view.latest.value.maxConns;
    0 < max && 5 * TotalActive(view.sample) > 4 * (|view.sample| * max)
  }

  predicate LightLoad(view: View)
    requires view.latest.Some?
  {
    var max := view.latest.value.maxConns;
    0 < max && 2 * TotalActive(view.sample) < |view.sample| * max
  }

  /** What a tick makes of the window it read: whole numbers of active connections against the
      limit of the latest snapshot. */
  lemma ZoneReadExactly(view: View)
    requires view.latest.Some? && view.sample != []
    ensures ZoneRead(view) == Invalid <==> view.latest.value.maxConns <= 0
    ensures ZoneRead(view) == Above <==> HeavyLoad(view)
    ensures ZoneRead(view) == Below <==> LightLoad(view)
  {
    TotalIsSum(view.sample);
    ThresholdsExactly(TotalActive(view.sample), |view.sample|, view.latest.value.maxConns);
  }

  /** The four reasons for a SET, each with its size, from what the engine remembers and what
      the tick reads. `restored` says that this very tick has just ended a suppression. */
  predicate Asks(defaultSize: int, core: Core, input: Input, e: Effect)
    requires input.view.latest.Some?
  {
    var Input(view, answers) := input;
    var size, last, max := core.state.currentPoolSize, core.state.lastPoolSize, view.latest.value.maxConns;
    var primary := view.role == "primary" || view.role == "";
    var restored := core.state.Suppressed() && answers.restore.Applied?;
    || (e == SetPool(Suppress, 0, answers.suppress) && !primary && !core.state.Suppressed())
    || (e == SetPool(Restore, if last <= 0 then defaultSize else last, answers.restore)
        && primary && core.state.Suppressed())
    || (e == SetPool(Shrink, if size >= 10 then size - 5 else 5, answers.load)
        && primary && !restored && HeavyLoad(view) && core.above >= 2 && size > 5)
    || (e == SetPool(Grow, if size + 5 <= max then size + 5 else max, answers.load)
        && primary && !restored && LightLoad(view) && core.below >= 5 && size < max)
  }

  /** Every SET a tick issues, and nothing but those: none without a snapshot; 0 exactly when
      an unsuppressed engine reads a role other than "primary"; the remembered size exactly
      when a suppressed one reads "primary"; five less, not under five, exactly on the third
      heavy tick or later; five more, not over the limit, exactly on the sixth light one or
      later. */
  lemma SetsExactly(defaultSize: int, core: Core, input: Input, e: Effect)
    requires input.view.latest.Some? ==> input.view.sample != []
    ensures e in Tick(defaultSize, core, input).effects && e.SetPool?
            <==> input.view.latest.Some? && Asks(defaultSize, core, input, e)
  {
    var Input(view, answers) := input;
    if view.latest.Some? {
      ZoneReadExactly(view);
      if view.role == "primary" || view.role == "" {
        var first := MaybeRecover(defaultSize, core, answers);
        LoadSetsExactly(first.core, ZoneRead(view), view.latest.value.maxConns, answers.load, e);
      }
    }
  }

  lemma LoadSetsExactly(core: Core, zone: Zone, max: int, answer: SetOutcome, e: Effect)
    ensures var size := core.state.currentPoolSize;
            e in EvaluateLoad(core, zone, max, answer).effects
            <==> || (zone.Above? && core.above >= 2 && size > 5
                     && e == SetPool(Shrink, if size >= 10 then size - 5 else 5, answer))
                 || (zone.Below? && core.below >= 5 && size < max
                     && e == SetPool(Grow, if size + 5 <= max then size + 5 else max, answer))
  {
  }
}
