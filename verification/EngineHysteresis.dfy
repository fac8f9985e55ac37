/** Load-driven sizing over every run of one process: what a resize must have been preceded
    by, how far it can go, and where sustained load leads. */
module EngineHysteresis {
  import opened Common
  import opened Statistics
  import opened Signals
  import opened StateFile
  import opened EngineModel
  import EngineThresholds

  /** A tick that got as far as comparing the load with the thresholds. */
  predicate Evaluated(input: Input) {
    && input.view.latest.Some?
    && !FencedRole(input.view.role)
    && input.view.latest.value.maxConns > 0
  }

  predicate Does(effects: seq<Effect>, kind: SetKind) {
    exists e :: e in effects && e.SetPool? && e.kind == kind
  }

  /** The views of the evaluated ticks, oldest first. */
  function EvaluatedViews(inputs: seq<Input>): (views: seq<View>)
    ensures forall i :: 0 <= i < |views| ==> views[i].latest.Some?
  {
    if inputs == [] then []
    else
      var n := |inputs| - 1;
      EvaluatedViews(inputs[..n]) + (if Evaluated(inputs[n]) then [inputs[n].view] else [])
  }

  /** The last k evaluated ticks were all in the given zone. */
  ghost predicate EndsInZone(views: seq<View>, k: nat, zone: Zone) {
    && k <= |views|
    && forall i :: |views| - k <= i < |views| ==> views[i].latest.Some? && ZoneRead(views[i]) == zone
  }

  /** The counters never count more than the consecutive evaluated ticks behind them, and
      at most one of them is running. */
  ghost predicate CountersJustified(core: Core, views: seq<View>) {
    && (core.above == 0 || core.below == 0)
    && EndsInZone(views, core.above, Above)
    && EndsInZone(views, core.below, Below)
  }

  lemma EndsInZoneExtends(views: seq<View>, k: nat, zone: Zone, view: View)
    requires EndsInZone(views, k, zone) && view.latest.Some? && ZoneRead(view) == zone
    ensures EndsInZone(views + [view], k + 1, zone)
  {
  }

  lemma EvaluationKeepsCountersJustified(core: Core, views: seq<View>, view: View, answer: SetOutcome)
    requires CountersJustified(core, views)
    requires view.latest.Some? && view.latest.value.maxConns > 0
    ensures var o := EvaluateLoad(core, ZoneRead(view), view.latest.value.maxConns, answer);
            && CountersJustified(o.core, views + [view])
            && (Does(o.effects, Shrink) ==> EndsInZone(views + [view], 3, Above))
            && (Does(o.effects, Grow) ==> EndsInZone(views + [view], 6, Below))
  {
    match ZoneRead(view)
    case Above => EndsInZoneExtends(views, core.above, Above, view);
    case Below => EndsInZoneExtends(views, core.below, Below, view);
    case _ =>
  }

  lemma TickKeepsCountersJustified(defaultSize: int, core: Core, views: seq<View>, input: Input)
    requires CountersJustified(core, views)
    ensures var o := Tick(defaultSize, core, input);
            var views' := views + (if Evaluated(input) then [input.view] else []);
            && CountersJustified(o.core, views')
            && (Does(o.effects, Shrink) ==> EndsInZone(views', 3, Above))
            && (Does(o.effects, Grow) ==> EndsInZone(views', 6, Below))
  {
    assert views + [] == views;
    if Evaluated(input) {
      var first := MaybeRecover(defaultSize, core, input.answers);
      EvaluationKeepsCountersJustified(first.core, views, input.view, input.answers.load);
    }
  }

  lemma {:induction false} RunKeepsCountersJustified(defaultSize: int, core: Core, inputs: seq<Input>)
    requires core.above == core.below == 0
    ensures CountersJustified(Run(defaultSize, core, inputs), EvaluatedViews(inputs))
  {
    if inputs != [] {
      var n := |inputs| - 1;
      RunKeepsCountersJustified(defaultSize, core, inputs[..n]);
      TickKeepsCountersJustified(defaultSize, Run(defaultSize, core, inputs[..n]),
                                 EvaluatedViews(inputs[..n]), inputs[n]);
    }
  }

  /** In a process that started with fresh counters, a tick that shrinks the pool is the last
      of three consecutive evaluated ticks above the upper threshold, and one that grows it is
      the last of six below the lower one, however many ticks that evaluate nothing, failovers
      and refused SETs lie between them. */
  lemma ResizeNeedsConsecutiveTicks(defaultSize: int, core: Core, inputs: seq<Input>, next: Input, views: seq<View>)
    requires core.above == core.below == 0
    requires views == EvaluatedViews(inputs + [next])
    ensures var effects := Tick(defaultSize, Run(defaultSize, core, inputs), next).effects;
            && (Does(effects, Shrink) ==> EndsInZone(views, 3, Above))
            && (Does(effects, Grow) ==> EndsInZone(views, 6, Below))
  {
    RunKeepsCountersJustified(defaultSize, core, inputs);
    TickKeepsCountersJustified(defaultSize, Run(defaultSize, core, inputs), EvaluatedViews(inputs), next);
    assert (inputs + [next])[..|inputs|] == inputs;
  }

  // ----- Smoothing -------------------------------------------------------------------

  /** The window is loaded enough for a scale-down: some snapshot is above the limit, or more
      than three fifths of the snapshots are above half of it. */
  predicate Heavy(sample: seq<LoadSnapshot>, maxConns: int) {
    || (exists i :: 0 <= i < |sample| && sample[i].activeConns > maxConns)
    || 5 * Count(Actives(sample), x => 2 * x > maxConns) > 3 * |sample|
  }

  /** A mean above 80% of the limit needs a heavy window: a spike in fewer snapshots than
      that cannot count towards scaling down. */
  lemma AboveNeedsHeavyWindow(sample: seq<LoadSnapshot>, maxConns: int)
    requires ZoneOf(Mean(Actives(sample)), maxConns) == Above
    ensures Heavy(sample, maxConns)
  {
    var xs := Actives(sample);
    if xs == [] {
      assert false;
    }
    var heavy := x => 2 * x > maxConns;
    EngineThresholds.ThresholdsExactly(Sum(xs), |xs|, maxConns);
    if forall i :: 0 <= i < |sample| ==> sample[i].activeConns <= maxConns {
      SumOfMostlyLight(xs, maxConns);
      HeavyShare(Sum(xs), |xs|, Count(xs, heavy), maxConns);
    }
  }

  lemma HeavyShare(sum: int, n: int, c: int, maxConns: int)
    requires 0 < maxConns && 0 <= c <= n
    requires 5 * sum > 4 * (n * maxConns)
    requires 2 * sum <= maxConns * (n + c)
    ensures 5 * c > 3 * n
  {
    assert maxConns * (n + c) == n * maxConns + c * maxConns;
    if 5 * c <= 3 * n {
      ScaleShares(c, n, maxConns);
    }
  }

  lemma ScaleShares(c: int, n: int, maxConns: int)
    requires 5 * c <= 3 * n && 0 <= maxConns
    ensures 5 * (c * maxConns) <= 3 * (n * maxConns)
  {
    assert (3 * n - 5 * c) * maxConns >= 0;
  }

  /** Every scale-down is preceded, in the evaluated ticks, by three heavy windows in a row,
      its own included. */
  lemma ShrinkNeedsThreeHeavyWindows(defaultSize: int, core: Core, inputs: seq<Input>, next: Input)
    requires core.above == core.below == 0
    requires Does(Tick(defaultSize, Run(defaultSize, core, inputs), next).effects, Shrink)
    ensures var views := EvaluatedViews(inputs + [next]);
            |views| >= 3 && forall i :: |views| - 3 <= i < |views| ==>
              Heavy(views[i].sample, views[i].latest.value.maxConns)
  {
    var views := EvaluatedViews(inputs + [next]);
    ResizeNeedsConsecutiveTicks(defaultSize, core, inputs, next, views);
    forall i | |views| - 3 <= i < |views|
      ensures Heavy(views[i].sample, views[i].latest.value.maxConns)
    {
      AboveNeedsHeavyWindow(views[i].sample, views[i].latest.value.maxConns);
    }
  }

  // ----- Range -----------------------------------------------------------------------

  predicate LimitIs(inputs: seq<Input>, maxConns: int) {
    forall i :: 0 <= i < |inputs| && inputs[i].view.latest.Some? ==> inputs[i].view.latest.value.maxConns == maxConns
  }

  /** The tracked size is zero only under suppression and otherwise between floor and limit;
      so is the size remembered for recovery. */
  predicate InRange(state: EngineState, maxConns: int) {
    && (state.currentPoolSize == 0 ==> state.Suppressed())
    && (state.currentPoolSize == 0 || 5 <= state.currentPoolSize <= maxConns)
    && (state.Suppressed() ==>
          state.lastPoolSize <= 0 || 5 <= state.lastPoolSize <= maxConns)
  }

  /** A load-driven SET asks for a size between floor and limit, one to five away from the
      tracked size and in the direction its name says. */
  predicate StepIsSmall(current: int, e: Effect, maxConns: int) {
    e.SetPool? && (e.kind.Shrink? || e.kind.Grow?) ==>
      && 5 <= e.size <= maxConns
      && (if e.kind.Shrink? then current - 5 <= e.size < current else current < e.size <= current + 5)
  }

  lemma TickKeepsRange(defaultSize: int, core: Core, input: Input, maxConns: int)
    requires 5 <= defaultSize <= maxConns
    requires InRange(core.state, maxConns)
    requires LimitIs([input], maxConns)
    ensures var o := Tick(defaultSize, core, input);
            && InRange(o.core.state, maxConns)
            && forall e :: e in o.effects ==> StepIsSmall(core.state.currentPoolSize, e, maxConns)
  {
    assert [input][0] == input;
  }

  /** With a fixed connection limit at least the default size, no pattern of failures takes the
      tracked size out of {0} and the interval from floor to limit, and it is 0 only while
      suppressed. */
  lemma {:induction false} RunKeepsRange(defaultSize: int, core: Core, inputs: seq<Input>, maxConns: int)
    requires 5 <= defaultSize <= maxConns
    requires InRange(core.state, maxConns) && LimitIs(inputs, maxConns)
    ensures InRange(Run(defaultSize, core, inputs).state, maxConns)
  {
    if inputs != [] {
      var n := |inputs| - 1;
      RunKeepsRange(defaultSize, core, inputs[..n], maxConns);
      assert LimitIs([inputs[n]], maxConns);
      TickKeepsRange(defaultSize, Run(defaultSize, core, inputs[..n]), inputs[n], maxConns);
    }
  }

  /** In such a run every load-driven SET is a small step inside the interval. */
  lemma ResizeStepsAreSmall(defaultSize: int, core: Core, inputs: seq<Input>, next: Input, maxConns: int)
    requires 5 <= defaultSize <= maxConns
    requires InRange(core.state, maxConns) && LimitIs(inputs + [next], maxConns)
    ensures var now := Run(defaultSize, core, inputs);
            forall e :: e in Tick(defaultSize, now, next).effects ==>
              StepIsSmall(now.state.currentPoolSize, e, maxConns)
  {
    forall i | 0 <= i < |inputs| && inputs[i].view.latest.Some?
      ensures inputs[i].view.latest.value.maxConns == maxConns
    {
      assert (inputs + [next])[i] == inputs[i];
    }
    assert (inputs + [next])[|inputs|] == next;
    RunKeepsRange(defaultSize, core, inputs, maxConns);
    TickKeepsRange(defaultSize, Run(defaultSize, core, inputs), next, maxConns);
  }

  // ----- Convergence -----------------------------------------------------------------

  /** Every tick is evaluated, in the given zone, against the same limit, and its SET works. */
  predicate Sustained(inputs: seq<Input>, zone: Zone, maxConns: int) {
    forall i :: 0 <= i < |inputs| ==>
      && Evaluated(inputs[i])
      && inputs[i].view.latest.value.maxConns == maxConns
      && ZoneRead(inputs[i].view) == zone
      && inputs[i].answers.load.Applied?
  }

  /** The size after t ticks of overload. */
  function ShrunkTo(size: int, t: nat): int {
    if size <= 5 then size else Max(5, size - 5 * (t / 3))
  }

  /** The size after t ticks of light load. */
  function GrownTo(size: int, maxConns: int, t: nat): int {
    if size >= maxConns then size else Min(maxConns, size + 5 * (t / 6))
  }

  /** The exact trajectory under sustained overload. */
  lemma {:induction false} ShrinkTrajectory(defaultSize: int, core: Core, inputs: seq<Input>, maxConns: int)
    requires !core.state.Suppressed() && core.above == core.below == 0
    requires Sustained(inputs, Above, maxConns)
    ensures var t := |inputs|;
            Run(defaultSize, core, inputs)
            == Core(Resized(core, ShrunkTo(core.state.currentPoolSize, t)), t % 3, 0)
  {
    if inputs != [] {
      var n := |inputs| - 1;
      ShrinkTrajectory(defaultSize, core, inputs[..n], maxConns);
      assert Evaluated(inputs[n]) && ZoneRead(inputs[n].view) == Above;
      assert (n + 1) / 3 == if n % 3 == 2 then n / 3 + 1 else n / 3;
      assert (n + 1) % 3 == if n % 3 == 2 then 0 else n % 3 + 1;
    }
  }

  /** The exact trajectory under sustained light load. */
  lemma {:induction false} GrowTrajectory(defaultSize: int, core: Core, inputs: seq<Input>, maxConns: int)
    requires !core.state.Suppressed() && core.above == core.below == 0
    requires Sustained(inputs, Below, maxConns)
    ensures var t := |inputs|;
            Run(defaultSize, core, inputs)
            == Core(Resized(core, GrownTo(core.state.currentPoolSize, maxConns, t)), 0, t % 6)
  {
    if inputs != [] {
      var n := |inputs| - 1;
      GrowTrajectory(defaultSize, core, inputs[..n], maxConns);
      assert Evaluated(inputs[n]) && ZoneRead(inputs[n].view) == Below;
      assert (n + 1) / 6 == if n % 6 == 5 then n / 6 + 1 else n / 6;
      assert (n + 1) % 6 == if n % 6 == 5 then 0 else n % 6 + 1;
    }
  }

  /** Steps of five needed to cover a distance. */
  function StepsFor(distance: nat): nat {
    (distance + 4) / 5
  }

  /** Whole groups of `period` ticks cover a distance once there are enough of them. */
  lemma StepsCover(t: nat, period: nat, distance: nat)
    requires period == 3 || period == 6
    ensures 5 * (t / period) >= distance <==> t >= period * StepsFor(distance)
  {
    var steps := StepsFor(distance);
    assert 5 * (steps - 1) < distance <= 5 * steps || distance == steps == 0;
    if period == 3 {
      assert t / 3 >= steps <==> t >= 3 * steps;
    } else {
      assert t / 6 >= steps <==> t >= 6 * steps;
    }
  }

  /** Overload brings the pool from size to the floor after exactly three ticks per step, not
      one tick earlier, and it stays there. */
  lemma FloorReachedExactly(defaultSize: int, core: Core, inputs: seq<Input>, maxConns: int)
    requires !core.state.Suppressed() && core.above == core.below == 0
    requires Sustained(inputs, Above, maxConns)
    requires core.state.currentPoolSize >= 5
    ensures Run(defaultSize, core, inputs).state.currentPoolSize == 5
            <==> |inputs| >= 3 * StepsFor(core.state.currentPoolSize - 5)
  {
    ShrinkTrajectory(defaultSize, core, inputs, maxConns);
    StepsCover(|inputs|, 3, core.state.currentPoolSize - 5);
  }

  /** Light load brings the pool from size to the limit after exactly six ticks per step, not
      one tick earlier, and it stays there. */
  lemma CeilingReachedExactly(defaultSize: int, core: Core, inputs: seq<Input>, maxConns: int)
    requires !core.state.Suppressed() && core.above == core.below == 0
    requires Sustained(inputs, Below, maxConns)
    requires core.state.currentPoolSize <= maxConns
    ensures Run(defaultSize, core, inputs).state.currentPoolSize == maxConns
            <==> |inputs| >= 6 * StepsFor(maxConns - core.state.currentPoolSize)
  {
    GrowTrajectory(defaultSize, core, inputs, maxConns);
    StepsCover(|inputs|, 6, maxConns - core.state.currentPoolSize);
  }
}
