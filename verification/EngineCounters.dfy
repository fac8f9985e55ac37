/** The two hysteresis counters, exactly, over every run and every outcome of every SET. */
module EngineCounters {
  import opened Common
  import opened EngineModel
  import opened EngineAgreement
  import opened EngineFencing

  /** The tick ends a suppression, and counts its own load afterwards. */
  predicate ClearsBefore(core: Core, input: Input) {
    core.state.Suppressed() && !KeepsFence(input) && input.answers.restore.Applied?
  }

  /** Enough ticks in this zone, this one included, to act. */
  predicate Confirmed(core: Core, zone: Zone) {
    (zone.Above? && core.above >= 2) || (zone.Below? && core.below >= 5)
  }

  /** The tick begins a suppression; or it has a confirmed load and either no room to resize or
      an acknowledged resize. A resize that is not acknowledged clears nothing. */
  predicate ClearsAfter(core: Core, input: Input) {
    || (!core.state.Suppressed() && Fences(input))
    || (!KeepsFence(input) && !ClearsBefore(core, input)
        && Confirmed(core, ZoneRead(input.view))
        && (input.answers.load.Applied?
            || !ResizeDue(core, ZoneRead(input.view), input.view.latest.value.maxConns)))
  }

  /** The inputs from here on are the ones that the counters still count. */
  function CountedFrom(defaultSize: int, core: Core, inputs: seq<Input>): (n: nat)
    ensures n <= |inputs|
  {
    if inputs == [] then 0
    else
      var n := |inputs| - 1;
      var now := Run(defaultSize, core, inputs[..n]);
      if ClearsAfter(now, inputs[n]) then |inputs|
      else if ClearsBefore(now, inputs[n]) then n
      else CountedFrom(defaultSize, core, inputs[..n])
  }

  ghost predicate CountersAre(core: Core, counted: seq<Input>) {
    core.above == ZoneStreak(counted, Above) && core.below == ZoneStreak(counted, Below)
  }

  lemma StreakExtends(inputs: seq<Input>, next: Input, zone: Zone)
    ensures ZoneStreak(inputs + [next], zone)
            == if KeepsFence(next) || ZoneRead(next.view).Invalid? then ZoneStreak(inputs, zone)
               else if ZoneRead(next.view) == zone then ZoneStreak(inputs, zone) + 1
               else 0
  {
    assert (inputs + [next])[..|inputs|] == inputs;
  }

  /** A tick that clears nothing counts its own zone and forgets the other. */
  lemma TickCounts(defaultSize: int, core: Core, input: Input, counted: seq<Input>)
    requires CountersAre(core, counted) && !ClearsBefore(core, input) && !ClearsAfter(core, input)
    ensures CountersAre(Tick(defaultSize, core, input).core, counted + [input])
  {
    StreakExtends(counted, input, Above);
    StreakExtends(counted, input, Below);
  }

  lemma TickClearsBefore(defaultSize: int, core: Core, input: Input)
    requires ClearsBefore(core, input)
    ensures CountersAre(Tick(defaultSize, core, input).core, [input])
  {
    StreakExtends([], input, Above);
    StreakExtends([], input, Below);
    assert [] + [input] == [input];
  }

  lemma TickClearsAfter(defaultSize: int, core: Core, input: Input)
    requires ClearsAfter(core, input)
    ensures CountersAre(Tick(defaultSize, core, input).core, [])
  {
  }

  lemma ConfirmedNeedsEither(core: Core, input: Input)
    ensures !(ClearsAfter(core, input) && ClearsBefore(core, input))
  {
  }

  /** At the end of every run of a process that started with fresh counters, each counter is
      the number of evaluated ticks in a row in its zone since the counters were last cleared.
      Failovers, restores, acknowledged resizes and confirmed loads without room clear them;
      ticks that evaluate nothing, refused SETs and lost replies do not. */
  lemma {:induction false} CountersExactly(defaultSize: int, core: Core, inputs: seq<Input>)
    requires core.above == core.below == 0
    ensures var counted := inputs[CountedFrom(defaultSize, core, inputs)..];
            var now := Run(defaultSize, core, inputs);
            now.above == ZoneStreak(counted, Above) && now.below == ZoneStreak(counted, Below)
  {
    if inputs != [] {
      var n := |inputs| - 1;
      var now, from := Run(defaultSize, core, inputs[..n]), CountedFrom(defaultSize, core, inputs);
      CountersExactly(defaultSize, core, inputs[..n]);
      if ClearsAfter(now, inputs[n]) {
        TickClearsAfter(defaultSize, now, inputs[n]);
        assert inputs[from..] == [];
      } else if ClearsBefore(now, inputs[n]) {
        TickClearsBefore(defaultSize, now, inputs[n]);
        assert inputs[from..] == [inputs[n]];
      } else {
        TickCounts(defaultSize, now, inputs[n], inputs[..n][from..]);
        assert inputs[from..] == inputs[..n][from..] + [inputs[n]];
      }
    }
  }

  // ----- A resize that is not acknowledged ------------------------------------------------

  /** Every tick reads the zone against the same limit, and no resize is acknowledged. */
  predicate Unanswered(inputs: seq<Input>, zone: Zone, maxConns: int) {
    forall i :: 0 <= i < |inputs| ==>
      && !KeepsFence(inputs[i])
      && inputs[i].view.latest.value.maxConns == maxConns
      && ZoneRead(inputs[i].view) == zone
      && !inputs[i].answers.load.Applied?
  }

  /** A shrink that is not acknowledged is asked for again on every further heavy tick, for the
      same size, until it is: the counter keeps running and the tracked size stays. */
  lemma {:induction false} ShrinkIsRetried(defaultSize: int, core: Core, inputs: seq<Input>, maxConns: int, next: Input)
    requires !core.state.Suppressed() && core.above == core.below == 0 && core.state.currentPoolSize > 5
    requires Unanswered(inputs, Above, maxConns) && Unanswered([next], Above, maxConns)
    ensures Run(defaultSize, core, inputs) == Core(core.state, |inputs|, 0)
    ensures var e := SetPool(Shrink, Max(core.state.currentPoolSize - 5, 5), next.answers.load);
            e in Tick(defaultSize, Run(defaultSize, core, inputs), next).effects <==> |inputs| >= 2
  {
    assert [next][0] == next;
    if inputs != [] {
      var n := |inputs| - 1;
      assert Unanswered([inputs[n]], Above, maxConns);
      ShrinkIsRetried(defaultSize, core, inputs[..n], maxConns, inputs[n]);
    }
  }

  /** So is a growth. */
  lemma {:induction false} GrowthIsRetried(defaultSize: int, core: Core, inputs: seq<Input>, maxConns: int, next: Input)
    requires !core.state.Suppressed() && core.above == core.below == 0 && core.state.currentPoolSize < maxConns
    requires Unanswered(inputs, Below, maxConns) && Unanswered([next], Below, maxConns)
    ensures Run(defaultSize, core, inputs) == Core(core.state, 0, |inputs|)
    ensures var e := SetPool(Grow, Min(core.state.currentPoolSize + 5, maxConns), next.answers.load);
            e in Tick(defaultSize, Run(defaultSize, core, inputs), next).effects <==> |inputs| >= 5
  {
    assert [next][0] == next;
    if inputs != [] {
      var n := |inputs| - 1;
      assert Unanswered([inputs[n]], Below, maxConns);
      GrowthIsRetried(defaultSize, core, inputs[..n], maxConns, inputs[n]);
    }
  }
}
