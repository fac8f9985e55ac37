/** Fencing: what happens to the pool while the node's role says it must not take traffic,
    over every run of one process. */
module EngineFencing {
  import opened Common
  import opened StateFile
  import opened EngineModel
  import opened EngineAgreement

  /** A tick that reads a fencing role. */
  predicate Fences(input: Input) {
    input.view.latest.Some? && FencedRole(input.view.role)
  }

  /** A tick that reads nothing or a fencing role: one that cannot end a suppression. */
  predicate KeepsFence(input: Input) {
    input.view.latest.None? || FencedRole(input.view.role)
  }

  predicate IsSuppress(e: Effect) {
    e.SetPool? && e.kind.Suppress?
  }

  predicate IsRestore(e: Effect) {
    e.SetPool? && e.kind.Restore?
  }

  predicate Restores(e: Effect) {
    IsRestore(e) && e.outcome.Applied?
  }

  // ----- One SET 0 per episode --------------------------------------------------------

  /** Whether a suppression is open, judged from the effects alone. */
  function OpenAfter(open: bool, effects: seq<Effect>): bool {
    if effects == [] then open
    else
      var last := effects[|effects| - 1];
      if IsSuppress(last) then true
      else if Restores(last) then false
      else OpenAfter(open, effects[..|effects| - 1])
  }

  /** SET 0 is only ever issued while no suppression is open. */
  ghost predicate Orderly(open: bool, effects: seq<Effect>) {
    forall j :: 0 <= j < |effects| && IsSuppress(effects[j]) ==> !OpenAfter(open, effects[..j])
  }

  lemma {:induction false} OpenAfterConcat(open: bool, a: seq<Effect>, b: seq<Effect>)
    ensures OpenAfter(open, a + b) == OpenAfter(OpenAfter(open, a), b)
  {
    if b == [] {
      assert a + b == a;
    } else {
      assert (a + b)[..|a + b| - 1] == a + b[..|b| - 1];
      OpenAfterConcat(open, a, b[..|b| - 1]);
    }
  }

  lemma OrderlyConcat(open: bool, a: seq<Effect>, b: seq<Effect>)
    requires Orderly(open, a) && Orderly(OpenAfter(open, a), b)
    ensures Orderly(open, a + b)
  {
    forall j | 0 <= j < |a + b| && IsSuppress((a + b)[j])
      ensures !OpenAfter(open, (a + b)[..j])
    {
      if j < |a| {
        assert (a + b)[..j] == a[..j];
      } else {
        assert (a + b)[..j] == a + b[..j - |a|];
        OpenAfterConcat(open, a, b[..j - |a|]);
      }
    }
  }

  lemma OrderlyOne(open: bool, e: Effect)
    requires IsSuppress(e) ==> !open
    ensures Orderly(open, [e])
    ensures OpenAfter(open, [e]) == if IsSuppress(e) then true else if Restores(e) then false else open
  {
    assert [e][..0] == [];
  }

  /** Appending an effect that neither suppresses nor restores leaves everything as it was. */
  lemma OrderlyAppend(open: bool, a: seq<Effect>, e: Effect)
    requires Orderly(open, a) && !IsSuppress(e) && !Restores(e)
    ensures Orderly(open, a + [e]) && OpenAfter(open, a + [e]) == OpenAfter(open, a)
  {
    OrderlyOne(OpenAfter(open, a), e);
    OrderlyConcat(open, a, [e]);
    OpenAfterConcat(open, a, [e]);
  }

  lemma TickIsOrderly(defaultSize: int, core: Core, input: Input)
    ensures var o := Tick(defaultSize, core, input);
            && Orderly(core.state.Suppressed(), o.effects)
            && OpenAfter(core.state.Suppressed(), o.effects) == o.core.state.Suppressed()
  {
    var open, view, answers := core.state.Suppressed(), input.view, input.answers;
    if view.latest.None? {
    } else if FencedRole(view.role) {
      var o := HandleFailover(core, view.role, answers);
      if !open {
        OrderlyOne(open, o.effects[0]);
      }
      OrderlyAppend(open, o.effects, Save(o.core.state, answers.firstSave));
    } else {
      var first := MaybeRecover(defaultSize, core, answers);
      if open {
        var recovery := HandleRecovery(defaultSize, core, answers);
        OrderlyOne(open, recovery.effects[0]);
        OrderlyAppend(open, recovery.effects, Save(recovery.core.state, answers.firstSave));
      }
      var second := EvaluateLoad(first.core, ZoneRead(view), view.latest.value.maxConns, answers.load);
      if second.effects == [] {
        assert first.effects + second.effects == first.effects;
      } else {
        assert second.effects == [second.effects[0]];
        OrderlyAppend(open, first.effects, second.effects[0]);
      }
      OrderlyAppend(open, first.effects + second.effects, Save(second.core.state, answers.lastSave));
    }
  }

  lemma {:induction false} RunIsOrderly(defaultSize: int, core: Core, inputs: seq<Input>)
    ensures var trace := Trace(defaultSize, core, inputs);
            && Orderly(core.state.Suppressed(), trace)
            && OpenAfter(core.state.Suppressed(), trace) == Run(defaultSize, core, inputs).state.Suppressed()
  {
    if inputs != [] {
      var n := |inputs| - 1;
      var init, now := Trace(defaultSize, core, inputs[..n]), Run(defaultSize, core, inputs[..n]);
      RunIsOrderly(defaultSize, core, inputs[..n]);
      TickIsOrderly(defaultSize, now, inputs[n]);
      OrderlyConcat(core.state.Suppressed(), init, Tick(defaultSize, now, inputs[n]).effects);
      OpenAfterConcat(core.state.Suppressed(), init, Tick(defaultSize, now, inputs[n]).effects);
    }
  }

  lemma {:induction false} ClosedByRestore(open: bool, trace: seq<Effect>, i: nat, j: nat)
    requires i <= j <= |trace|
    requires OpenAfter(open, trace[..i]) && !OpenAfter(open, trace[..j])
    ensures exists k :: i <= k < j && Restores(trace[k])
    decreases j
  {
    if i < j {
      assert trace[..j][..j - 1] == trace[..j - 1];
      if !Restores(trace[j - 1]) {
        ClosedByRestore(open, trace, i, j - 1);
      }
    }
  }

  /** Over every run, two SETs to 0 are separated by a restore that was acknowledged: each
      suppression episode issues at most one. */
  lemma OneSuppressPerEpisode(defaultSize: int, core: Core, inputs: seq<Input>, trace: seq<Effect>)
    requires trace == Trace(defaultSize, core, inputs)
    ensures forall i, j :: 0 <= i < j < |trace| && IsSuppress(trace[i]) && IsSuppress(trace[j]) ==>
              exists k :: i < k < j && Restores(trace[k])
  {
    RunIsOrderly(defaultSize, core, inputs);
    forall i, j | 0 <= i < j < |trace| && IsSuppress(trace[i]) && IsSuppress(trace[j])
      ensures exists k :: i < k < j && Restores(trace[k])
    {
      assert trace[..i + 1][..i] == trace[..i];
      ClosedByRestore(core.state.Suppressed(), trace, i + 1, j);
    }
  }

  // ----- What a fencing tick does -----------------------------------------------------

  /** A tick that reads a fencing role asks PgBouncer for nothing but size 0. */
  lemma FencingTickAsksOnlyForZero(defaultSize: int, core: Core, input: Input)
    requires KeepsFence(input)
    ensures forall e :: e in Tick(defaultSize, core, input).effects && e.SetPool? ==> IsSuppress(e) && e.size == 0
    ensures Fences(input) ==> Tick(defaultSize, core, input).core.state.Suppressed()
    ensures core.state.Suppressed() ==> Tick(defaultSize, core, input).core == core
  {
  }

  /** Reading a fencing role does not by itself empty the pool. It is empty after such a tick
      exactly when it already was, or when the tick began the suppression and its SET took
      effect: an open suppression is never asserted again. */
  lemma FencingTickEmptiesPool(defaultSize: int, core: Core, input: Input, pool: int)
    requires Fences(input)
    ensures PoolAfter(pool, Tick(defaultSize, core, input).effects) == 0
            <==> pool == 0 || (!core.state.Suppressed() && !input.answers.suppress.Refused?)
  {
    PoolAfterTick(defaultSize, core, input, pool);
    PoolAfterFailover(core, input.view.role, input.answers, pool);
  }

  /** While nothing but fencing roles and empty windows are read, an open suppression keeps
      whatever size PgBouncer has, for any number of ticks. */
  lemma {:induction false} OpenSuppressionIsPassive(defaultSize: int, core: Core, inputs: seq<Input>, pool: int)
    requires core.state.Suppressed()
    requires forall i :: 0 <= i < |inputs| ==> KeepsFence(inputs[i])
    ensures Run(defaultSize, core, inputs) == core
    ensures PoolAfter(pool, Trace(defaultSize, core, inputs)) == pool
  {
    if inputs != [] {
      var n := |inputs| - 1;
      OpenSuppressionIsPassive(defaultSize, core, inputs[..n], pool);
      PoolAfterTick(defaultSize, core, inputs[n], pool);
      PoolAfterFailover(core, inputs[n].view.role, inputs[n].answers, pool);
      PoolAfterConcat(pool, Trace(defaultSize, core, inputs[..n]), Tick(defaultSize, core, inputs[n]).effects);
    }
  }

  /** A refused SET 0 is never retried: the node keeps its full pool through the whole
      failover, however many ticks report the fencing role. */
  lemma RefusedSuppressIsNeverRetried(
      defaultSize: int, core: Core, first: Input, o: Outcome, rest: seq<Input>, pool: int)
    requires !core.state.Suppressed() && Fences(first) && first.answers.suppress.Refused?
    requires o == Tick(defaultSize, core, first)
    requires forall i :: 0 <= i < |rest| ==> KeepsFence(rest[i])
    ensures PoolAfter(PoolAfter(pool, o.effects), Trace(defaultSize, o.core, rest)) == pool
  {
    PoolAfterTick(defaultSize, core, first, pool);
    PoolAfterFailover(core, first.view.role, first.answers, pool);
    OpenSuppressionIsPassive(defaultSize, o.core, rest, pool);
  }

  // ----- When every SET works ---------------------------------------------------------

  predicate SetsWork(inputs: seq<Input>) {
    forall i :: 0 <= i < |inputs| ==>
      inputs[i].answers.suppress.Applied? && inputs[i].answers.restore.Applied? && inputs[i].answers.load.Applied?
  }

  predicate Shut(state: EngineState, pool: int) {
    state.Suppressed() ==> state.currentPoolSize == 0 && pool == 0
  }

  lemma TickKeepsShut(defaultSize: int, core: Core, input: Input, pool: int)
    requires Shut(core.state, pool) && SetsWork([input])
    ensures var o := Tick(defaultSize, core, input);
            Shut(o.core.state, PoolAfter(pool, o.effects))
  {
    assert [input][0] == input;
    PoolAfterTick(defaultSize, core, input, pool);
    PoolAfterFailover(core, input.view.role, input.answers, pool);
  }

  lemma {:induction false} RunKeepsShut(defaultSize: int, core: Core, inputs: seq<Input>, pool: int)
    requires Shut(core.state, pool) && SetsWork(inputs)
    ensures Shut(Run(defaultSize, core, inputs).state, PoolAfter(pool, Trace(defaultSize, core, inputs)))
  {
    if inputs != [] {
      var n := |inputs| - 1;
      var init, now := Trace(defaultSize, core, inputs[..n]), Run(defaultSize, core, inputs[..n]);
      RunKeepsShut(defaultSize, core, inputs[..n], pool);
      assert SetsWork([inputs[n]]);
      TickKeepsShut(defaultSize, now, inputs[n], PoolAfter(pool, init));
      PoolAfterConcat(pool, init, Tick(defaultSize, now, inputs[n]).effects);
    }
  }

  lemma {:induction false} StaysSuppressed(defaultSize: int, core: Core, inputs: seq<Input>, from: nat)
    requires from < |inputs| && Fences(inputs[from])
    requires forall i :: from < i < |inputs| ==> KeepsFence(inputs[i])
    ensures Run(defaultSize, core, inputs).state.Suppressed()
  {
    var n := |inputs| - 1;
    if from < n {
      StaysSuppressed(defaultSize, core, inputs[..n], from);
    }
    FencingTickAsksOnlyForZero(defaultSize, Run(defaultSize, core, inputs[..n]), inputs[n]);
  }

  /** When every SET works and the process started unsuppressed, PgBouncer's real size is 0
      from the first tick that reads a fencing role until a tick reads another. */
  lemma FencedUntilPrimary(defaultSize: int, core: Core, inputs: seq<Input>, from: nat, pool: int)
    requires !core.state.Suppressed() && SetsWork(inputs)
    requires from < |inputs| && Fences(inputs[from])
    requires forall i :: from < i < |inputs| ==> KeepsFence(inputs[i])
    ensures PoolAfter(pool, Trace(defaultSize, core, inputs)) == 0
  {
    RunKeepsShut(defaultSize, core, inputs, pool);
    StaysSuppressed(defaultSize, core, inputs, from);
  }

  // ----- The leak ---------------------------------------------------------------------

  /** How many inputs it took until the suppression that is open at the end of a run began;
      none if it was open when the process started. */
  function EpisodeStart(defaultSize: int, core: Core, inputs: seq<Input>): (n: nat)
    ensures n <= |inputs|
  {
    if inputs == [] then 0
    else
      var n := |inputs| - 1;
      if !Run(defaultSize, core, inputs[..n]).state.Suppressed() then |inputs|
      else EpisodeStart(defaultSize, core, inputs[..n])
  }

  /** The inputs after that. */
  function Episode(defaultSize: int, core: Core, inputs: seq<Input>): seq<Input> {
    inputs[EpisodeStart(defaultSize, core, inputs)..]
  }

  /** The memory with which the episode began. */
  function CoreBefore(defaultSize: int, core: Core, inputs: seq<Input>): Core {
    Run(defaultSize, core, inputs[..EpisodeStart(defaultSize, core, inputs)])
  }

  /** PgBouncer's size at that moment. */
  function PoolBefore(defaultSize: int, core: Core, inputs: seq<Input>, pool: int): int {
    PoolAfter(pool, Trace(defaultSize, core, inputs[..EpisodeStart(defaultSize, core, inputs)]))
  }

  lemma EpisodeExtends(defaultSize: int, core: Core, inputs: seq<Input>)
    requires inputs != []
    ensures var n, start := |inputs| - 1, EpisodeStart(defaultSize, core, inputs);
            var init := inputs[..n];
            if Run(defaultSize, core, init).state.Suppressed() then
              && Episode(defaultSize, core, inputs) == Episode(defaultSize, core, init) + [inputs[n]]
              && inputs[..start] == init[..EpisodeStart(defaultSize, core, init)]
            else
              Episode(defaultSize, core, inputs) == [] && inputs[..start] == inputs
  {
    var n, start := |inputs| - 1, EpisodeStart(defaultSize, core, inputs);
    if Run(defaultSize, core, inputs[..n]).state.Suppressed() {
      CutInTwo(inputs, start);
    }
  }

  lemma CutInTwo(inputs: seq<Input>, start: nat)
    requires inputs != [] && start < |inputs|
    ensures var n := |inputs| - 1;
            inputs[..start] == inputs[..n][..start] && inputs[start..] == inputs[..n][start..] + [inputs[n]]
  {
  }

  /** A process that starts suppressed does so with fresh counters, tracking what is a size. */
  predicate FreshlySuppressed(core: Core) {
    core.state.Suppressed() ==> core.below == 0 && core.state.currentPoolSize >= 0
  }

  lemma BootIsFresh(defaultSize: int, world: World, queryAnswered: bool)
    requires 0 <= defaultSize && 0 <= world.pool
    requires world.disk.Some? ==> 0 <= world.disk.value.currentPoolSize
    ensures FreshlySuppressed(Boot(defaultSize, world, queryAnswered))
  {
  }

  ghost predicate FailsRestore(effects: seq<Effect>) {
    exists e :: e in effects && IsRestore(e) && !Restores(e)
  }

  /** Restore SETs reported as failed in the suppression that is open at the end of a run. */
  ghost function FailuresInEpisode(defaultSize: int, core: Core, inputs: seq<Input>): nat {
    if inputs == [] then 0
    else
      var n := |inputs| - 1;
      var o := Tick(defaultSize, Run(defaultSize, core, inputs[..n]), inputs[n]);
      if !o.core.state.Suppressed() then 0
      else FailuresInEpisode(defaultSize, core, inputs[..n]) + (if FailsRestore(o.effects) then 1 else 0)
  }

  /** The scale-up counter of a suppressed engine at size 0 is paid for by failed restores. */
  predicate LeakPaid(core: Core, failures: nat) {
    core.state.Suppressed() ==>
      failures >= 6 || (core.state.currentPoolSize == 0 && core.below <= failures)
  }

  lemma TickKeepsLeakPaid(defaultSize: int, core: Core, input: Input, failures: nat)
    requires LeakPaid(core, failures)
    ensures var o := Tick(defaultSize, core, input);
            LeakPaid(o.core, failures + (if FailsRestore(o.effects) then 1 else 0))
  {
    var o := Tick(defaultSize, core, input);
    if core.state.Suppressed() && !KeepsFence(input) && !input.answers.restore.Applied? {
      assert o.effects[0] == SetPool(Restore, RestoreSize(defaultSize, core.state), input.answers.restore);
      assert o.effects[0] in o.effects;
      assert FailsRestore(o.effects);
    }
  }

  lemma {:induction false} RunKeepsLeakPaid(defaultSize: int, core: Core, inputs: seq<Input>)
    requires FreshlySuppressed(core)
    ensures CoreBefore(defaultSize, core, inputs).state.currentPoolSize == 0 ==>
              LeakPaid(Run(defaultSize, core, inputs), FailuresInEpisode(defaultSize, core, inputs))
  {
    if inputs == [] {
      assert inputs[..0] == inputs;
    } else {
      var n := |inputs| - 1;
      var now := Run(defaultSize, core, inputs[..n]);
      EpisodeExtends(defaultSize, core, inputs);
      RunKeepsLeakPaid(defaultSize, core, inputs[..n]);
      if now.state.Suppressed() ==> CoreBefore(defaultSize, core, inputs).state.currentPoolSize == 0 {
        TickKeepsLeakPaid(defaultSize, now, inputs[n], FailuresInEpisode(defaultSize, core, inputs[..n]));
      }
    }
  }

  /** A suppressed engine that tracks a non-zero size either did so when the process started,
      already suppressed, or has seen at least six restores fail since the suppression began. */
  lemma LeakNeedsSixFailures(defaultSize: int, core: Core, inputs: seq<Input>)
    requires FreshlySuppressed(core)
    requires var state := Run(defaultSize, core, inputs).state;
             state.Suppressed() && state.currentPoolSize != 0
    ensures CoreBefore(defaultSize, core, inputs).state.currentPoolSize != 0
            || FailuresInEpisode(defaultSize, core, inputs) >= 6
  {
    RunKeepsLeakPaid(defaultSize, core, inputs);
  }

  /** The guard of the leak. A tick leaves a suppressed engine of size 0 suppressed with
      another size exactly when its restore fails, its load is light, five light ticks are
      already counted, and the SET of the scale-up works. */
  lemma TickLeaksIff(defaultSize: int, core: Core, input: Input)
    requires core.state.Suppressed() && core.state.currentPoolSize == 0
    ensures var state := Tick(defaultSize, core, input).core.state;
            state.Suppressed() && state.currentPoolSize != 0
            <==> LightWithRoom(input) && !input.answers.restore.Applied? && core.below >= 5
  {
  }

  /** A light load is read and the SET of a scale-up would work. */
  predicate LightWithRoom(input: Input) {
    !KeepsFence(input) && ZoneRead(input.view) == Below && input.answers.load.Applied?
  }

  /** How many evaluated inputs in a row, at the end, read a load in the zone. */
  function ZoneStreak(inputs: seq<Input>, zone: Zone): nat {
    if inputs == [] then 0
    else
      var n := |inputs| - 1;
      if KeepsFence(inputs[n]) || ZoneRead(inputs[n].view).Invalid? then ZoneStreak(inputs[..n], zone)
      else if ZoneRead(inputs[n].view) == zone then ZoneStreak(inputs[..n], zone) + 1
      else 0
  }

  function LightStreak(inputs: seq<Input>): nat {
    ZoneStreak(inputs, Below)
  }

  /** Somewhere among these inputs a scale-up works that is the sixth light one in a row. */
  ghost predicate Leaks(inputs: seq<Input>) {
    exists k :: 0 <= k < |inputs| && LeaksAt(inputs, k)
  }

  predicate LeaksAt(inputs: seq<Input>, k: nat)
    requires k < |inputs|
  {
    LightStreak(inputs[..k]) >= 5 && LightWithRoom(inputs[k])
  }

  lemma LeaksExtends(inputs: seq<Input>, next: Input)
    ensures Leaks(inputs + [next]) <==> Leaks(inputs) || (LightStreak(inputs) >= 5 && LightWithRoom(next))
    ensures LightStreak((inputs + [next])[..|inputs|]) == LightStreak(inputs)
  {
    var all := inputs + [next];
    assert all[..|inputs|] == inputs;
    assert LeaksAt(all, |inputs|) <==> LightStreak(inputs) >= 5 && LightWithRoom(next);
    forall k | 0 <= k < |inputs|
      ensures LeaksAt(all, k) <==> LeaksAt(inputs, k)
    {
      assert all[..k] == inputs[..k];
    }
    if Leaks(inputs) {
      var k :| 0 <= k < |inputs| && LeaksAt(inputs, k);
      assert LeaksAt(all, k);
    }
  }

  /** A suppressed engine tracks a size exactly if it did before the episode, or the episode
      says so; until then its scale-up counter is the streak of light ticks. */
  ghost predicate LeakLaw(core: Core, before: int, episode: seq<Input>) {
    core.state.Suppressed() ==>
      && core.state.currentPoolSize >= 0
      && (core.state.currentPoolSize != 0 <==> before != 0 || Leaks(episode))
      && (core.state.currentPoolSize == 0 ==> core.below == LightStreak(episode))
  }

  lemma TickKeepsLeakLaw(defaultSize: int, core: Core, before: int, episode: seq<Input>, input: Input)
    requires core.state.Suppressed() && LeakLaw(core, before, episode)
    ensures LeakLaw(Tick(defaultSize, core, input).core, before, episode + [input])
  {
    LeaksExtends(episode, input);
  }

  lemma {:induction false} RunKeepsLeakLaw(defaultSize: int, core: Core, inputs: seq<Input>)
    requires FreshlySuppressed(core)
    ensures LeakLaw(Run(defaultSize, core, inputs),
                    CoreBefore(defaultSize, core, inputs).state.currentPoolSize, Episode(defaultSize, core, inputs))
  {
    if inputs == [] {
      assert inputs[..0] == inputs[0..] == inputs;
    } else {
      var n := |inputs| - 1;
      var now := Run(defaultSize, core, inputs[..n]);
      EpisodeExtends(defaultSize, core, inputs);
      if now.state.Suppressed() {
        RunKeepsLeakLaw(defaultSize, core, inputs[..n]);
        TickKeepsLeakLaw(defaultSize, now, CoreBefore(defaultSize, core, inputs).state.currentPoolSize,
                         Episode(defaultSize, core, inputs[..n]), inputs[n]);
      } else {
        OpeningTick(defaultSize, now, inputs[n]);
      }
    }
  }

  /** A tick that leaves an engine suppressed which was not has just begun. */
  lemma OpeningTick(defaultSize: int, core: Core, input: Input)
    requires !core.state.Suppressed()
    ensures var after := Tick(defaultSize, core, input).core;
            after.state.Suppressed() ==> after.state.currentPoolSize == 0 && after.above == after.below == 0
  {
  }

  /** The leak in the tracked size, over every run of every process: a suppressed engine tracks
      a non-zero size exactly when the process started so, or when, since the suppression
      began, an evaluated light tick that was at least the sixth in a row found its SET
      working. No input later in the episode takes the tracked size back to 0. */
  lemma LeakExactly(defaultSize: int, core: Core, inputs: seq<Input>, episode: seq<Input>)
    requires FreshlySuppressed(core)
    requires Run(defaultSize, core, inputs).state.Suppressed()
    requires episode == Episode(defaultSize, core, inputs)
    ensures Run(defaultSize, core, inputs).state.currentPoolSize != 0
            <==> CoreBefore(defaultSize, core, inputs).state.currentPoolSize != 0
                 || exists k :: 0 <= k < |episode| && LeaksAt(episode, k)
  {
    RunKeepsLeakLaw(defaultSize, core, inputs);
  }

  // ----- PgBouncer's own size under suppression -----------------------------------------

  /** A tick puts connections into the pool, judged before it runs: a restore takes effect, with
      or without a reply, or a resize is due and its SET takes effect. */
  predicate OpensPool(core: Core, input: Input) {
    && !KeepsFence(input)
    && (!input.answers.restore.Refused?
        || (ResizeDue(core, ZoneRead(input.view), input.view.latest.value.maxConns)
            && !input.answers.load.Refused?))
  }

  lemma LoadOpensIff(core: Core, zone: Zone, maxConns: int, answer: SetOutcome, pool: int)
    requires core.state.currentPoolSize >= 0
    ensures var o := EvaluateLoad(core, zone, maxConns, answer);
            PoolAfter(pool, o.effects) != 0 <==> pool != 0 || (ResizeDue(core, zone, maxConns) && !answer.Refused?)
  {
    var o := EvaluateLoad(core, zone, maxConns, answer);
    if o.effects != [] {
      PoolAfterOne(pool, o.effects[0]);
      assert o.effects == [o.effects[0]];
    }
  }

  /** The pool of a suppressed engine is open after a tick exactly if it was before, or the tick
      opens it. The size tracked plays no part: a lost reply opens the pool unnoticed. */
  lemma TickOpensPoolIff(defaultSize: int, core: Core, input: Input, pool: int)
    requires defaultSize > 0 && core.state.Suppressed() && core.state.currentPoolSize >= 0
    ensures PoolAfter(pool, Tick(defaultSize, core, input).effects) != 0 <==> pool != 0 || OpensPool(core, input)
  {
    var Input(view, answers) := input;
    PoolAfterTick(defaultSize, core, input, pool);
    PoolAfterFailover(core, view.role, answers, pool);
    if !KeepsFence(input) {
      var first := MaybeRecover(defaultSize, core, answers);
      LoadOpensIff(first.core, ZoneRead(view), view.latest.value.maxConns, answers.load,
                   AfterRecovery(defaultSize, core, answers, pool));
    }
  }

  lemma SuppressedTick(defaultSize: int, core: Core, input: Input)
    requires core.state.Suppressed() && core.state.currentPoolSize >= 0
    ensures var after := Tick(defaultSize, core, input).core;
            && (after.state.Suppressed() <==> KeepsFence(input) || !input.answers.restore.Applied?)
            && (after.state.Suppressed() ==> after.state.currentPoolSize >= 0)
  {
  }

  /** Some tick from the given one on opens the pool. */
  ghost predicate OpenedSince(defaultSize: int, core: Core, inputs: seq<Input>, from: nat) {
    exists k :: from <= k < |inputs| && OpensPool(Run(defaultSize, core, inputs[..k]), inputs[k])
  }

  lemma OpenedSinceExtends(defaultSize: int, core: Core, inputs: seq<Input>, from: nat)
    requires from < |inputs|
    ensures var n := |inputs| - 1;
            OpenedSince(defaultSize, core, inputs, from)
            <==> OpenedSince(defaultSize, core, inputs[..n], from)
                 || OpensPool(Run(defaultSize, core, inputs[..n]), inputs[n])
  {
    var n := |inputs| - 1;
    forall k | 0 <= k < n
      ensures OpensPool(Run(defaultSize, core, inputs[..n][..k]), inputs[..n][k])
              <==> OpensPool(Run(defaultSize, core, inputs[..k]), inputs[k])
    {
      assert inputs[..n][..k] == inputs[..k];
    }
  }

  /** PgBouncer's size over every run that ends suppressed, whatever size the process started
      with: the pool is open exactly if it was when the episode began, or some tick of the
      episode opened it. Nothing within an episode closes it again. */
  lemma {:induction false} PoolOpenIffOpened(defaultSize: int, core: Core, inputs: seq<Input>, pool: int)
    requires defaultSize > 0 && (core.state.Suppressed() ==> core.state.currentPoolSize >= 0)
    requires Run(defaultSize, core, inputs).state.Suppressed()
    ensures Run(defaultSize, core, inputs).state.currentPoolSize >= 0
    ensures PoolAfter(pool, Trace(defaultSize, core, inputs)) != 0
            <==> PoolBefore(defaultSize, core, inputs, pool) != 0
                 || OpenedSince(defaultSize, core, inputs, EpisodeStart(defaultSize, core, inputs))
  {
    if inputs == [] {
      assert inputs[..0] == inputs;
    } else {
      var n := |inputs| - 1;
      var init, now := Trace(defaultSize, core, inputs[..n]), Run(defaultSize, core, inputs[..n]);
      EpisodeExtends(defaultSize, core, inputs);
      if now.state.Suppressed() {
        PoolOpenIffOpened(defaultSize, core, inputs[..n], pool);
        OpenedSinceExtends(defaultSize, core, inputs, EpisodeStart(defaultSize, core, inputs));
        TickOpensPoolIff(defaultSize, now, inputs[n], PoolAfter(pool, init));
        SuppressedTick(defaultSize, now, inputs[n]);
        PoolAfterConcat(pool, init, Tick(defaultSize, now, inputs[n]).effects);
      } else {
        OpeningTick(defaultSize, now, inputs[n]);
      }
    }
  }

  /** The input at k opens the pool, judged from the inputs of the episode alone: its restore
      takes effect although the reply is lost, or it is at least the sixth light tick in a row
      and its SET takes effect. */
  predicate OpensAt(episode: seq<Input>, k: nat)
    requires k < |episode|
  {
    && !KeepsFence(episode[k])
    && (episode[k].answers.restore.LostReply?
        || (LightStreak(episode[..k]) >= 5
            && ZoneRead(episode[k].view) == Below
            && !episode[k].answers.load.Refused?))
  }

  ghost predicate Opens(episode: seq<Input>) {
    exists k :: 0 <= k < |episode| && OpensAt(episode, k)
  }

  lemma OpensExtends(episode: seq<Input>, next: Input)
    ensures Opens(episode + [next]) <==> Opens(episode) || OpensAt(episode + [next], |episode|)
    ensures (episode + [next])[..|episode|] == episode
  {
    var all := episode + [next];
    forall k | 0 <= k < |episode|
      ensures OpensAt(all, k) <==> OpensAt(episode, k)
    {
      assert all[..k] == episode[..k];
    }
    if Opens(episode) {
      var k :| 0 <= k < |episode| && OpensAt(episode, k);
      assert OpensAt(all, k);
    }
  }

  /** A suppressed engine that tracks a size knows of connections that PgBouncer has. */
  predicate NoPhantomPool(core: Core, pool: int) {
    core.state.Suppressed() && core.state.currentPoolSize != 0 ==> pool != 0
  }

  ghost predicate PoolLaw(core: Core, pool: int, sizeBefore: int, poolBefore: int, episode: seq<Input>) {
    && LeakLaw(core, sizeBefore, episode)
    && NoPhantomPool(core, pool)
    && (core.state.Suppressed() ==> (pool != 0 <==> poolBefore != 0 || Opens(episode)))
  }

  /** When a resize is due on a suppressed engine that tracks 0. */
  lemma DueAtZero(core: Core, episode: seq<Input>, input: Input)
    requires core.state.currentPoolSize == 0 && core.below == LightStreak(episode) && !KeepsFence(input)
    ensures ResizeDue(core, ZoneRead(input.view), input.view.latest.value.maxConns)
            <==> LightStreak(episode) >= 5 && ZoneRead(input.view) == Below
  {
  }

  lemma TickKeepsPoolLaw(defaultSize: int, core: Core, pool: int, sizeBefore: int, poolBefore: int,
                         episode: seq<Input>, input: Input)
    requires defaultSize > 0 && core.state.Suppressed()
    requires PoolLaw(core, pool, sizeBefore, poolBefore, episode)
    ensures var o := Tick(defaultSize, core, input);
            PoolLaw(o.core, PoolAfter(pool, o.effects), sizeBefore, poolBefore, episode + [input])
  {
    TickKeepsLeakLaw(defaultSize, core, sizeBefore, episode, input);
    TickOpensPoolIff(defaultSize, core, input, pool);
    SuppressedTick(defaultSize, core, input);
    OpensExtends(episode, input);
    if pool == 0 && !KeepsFence(input) {
      DueAtZero(core, episode, input);
      TickLeaksIff(defaultSize, core, input);
    }
  }

  lemma {:induction false} RunKeepsPoolLaw(defaultSize: int, core: Core, inputs: seq<Input>, pool: int)
    requires defaultSize > 0 && FreshlySuppressed(core) && NoPhantomPool(core, pool)
    ensures PoolLaw(Run(defaultSize, core, inputs), PoolAfter(pool, Trace(defaultSize, core, inputs)),
                    CoreBefore(defaultSize, core, inputs).state.currentPoolSize,
                    PoolBefore(defaultSize, core, inputs, pool), Episode(defaultSize, core, inputs))
  {
    RunKeepsLeakLaw(defaultSize, core, inputs);
    if inputs == [] {
      assert inputs[..0] == inputs[0..] == inputs;
    } else {
      var n := |inputs| - 1;
      var init, now := Trace(defaultSize, core, inputs[..n]), Run(defaultSize, core, inputs[..n]);
      EpisodeExtends(defaultSize, core, inputs);
      if now.state.Suppressed() {
        RunKeepsPoolLaw(defaultSize, core, inputs[..n], pool);
        TickKeepsPoolLaw(defaultSize, now, PoolAfter(pool, init),
                         CoreBefore(defaultSize, core, inputs).state.currentPoolSize,
                         PoolBefore(defaultSize, core, inputs, pool),
                         Episode(defaultSize, core, inputs[..n]), inputs[n]);
        PoolAfterConcat(pool, init, Tick(defaultSize, now, inputs[n]).effects);
      } else {
        OpeningTick(defaultSize, now, inputs[n]);
      }
    }
  }

  /** The pool of a suppressed node, decided by inputs alone. At the end of any run that ends
      suppressed PgBouncer has connections exactly if it had them when the suppression began,
      or, in a process that started suppressed, when that started; or since then a restore
      took effect whose reply was lost, or the SET of an evaluated light tick that was at
      least the sixth in a row took effect, with or without a reply. */
  lemma PoolOpensExactly(defaultSize: int, core: Core, inputs: seq<Input>, pool: int, episode: seq<Input>)
    requires defaultSize > 0 && FreshlySuppressed(core) && NoPhantomPool(core, pool)
    requires Run(defaultSize, core, inputs).state.Suppressed()
    requires episode == Episode(defaultSize, core, inputs)
    ensures PoolAfter(pool, Trace(defaultSize, core, inputs)) != 0
            <==> PoolBefore(defaultSize, core, inputs, pool) != 0
                 || exists k :: 0 <= k < |episode| && OpensAt(episode, k)
  {
    RunKeepsPoolLaw(defaultSize, core, inputs, pool);
  }

  /** Every process that asked PgBouncer for its size starts so. */
  lemma BootHasNoPhantomPool(defaultSize: int, world: World)
    ensures NoPhantomPool(Boot(defaultSize, world, true), world.pool)
  {
  }

  /** One lost reply is enough: a single restore that takes effect unnoticed opens the pool to
      the size remembered, and fencing roles leave it so while the engine tracks 0. */
  lemma LostRestoreOpensPool(defaultSize: int, core: Core, lost: Input, fenced: seq<Input>)
    requires core.state.Suppressed() && core.state.currentPoolSize == 0
    requires !KeepsFence(lost) && lost.answers.restore.LostReply? && ZoneRead(lost.view) == Middle
    requires forall i :: 0 <= i < |fenced| ==> KeepsFence(fenced[i])
    ensures var o := Tick(defaultSize, core, lost);
            && Run(defaultSize, o.core, fenced).state == core.state
            && PoolAfter(PoolAfter(0, o.effects), Trace(defaultSize, o.core, fenced))
               == RestoreSize(defaultSize, core.state)
  {
    var o := Tick(defaultSize, core, lost);
    PoolAfterTick(defaultSize, core, lost, 0);
    assert PoolAfter(RestoreSize(defaultSize, core.state), []) == RestoreSize(defaultSize, core.state);
    OpenSuppressionIsPassive(defaultSize, o.core, fenced, PoolAfter(0, o.effects));
  }

  // ----- Six failures in a row --------------------------------------------------------

  /** A tick on which the restore fails and the load is light. */
  predicate FailsLightly(input: Input, maxConns: int) {
    && !KeepsFence(input)
    && input.view.latest.value.maxConns == maxConns
    && ZoneRead(input.view) == Below
    && !input.answers.restore.Applied?
    && input.answers.load.Applied?
  }

  lemma {:induction false} LightFailuresCount(defaultSize: int, core: Core, inputs: seq<Input>, maxConns: int)
    requires core.state.Suppressed() && core.state.currentPoolSize == 0 && core.above == core.below == 0
    requires |inputs| < 6 && forall i :: 0 <= i < |inputs| ==> FailsLightly(inputs[i], maxConns)
    ensures Run(defaultSize, core, inputs) == Core(core.state, 0, |inputs|)
  {
    if inputs != [] {
      var n := |inputs| - 1;
      LightFailuresCount(defaultSize, core, inputs[..n], maxConns);
      assert FailsLightly(inputs[n], maxConns);
    }
  }

  /** Six are enough: six failed restores under light load grow the pool of a suppressed node
      from 0, and while fencing roles return the size stays there. */
  lemma SixFailuresLeak(defaultSize: int, core: Core, inputs: seq<Input>, leaked: Core,
                        fenced: seq<Input>, maxConns: int, pool: int)
    requires core.state.Suppressed() && core.state.currentPoolSize == 0 && core.above == core.below == 0
    requires |inputs| == 6 && forall i :: 0 <= i < |inputs| ==> FailsLightly(inputs[i], maxConns)
    requires leaked == Run(defaultSize, core, inputs)
    requires forall i :: 0 <= i < |fenced| ==> KeepsFence(fenced[i])
    ensures leaked.state.Suppressed() && leaked.state.currentPoolSize == Min(5, maxConns) > 0
    ensures PoolAfter(PoolAfter(pool, Trace(defaultSize, core, inputs)), Trace(defaultSize, leaked, fenced))
            == Min(5, maxConns)
  {
    LightFailuresCount(defaultSize, core, inputs[..5], maxConns);
    var before := Run(defaultSize, core, inputs[..5]);
    assert FailsLightly(inputs[5], maxConns);
    var mid := PoolAfter(pool, Trace(defaultSize, core, inputs[..5]));
    PoolAfterTick(defaultSize, before, inputs[5], mid);
    PoolAfterLoad(before, Below, maxConns, inputs[5].answers.load,
                  After(mid, RestoreSize(defaultSize, before.state), inputs[5].answers.restore));
    PoolAfterConcat(pool, Trace(defaultSize, core, inputs[..5]), Tick(defaultSize, before, inputs[5]).effects);
    OpenSuppressionIsPassive(defaultSize, leaked, fenced, Min(5, maxConns));
  }
}
