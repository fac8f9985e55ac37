/** Runs across process lives: a tick can be cut short by a crash after any of its effects,
    and a new process starts from what is on disk. */
module EngineCrash {
  import opened Common
  import opened StateFile
  import opened EngineModel
  import opened EngineHysteresis
  import opened EngineFencing

  /** The outside world together with the engine process, if one is alive. */
  datatype Plant = Plant(world: World, process: Option<Core>)

  /** A whole tick; a tick killed after its first `reached` effects; or a process start that
      can or cannot ask PgBouncer for its size. */
  datatype Event =
    | Ticked(input: Input)
    | Crashed(input: Input, reached: nat)
    | Started(queryAnswered: bool)

  /** What an event does to the outside, in order. */
  function EffectsOf(defaultSize: int, plant: Plant, event: Event): seq<Effect> {
    if plant.process.None? then []
    else match event
      case Ticked(input) => Tick(defaultSize, plant.process.value, input).effects
      case Crashed(input, reached) =>
        var effects := Tick(defaultSize, plant.process.value, input).effects;
        effects[..Min(reached, |effects|)]
      case Started(_) => []
  }

  function Next(defaultSize: int, plant: Plant, event: Event): Plant {
    var world := PerformAll(plant.world, EffectsOf(defaultSize, plant, event));
    match event
    case Ticked(input) =>
      if plant.process.None? then plant
      else Plant(world, Some(Tick(defaultSize, plant.process.value, input).core))
    case Crashed(_, _) => Plant(world, None)
    case Started(queryAnswered) =>
      if plant.process.Some? then plant
      else Plant(world, Some(Boot(defaultSize, world, queryAnswered)))
  }

  function After(defaultSize: int, plant: Plant, events: seq<Event>): Plant {
    if events == [] then plant
    else
      var n := |events| - 1;
      Next(defaultSize, After(defaultSize, plant, events[..n]), events[n])
  }

  function History(defaultSize: int, plant: Plant, events: seq<Event>): seq<Effect> {
    if events == [] then []
    else
      var n := |events| - 1;
      History(defaultSize, plant, events[..n])
      + EffectsOf(defaultSize, After(defaultSize, plant, events[..n]), events[n])
  }

  // ----- Disk -------------------------------------------------------------------------

  /** The states whose saves among these effects ran to the end. */
  ghost predicate SavesOnly(effects: seq<Effect>, p: EngineState -> bool) {
    forall e :: e in effects && e.Save? && e.stop.Done? ==> p(e.state)
  }

  predicate Persists(effects: seq<Effect>) {
    exists e :: e in effects && e.Save? && e.stop.Done?
  }

  /** The disk holds the state of some completed save among the effects, or what it held. */
  lemma {:induction false} DiskAfter(world: World, effects: seq<Effect>, p: EngineState -> bool)
    requires SavesOnly(effects, p)
    ensures var disk := PerformAll(world, effects).disk;
            || (disk.Some? && p(disk.value))
            || (disk == world.disk && !Persists(effects))
  {
    if effects != [] {
      var n := |effects| - 1;
      DiskAfter(world, effects[..n], p);
      forall e | e in effects && e.Save? && e.stop.Done? && e !in effects[..n]
        ensures e == effects[n]
      {
      }
    }
  }

  // ----- Crash-safe restore -----------------------------------------------------------

  /** The state remembers a suppression and the size before it. */
  predicate Remembers(state: EngineState, size: int) {
    state.Suppressed() && state.lastPoolSize == size
  }

  /** Both the disk and the process, if there is one, remember the suppression. */
  predicate Secured(plant: Plant, size: int) {
    && plant.world.disk.Some? && Remembers(plant.world.disk.value, size)
    && (plant.process.Some? ==> Remembers(plant.process.value.state, size))
  }

  /** The event restores the pool and that fact outlives it: the process goes on, or it
      crashed but only after a save that ran to the end. */
  predicate Releases(defaultSize: int, plant: Plant, event: Event) {
    var effects := EffectsOf(defaultSize, plant, event);
    && (exists e :: e in effects && Restores(e))
    && (event.Ticked? || Persists(effects))
  }

  /** How a tick of a suppressed process restores: the only SET if it works, and for the
      remembered size in any case. */
  lemma RestoringTick(defaultSize: int, core: Core, input: Input)
    requires core.state.Suppressed()
    ensures var o := Tick(defaultSize, core, input);
            && (forall e :: e in o.effects && IsRestore(e) ==> e.size == RestoreSize(defaultSize, core.state))
            && ((exists e :: e in o.effects && Restores(e)) <==> !KeepsFence(input) && input.answers.restore.Applied?)
            && ((exists e :: e in o.effects && Restores(e)) ==>
                  && |o.effects| == 3 && o.effects[1].Save? && o.effects[2].Save?
                  && Restores(o.effects[0])
                  && o.core.state.currentPoolSize == RestoreSize(defaultSize, core.state)
                  && !o.core.state.Suppressed())
            && (!(exists e :: e in o.effects && Restores(e)) ==>
                  && Remembers(o.core.state, core.state.lastPoolSize)
                  && SavesOnly(o.effects, s => Remembers(s, core.state.lastPoolSize)))
  {
    var o := Tick(defaultSize, core, input);
    if !KeepsFence(input) {
      var restore := SetPool(Restore, RestoreSize(defaultSize, core.state), input.answers.restore);
      assert o.effects[0] == restore;
      assert restore in o.effects;
    }
  }

  lemma EventKeepsSecured(defaultSize: int, plant: Plant, event: Event, size: int)
    requires Secured(plant, size) && !Releases(defaultSize, plant, event)
    ensures Secured(Next(defaultSize, plant, event), size)
  {
    if plant.process.Some? && !event.Started? {
      var core := plant.process.value;
      var o := Tick(defaultSize, core, event.input);
      var effects := EffectsOf(defaultSize, plant, event);
      RestoringTick(defaultSize, core, event.input);
      assert forall e :: e in effects ==> e in o.effects;
      if exists e :: e in o.effects && Restores(e) {
        if effects != [] {
          assert effects[0] in effects;
          assert !Persists(effects);
          DiskAfter(plant.world, effects, s => false);
        }
      } else {
        DiskAfter(plant.world, effects, s => Remembers(s, size));
      }
    } else {
      assert PerformAll(plant.world, []) == plant.world;
    }
  }

  /** No event among these releases the suppression. */
  predicate NeverReleases(defaultSize: int, plant: Plant, events: seq<Event>) {
    forall i :: 0 <= i < |events| ==> !Releases(defaultSize, After(defaultSize, plant, events[..i]), events[i])
  }

  lemma {:induction false} RunKeepsSecured(defaultSize: int, plant: Plant, events: seq<Event>, size: int)
    requires Secured(plant, size) && NeverReleases(defaultSize, plant, events)
    ensures Secured(After(defaultSize, plant, events), size)
  {
    if events != [] {
      var n := |events| - 1;
      forall i | 0 <= i < n
        ensures !Releases(defaultSize, After(defaultSize, plant, events[..n][..i]), events[..n][i])
      {
        assert events[..n][..i] == events[..i];
      }
      RunKeepsSecured(defaultSize, plant, events[..n], size);
      EventKeepsSecured(defaultSize, After(defaultSize, plant, events[..n]), events[n], size);
    }
  }

  lemma SecuredRestoresRemembered(defaultSize: int, plant: Plant, event: Event, size: int)
    requires Secured(plant, size)
    ensures var wanted := if size <= 0 then defaultSize else size;
            forall e :: e in EffectsOf(defaultSize, plant, event) && IsRestore(e) ==> e.size == wanted
  {
    if plant.process.Some? && !event.Started? {
      RestoringTick(defaultSize, plant.process.value, event.input);
    }
  }

  /** Crash-safe restore. From a secured suppression, any sequence of crashes at any point,
      including between a successful restore and its save, of restarts, fencing ticks, empty
      windows and failed restores keeps the remembered size, and every restore ever attempted
      asks for it. */
  lemma {:induction false} CrashSafeRestore(defaultSize: int, plant: Plant, events: seq<Event>, size: int)
    requires Secured(plant, size) && NeverReleases(defaultSize, plant, events)
    ensures Secured(After(defaultSize, plant, events), size)
    ensures var wanted := if size <= 0 then defaultSize else size;
            forall e :: e in History(defaultSize, plant, events) && IsRestore(e) ==> e.size == wanted
  {
    RunKeepsSecured(defaultSize, plant, events, size);
    if events != [] {
      var n := |events| - 1;
      forall i | 0 <= i < n
        ensures !Releases(defaultSize, After(defaultSize, plant, events[..n][..i]), events[..n][i])
      {
        assert events[..n][..i] == events[..i];
      }
      CrashSafeRestore(defaultSize, plant, events[..n], size);
      SecuredRestoresRemembered(defaultSize, After(defaultSize, plant, events[..n]), events[n], size);
    }
  }

  /** The tick that ends a secured suppression leaves PgBouncer and the engine at the size
      remembered, and issues no other SET. */
  lemma ReleaseRestoresExactly(defaultSize: int, plant: Plant, input: Input, size: int)
    requires Secured(plant, size) && Releases(defaultSize, plant, Ticked(input))
    ensures var wanted := if size <= 0 then defaultSize else size;
            var next := Next(defaultSize, plant, Ticked(input));
            && next.world.pool == wanted
            && next.process.Some?
            && next.process.value.state.currentPoolSize == wanted
            && !next.process.value.state.Suppressed()
            && forall i, j :: 0 <= i < j < |EffectsOf(defaultSize, plant, Ticked(input))| ==>
                 !(EffectsOf(defaultSize, plant, Ticked(input))[i].SetPool?
                   && EffectsOf(defaultSize, plant, Ticked(input))[j].SetPool?)
  {
    var core := plant.process.value;
    var effects := Tick(defaultSize, core, input).effects;
    RestoringTick(defaultSize, core, input);
    assert effects[..2][..1] == [effects[0]];
    PerformOne(plant.world, effects[0]);
    assert PerformAll(plant.world, effects[..2]).pool == PerformAll(plant.world, [effects[0]]).pool;
  }

  /** An open pool of the given size. */
  predicate Reopened(state: EngineState, size: int) {
    !state.Suppressed() && state.currentPoolSize == size
  }

  /** The effects of a tick whose restore works: the restore, then saves of the open state. */
  lemma RestoredTickSaves(defaultSize: int, core: Core, input: Input)
    requires core.state.Suppressed() && !KeepsFence(input) && input.answers.restore.Applied?
    ensures var o := Tick(defaultSize, core, input);
            var size := RestoreSize(defaultSize, core.state);
            && o.effects != [] && Restores(o.effects[0]) && o.effects[0].size == size
            && (forall i :: 0 < i < |o.effects| ==> o.effects[i].Save? && Reopened(o.effects[i].state, size))
  {
  }

  /** A restore that works, followed by nothing but saves, leaves the pool at its size. */
  lemma {:induction false} RestoreAndSaves(world: World, effects: seq<Effect>, size: int)
    requires effects != [] && Restores(effects[0]) && effects[0].size == size
    requires forall i :: 0 < i < |effects| ==> effects[i].Save?
    ensures PerformAll(world, effects).pool == size
  {
    var n := |effects| - 1;
    if n == 0 {
      PerformOne(world, effects[0]);
      assert effects == [effects[0]];
    } else {
      RestoreAndSaves(world, effects[..n], size);
    }
  }

  /** A crash that still releases a secured suppression, its save being completed, leaves the
      remembered size too: in PgBouncer, on disk, and in whatever process starts next. */
  lemma CrashedReleaseRestores(defaultSize: int, plant: Plant, input: Input, reached: nat, queried: bool, size: int)
    requires Secured(plant, size) && Releases(defaultSize, plant, Crashed(input, reached))
    ensures var wanted := if size <= 0 then defaultSize else size;
            var crashed := Next(defaultSize, plant, Crashed(input, reached));
            var next := Next(defaultSize, crashed, Started(queried));
            && crashed.world.pool == next.world.pool == wanted
            && next.process.Some? && Reopened(next.process.value.state, wanted)
  {
    var wanted := if size <= 0 then defaultSize else size;
    var effects := EffectsOf(defaultSize, plant, Crashed(input, reached));
    ReleasingCrash(defaultSize, plant, input, reached, size);
    RestoredTickSaves(defaultSize, plant.process.value, input);
    RestoreAndSaves(plant.world, effects, wanted);
    DiskAfter(plant.world, effects, s => Reopened(s, wanted));
    var world := PerformAll(plant.world, effects);
    assert PerformAll(world, []) == world;
  }

  lemma ReleasingCrash(defaultSize: int, plant: Plant, input: Input, reached: nat, size: int)
    requires Secured(plant, size) && Releases(defaultSize, plant, Crashed(input, reached))
    ensures plant.process.Some? && !KeepsFence(input) && input.answers.restore.Applied?
    ensures EffectsOf(defaultSize, plant, Crashed(input, reached)) != []
  {
    RestoringTick(defaultSize, plant.process.value, input);
  }

  /** The plant after a releasing event and, if that was a crash, the next start. */
  function Released(defaultSize: int, plant: Plant, event: Event, queried: bool): Plant {
    var next := Next(defaultSize, plant, event);
    if event.Crashed? then Next(defaultSize, next, Started(queried)) else next
  }

  /** A failover tick whose save completes secures the suppression, even if the process dies
      right after that save. */
  lemma SavedFailoverIsSecured(defaultSize: int, plant: Plant, input: Input, event: Event)
    requires plant.process.Some? && !plant.process.value.state.Suppressed()
    requires Fences(input) && input.answers.firstSave.Done?
    requires event == Ticked(input) || (event.Crashed? && event.input == input && event.reached >= 2)
    ensures Secured(Next(defaultSize, plant, event), plant.process.value.state.currentPoolSize)
  {
    var core := plant.process.value;
    var effects := Tick(defaultSize, core, input).effects;
    assert effects == [SetPool(Suppress, 0, input.answers.suppress),
                       Save(HandleFailover(core, input.view.role, input.answers).core.state, Done)];
    assert EffectsOf(defaultSize, plant, event) == effects;
    assert effects[..1] == [effects[0]];
    PerformOne(plant.world, effects[0]);
  }

  /** The whole story: a saved failover, which may have been the process's last act, anything
      that does not release it, and whatever releases it bring PgBouncer and the engine back to
      the size tracked before the failover, or the default if that was none. */
  lemma FailoverRoundTrip(defaultSize: int, plant: Plant, failover: Event, events: seq<Event>,
                          release: Event, queried: bool)
    requires plant.process.Some? && !plant.process.value.state.Suppressed()
    requires failover.Ticked? || (failover.Crashed? && failover.reached >= 2)
    requires Fences(failover.input) && failover.input.answers.firstSave.Done?
    ensures var suppressed := Next(defaultSize, plant, failover);
            var late := After(defaultSize, suppressed, events);
            NeverReleases(defaultSize, suppressed, events) && Releases(defaultSize, late, release) ==>
              BackAt(defaultSize, Released(defaultSize, late, release, queried),
                     plant.process.value.state.currentPoolSize)
  {
    var size := plant.process.value.state.currentPoolSize;
    var suppressed := Next(defaultSize, plant, failover);
    var late := After(defaultSize, suppressed, events);
    SavedFailoverIsSecured(defaultSize, plant, failover.input, failover);
    if NeverReleases(defaultSize, suppressed, events) && Releases(defaultSize, late, release) {
      RunKeepsSecured(defaultSize, suppressed, events, size);
      SecuredReleaseRestores(defaultSize, late, release, queried, size);
    }
  }

  /** PgBouncer and a live, unsuppressed engine have this size, or the default if it is none. */
  predicate BackAt(defaultSize: int, plant: Plant, size: int) {
    var wanted := if size <= 0 then defaultSize else size;
    plant.world.pool == wanted && plant.process.Some? && Reopened(plant.process.value.state, wanted)
  }

  lemma SecuredReleaseRestores(defaultSize: int, late: Plant, release: Event, queried: bool, size: int)
    requires Secured(late, size) && Releases(defaultSize, late, release)
    ensures BackAt(defaultSize, Released(defaultSize, late, release, queried), size)
  {
    match release
    case Ticked(input) => ReleaseRestoresExactly(defaultSize, late, input, size);
    case Crashed(input, reached) => CrashedReleaseRestores(defaultSize, late, input, reached, queried, size);
    case Started(_) =>
  }

  /** The size the state would have the pool at once nothing fences it. */
  function Intends(defaultSize: int, state: EngineState): int {
    if state.Suppressed() then RestoreSize(defaultSize, state) else state.currentPoolSize
  }

  /** Whether a successor that finds this disk, and asks a PgBouncer with this pool or not, will
      intend the given size. */
  predicate DiskLeadsTo(defaultSize: int, disk: Option<EngineState>, queried: bool, pool: int, size: int) {
    if disk.Some? && disk.value.Suppressed() then RestoreSize(defaultSize, disk.value) == size
    else if queried then pool == size
    else (if disk.Some? then disk.value.currentPoolSize else defaultSize) == size
  }

  /** The window of vulnerability. If the process dies during the failover tick, its successor
      intends the size tracked before exactly when the save completed and that size counts as
      one to restore, or it did not and what is left still leads there: an old suppression on
      disk that remembers this size; else a PgBouncer that answers and still has it; else, if
      it does not answer, this size on disk. */
  lemma FailoverCrashKeepsSize(defaultSize: int, plant: Plant, input: Input, reached: nat, queried: bool)
    requires plant.process.Some? && !plant.process.value.state.Suppressed()
    requires Fences(input)
    ensures var size := plant.process.value.state.currentPoolSize;
            var left := if reached == 0 || input.answers.suppress.Refused? then plant.world.pool else 0;
            var crashed := Next(defaultSize, plant, Crashed(input, reached));
            var restarted := Next(defaultSize, crashed, Started(queried));
            restarted.process.Some?
            && (Intends(defaultSize, restarted.process.value.state) == size
                <==> if reached >= 2 && input.answers.firstSave.Done? then size > 0 || size == defaultSize
                     else DiskLeadsTo(defaultSize, plant.world.disk, queried, left, size))
  {
    var crashed := Next(defaultSize, plant, Crashed(input, reached)).world;
    FailoverCrashWorld(defaultSize, plant, input, reached);
    assert PerformAll(crashed, []) == crashed;
  }

  /** What a failover tick killed after some of its effects leaves outside. */
  lemma FailoverCrashWorld(defaultSize: int, plant: Plant, input: Input, reached: nat)
    requires plant.process.Some? && !plant.process.value.state.Suppressed()
    requires Fences(input)
    ensures var core, answers := plant.process.value, input.answers;
            var suppressed := HandleFailover(core, input.view.role, answers).core.state;
            Next(defaultSize, plant, Crashed(input, reached)).world
            == World(if reached == 0 || answers.suppress.Refused? then plant.world.pool else 0,
                     if reached >= 2 && answers.firstSave.Done? then Some(suppressed) else plant.world.disk)
  {
    var core, answers := plant.process.value, input.answers;
    var effects := Tick(defaultSize, core, input).effects;
    var halt, save := SetPool(Suppress, 0, answers.suppress),
                     Save(HandleFailover(core, input.view.role, answers).core.state, answers.firstSave);
    assert effects == [halt, save];
    PerformOne(plant.world, halt);
    assert effects[..0] == [] && effects[..1] == [halt] && effects[..2] == effects;
  }

  // ----- Anti-oscillation budget ------------------------------------------------------

  ghost predicate Resizes(effects: seq<Effect>, kind: SetKind) {
    exists e :: e in effects && e.SetPool? && e.kind == kind && e.outcome.Applied?
  }

  /** How many events of a history resized the pool in the given direction. */
  ghost function Resizings(defaultSize: int, plant: Plant, events: seq<Event>, kind: SetKind): nat {
    if events == [] then 0
    else
      var n := |events| - 1;
      Resizings(defaultSize, plant, events[..n], kind)
      + (if Resizes(EffectsOf(defaultSize, After(defaultSize, plant, events[..n]), events[n]), kind) then 1 else 0)
  }

  /** The event evaluated the load: a whole tick that got that far, or a crashed one whose
      load-driven SET shows that it did. */
  ghost predicate EvaluatesLoad(defaultSize: int, plant: Plant, event: Event) {
    && plant.process.Some?
    && !event.Started?
    && Evaluated(event.input)
    && (event.Ticked?
        || Does(EffectsOf(defaultSize, plant, event), Shrink) || Does(EffectsOf(defaultSize, plant, event), Grow))
  }

  ghost function EvaluatedTicks(defaultSize: int, plant: Plant, events: seq<Event>): nat {
    if events == [] then 0
    else
      var n := |events| - 1;
      EvaluatedTicks(defaultSize, plant, events[..n])
      + (if EvaluatesLoad(defaultSize, After(defaultSize, plant, events[..n]), events[n]) then 1 else 0)
  }

  function Pending(plant: Plant): nat {
    if plant.process.None? then 0 else plant.process.value.above + plant.process.value.below
  }

  predicate OneCounter(plant: Plant) {
    plant.process.Some? ==> plant.process.value.above == 0 || plant.process.value.below == 0
  }

  /** The evaluated ticks that the resizes among these effects must have used up. */
  ghost function Weight(effects: seq<Effect>): nat {
    (if Resizes(effects, Shrink) then 3 else 0) + (if Resizes(effects, Grow) then 6 else 0)
  }

  /** A resize uses up the counter that allowed it. */
  lemma EvaluationSpendsCounters(core: Core, zone: Zone, maxConns: int, answer: SetOutcome)
    requires core.above == 0 || core.below == 0
    ensures var o := EvaluateLoad(core, zone, maxConns, answer);
            && (o.core.above == 0 || o.core.below == 0)
            && Weight(o.effects) + o.core.above + o.core.below
               <= core.above + core.below + (if zone.Invalid? then 0 else 1)
            && Weight(o.effects) <= core.above + core.below + 1
            && ((Does(o.effects, Shrink) || Does(o.effects, Grow)) ==> !zone.Invalid?)
  {
  }

  /** Effects that resize nothing add nothing to the weight. */
  lemma WeightOfParts(before: seq<Effect>, middle: seq<Effect>, after: seq<Effect>)
    requires forall e :: e in before + after && e.SetPool? ==> !e.kind.Shrink? && !e.kind.Grow?
    ensures Weight(before + middle + after) == Weight(middle)
    ensures Does(before + middle + after, Shrink) == Does(middle, Shrink)
    ensures Does(before + middle + after, Grow) == Does(middle, Grow)
  {
    var all := before + middle + after;
    assert forall e :: e in all <==> e in before + after || e in middle;
  }

  lemma TickSpendsCounters(defaultSize: int, core: Core, input: Input)
    requires core.above == 0 || core.below == 0
    ensures var o := Tick(defaultSize, core, input);
            && (o.core.above == 0 || o.core.below == 0)
            && Weight(o.effects) + o.core.above + o.core.below
               <= core.above + core.below + (if Evaluated(input) then 1 else 0)
            && Weight(o.effects) <= core.above + core.below + 1
            && ((Does(o.effects, Shrink) || Does(o.effects, Grow)) ==> Evaluated(input))
  {
    var view, answers := input.view, input.answers;
    if !KeepsFence(input) {
      var first := MaybeRecover(defaultSize, core, answers);
      var zone, maxConns := ZoneRead(view), view.latest.value.maxConns;
      var second := EvaluateLoad(first.core, zone, maxConns, answers.load);
      EvaluationSpendsCounters(first.core, zone, maxConns, answers.load);
      WeightOfParts(first.effects, second.effects, [Save(second.core.state, answers.lastSave)]);
    }
  }

  lemma EventSpendsCounters(defaultSize: int, plant: Plant, event: Event)
    requires OneCounter(plant)
    ensures var next := Next(defaultSize, plant, event);
            && OneCounter(next)
            && Weight(EffectsOf(defaultSize, plant, event)) + Pending(next)
               <= Pending(plant) + (if EvaluatesLoad(defaultSize, plant, event) then 1 else 0)
  {
    if plant.process.Some? && !event.Started? {
      var o := Tick(defaultSize, plant.process.value, event.input);
      TickSpendsCounters(defaultSize, plant.process.value, event.input);
      var effects := EffectsOf(defaultSize, plant, event);
      assert forall e :: e in effects ==> e in o.effects;
    }
  }

  /** The budget. Over every history of ticks, failovers, SET failures, crashes and restarts,
      each successful scale-down has used up three evaluated ticks and each successful
      scale-up six, none counted twice; and never more than one counter is running. */
  lemma {:induction false} OscillationBudget(defaultSize: int, plant: Plant, events: seq<Event>)
    requires plant.process.None?
    ensures 3 * Resizings(defaultSize, plant, events, Shrink)
            + 6 * Resizings(defaultSize, plant, events, Grow)
            + Pending(After(defaultSize, plant, events))
            <= EvaluatedTicks(defaultSize, plant, events)
    ensures OneCounter(After(defaultSize, plant, events))
  {
    if events != [] {
      var n := |events| - 1;
      OscillationBudget(defaultSize, plant, events[..n]);
      EventSpendsCounters(defaultSize, After(defaultSize, plant, events[..n]), events[n]);
    }
  }
}
