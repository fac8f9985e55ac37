/** The running engine: an object updated in place by tick, failover, recovery and load
    evaluation, talking to a pooler, a disk and a window that other goroutines fill. */
module DecisionEngine {
  import opened Common
  import opened Statistics
  import opened Signals
  import opened StateFile
  import opened EngineModel

  /** PgBouncer's admin console, reduced to its one setting. */
  class Pooler {
    var size: int

    constructor (initial: int)
      ensures size == initial
    {
      size := initial;
    }

    method SetDefaultPoolSize(requested: int, outcome: SetOutcome) returns (ok: bool)
      modifies this
      ensures size == if outcome.Refused? then old(size) else requested
      ensures ok <==> outcome.Applied?
    {
      if outcome.Refused? {
        return false;
      }
      size := requested;
      return outcome.Applied?;
    }
  }

  /** What happens around one tick: the pushes the drain goroutine gets in before it and
      between its reads of the window, and the environment's answers. */
  datatype Surroundings = Surroundings(
    before: seq<LoadSnapshot>,
    afterRole: seq<LoadSnapshot>,
    afterLatest: seq<LoadSnapshot>,
    answers: Answers)

  /** The push history when the tick has made its last read. */
  function HistoryAfter(history: seq<LoadSnapshot>, around: Surroundings): seq<LoadSnapshot> {
    var seen := history + around.before + around.afterRole;
    if seen == [] then seen else seen + around.afterLatest
  }

  function InputOf(history: seq<LoadSnapshot>, size: nat, around: Surroundings): Input {
    var atRole := history + around.before;
    var atLatest := atRole + around.afterRole;
    Input(
      View(RoleOf(atRole), LatestOf(atLatest), Newest(HistoryAfter(history, around), size)),
      around.answers)
  }

  function HistoryThrough(history: seq<LoadSnapshot>, script: seq<Surroundings>): seq<LoadSnapshot> {
    if script == [] then history
    else HistoryAfter(HistoryThrough(history, script[..|script| - 1]), script[|script| - 1])
  }

  /** The inputs a whole run of ticks reads. */
  function InputsOf(history: seq<LoadSnapshot>, size: nat, script: seq<Surroundings>): (inputs: seq<Input>)
    ensures |inputs| == |script|
  {
    if script == [] then []
    else
      var n := |script| - 1;
      InputsOf(history, size, script[..n])
      + [InputOf(HistoryThrough(history, script[..n]), size, script[n])]
  }

  /** In every interleaving a non-empty role comes with a latest snapshot, and that with a
      sample. The role is the latest snapshot's own, and the latest snapshot is the newest of
      the sample, exactly when the last push between the two reads concerned, if there is one,
      makes no difference. */
  lemma ReadsAgree(history: seq<LoadSnapshot>, size: nat, around: Surroundings)
    requires 0 < size
    ensures var view := InputOf(history, size, around).view;
            var first, second := around.afterRole, around.afterLatest;
            && (view.role != "" ==> view.latest.Some?)
            && (view.latest.Some? ==>
                  && view.sample != []
                  && (view.role == view.latest.value.role
                      <==> first == [] || first[|first| - 1].role == RoleOf(history + around.before))
                  && (view.latest.value == view.sample[|view.sample| - 1]
                      <==> second == [] || second[|second| - 1] == view.latest.value))
  {
    var atRole := history + around.before;
    var atLatest := atRole + around.afterRole;
    LastOfAppended(atRole, around.afterRole);
    LastOfAppended(atLatest, around.afterLatest);
    if atLatest != [] {
      LastOfNewest(atLatest + around.afterLatest, size);
    }
  }

  /** What the latest read and the role read see after more pushes. */
  lemma LastOfAppended(a: seq<LoadSnapshot>, b: seq<LoadSnapshot>)
    ensures LatestOf(a + b) == if b == [] then LatestOf(a) else Some(b[|b| - 1])
  {
    if b == [] {
      assert a + b == a;
    }
  }

  lemma LastOfNewest(history: seq<LoadSnapshot>, size: nat)
    requires 0 < size && history != []
    ensures Newest(history, size) != []
    ensures Some(Newest(history, size)[|Newest(history, size)| - 1]) == LatestOf(history)
  {
  }

  /** The sample is what was pushed last, by then, as many as the window holds. */
  lemma SampleIsNewestPushed(history: seq<LoadSnapshot>, size: nat, around: Surroundings)
    ensures var view := InputOf(history, size, around).view;
            var pushed := history + around.before + around.afterRole + around.afterLatest;
            view.latest.Some? ==>
              && |view.sample| == (if |pushed| < size then |pushed| else size)
              && pushed == pushed[..|pushed| - |view.sample|] + view.sample
  {
  }

  /** When the two reads disagree: a tick is judged by another answer to the fencing question
      than its latest snapshot gives exactly when snapshots land between the reads of role and
      latest, and the last of them gives another answer than the newest pushed before. */
  lemma RoleLagsIff(history: seq<LoadSnapshot>, size: nat, around: Surroundings)
    requires 0 < size
    ensures var view := InputOf(history, size, around).view;
            var between := around.afterRole;
            view.latest.Some? ==>
              (FencedRole(view.role) != FencedRole(view.latest.value.role)
               <==> between != []
                    && FencedRole(between[|between| - 1].role) != FencedRole(RoleOf(history + around.before)))
  {
    LastOfAppended(history + around.before, around.afterRole);
  }

  /** Where a stretch of the control loop begins. */
  datatype Start = Start(pushed: seq<LoadSnapshot>, memory: Core, log: seq<Effect>, world: World)

  class Engine {
    const defaultPoolSize: int
    const statePath: string
    const window: Window
    const pooler: Pooler
    const disk: Disk

    var state: EngineState
    var aboveThresholdTicks: nat
    var belowHalfTicks: nat
    /** Everything done to the outside, in the order it was done. */
    ghost var log: seq<Effect>

    /** The state file decodes: loading it succeeded and saves keep it whole. */
    ghost predicate Sound()
      reads this, disk
    {
      !Load(disk.files, statePath).Corrupt?
    }

    ghost predicate Valid()
      reads this, window, window.buf, disk
    {
      window.Valid() && Sound()
    }

    ghost function Memory(): Core
      reads this
    {
      Core(state, aboveThresholdTicks, belowHalfTicks)
    }

    /** The outside world as the engine can affect it. */
    ghost function Outside(): World
      reads this, pooler, disk
    {
      World(pooler.size, OnDisk(disk.files, statePath))
    }

    /** The engine New builds around the state it has found. */
    constructor (defaultPoolSize: int, statePath: string, window: Window, pooler: Pooler, disk: Disk,
                 state: EngineState)
      requires window.Valid() && !Load(disk.files, statePath).Corrupt?
      ensures Valid() && log == [] && Memory() == Core(state, 0, 0)
      ensures this.window == window && this.pooler == pooler && this.disk == disk
      ensures this.defaultPoolSize == defaultPoolSize && this.statePath == statePath
    {
      this.defaultPoolSize, this.statePath := defaultPoolSize, statePath;
      this.window, this.pooler, this.disk, this.state := window, pooler, disk, state;
      aboveThresholdTicks, belowHalfTicks := 0, 0;
      log := [];
    }

    /** New as its callers see it: no engine when the state file cannot be read or decoded;
        otherwise memory is the persisted state, or defaults when there is no state file. */
    static method New(defaultPoolSize: int, statePath: string, unreadable: bool,
                      window: Window, pooler: Pooler, disk: Disk)
      returns (engine: Engine?)
      requires window.Valid()
      ensures engine == null <==> unreadable || Load(disk.files, statePath).Corrupt?
      ensures engine != null ==>
                && fresh(engine) && engine.Valid() && engine.log == []
                && engine.window == window && engine.pooler == pooler && engine.disk == disk
                && engine.Memory() == Boot(defaultPoolSize, engine.Outside(), false)
    {
      var loaded := disk.LoadStateFile(statePath, unreadable);
      if loaded.Error() {
        return null;
      }
      var state := EngineState("", defaultPoolSize, None, defaultPoolSize);
      if loaded.Loaded? {
        state := loaded.state;
      }
      engine := new Engine(defaultPoolSize, statePath, window, pooler, disk, state);
    }

    /** Start, before the loop: take PgBouncer's own size if the console answers. */
    method Synchronise(answered: bool)
      requires Valid()
      modifies this`state
      ensures Valid()
      ensures state == if answered then old(state).(currentPoolSize := pooler.size) else old(state)
      ensures old(Memory()) == Boot(defaultPoolSize, Outside(), false) ==>
                Memory() == Boot(defaultPoolSize, Outside(), answered)
    {
      if answered {
        state := state.(currentPoolSize := pooler.size);
      }
    }

    method SetPoolSize(kind: SetKind, size: int, outcome: SetOutcome) returns (ok: bool)
      requires Sound()
      modifies this`log, pooler
      ensures Sound()
      ensures ok <==> outcome.Applied?
      ensures log == old(log) + [SetPool(kind, size, outcome)]
      ensures Outside() == Perform(old(Outside()), SetPool(kind, size, outcome))
    {
      ok := pooler.SetDefaultPoolSize(size, outcome);
      log := log + [SetPool(kind, size, outcome)];
    }

    /** Best effort: a failed save is logged and forgotten. */
    method SaveState(stop: SaveStop)
      requires Sound()
      modifies this`log, disk
      ensures Sound()
      ensures log == old(log) + [Save(state, stop)]
      ensures Outside() == Perform(old(Outside()), Save(state, stop))
    {
      SaveIsAtomic(disk.files, statePath, state, stop);
      var _ := disk.SaveStateFile(statePath, state, stop);
      log := log + [Save(state, stop)];
    }

    method HandleFailover(role: string, answers: Answers)
      requires Sound()
      modifies this, pooler
      ensures Sound()
      ensures var o := EngineModel.HandleFailover(old(Memory()), role, answers);
              Did(old(log), old(Outside()), o)
    {
      ghost var world := Outside();
      if state.suppressedSince.Some? {
        assert log == old(log) + [];
        return;
      }
      state := state.(lastPoolSize := state.currentPoolSize);
      state := state.(lastRole := role);
      state := state.(suppressedSince := Some(answers.now));
      state := state.(currentPoolSize := 0);
      var _ := SetPoolSize(Suppress, 0, answers.suppress);
      aboveThresholdTicks := 0;
      belowHalfTicks := 0;
      PerformOne(world, SetPool(Suppress, 0, answers.suppress));
    }

    method HandleFailoverRecovery(answers: Answers)
      requires Sound()
      modifies this, pooler
      ensures Sound()
      ensures var o := EngineModel.HandleRecovery(defaultPoolSize, old(Memory()), answers);
              Did(old(log), old(Outside()), o)
    {
      ghost var world := Outside();
      var restoreSize := state.lastPoolSize;
      if restoreSize <= 0 {
        restoreSize := defaultPoolSize;
      }
      var ok := SetPoolSize(Restore, restoreSize, answers.restore);
      PerformOne(world, SetPool(Restore, restoreSize, answers.restore));
      if !ok {
        return;
      }
      state := state.(currentPoolSize := restoreSize);
      state := state.(suppressedSince := None);
      state := state.(lastRole := "primary");
      aboveThresholdTicks := 0;
      belowHalfTicks := 0;
    }

    method EvaluateLoad(avgActive: real, maxConns: int, answer: SetOutcome)
      requires Sound()
      modifies this, pooler
      ensures Sound()
      ensures var o := EngineModel.EvaluateLoad(old(Memory()), ZoneOf(avgActive, maxConns), maxConns, answer);
              Did(old(log), old(Outside()), o)
    {
      ghost var world := Outside();
      assert log == old(log) + [];
      if maxConns <= 0 {
        return;
      }
      var ratio := avgActive / maxConns as real;
      if ratio > SCALE_DOWN_RATIO {
        belowHalfTicks := 0;
        aboveThresholdTicks := aboveThresholdTicks + 1;
        if aboveThresholdTicks >= SCALE_DOWN_CONFIRM_TICKS {
          var newSize := state.currentPoolSize - POOL_SIZE_STEP;
          if newSize < POOL_SIZE_FLOOR {
            newSize := POOL_SIZE_FLOOR;
          }
          if newSize < state.currentPoolSize {
            PerformOne(world, SetPool(Shrink, newSize, answer));
            var ok := SetPoolSize(Shrink, newSize, answer);
            if ok {
              state := state.(currentPoolSize := newSize);
              aboveThresholdTicks := 0;
            }
          } else {
            aboveThresholdTicks := 0;
          }
        }
        return;
      }
      if ratio < SCALE_UP_RATIO {
        aboveThresholdTicks := 0;
        belowHalfTicks := belowHalfTicks + 1;
        if belowHalfTicks >= SCALE_UP_CONFIRM_TICKS {
          var newSize := state.currentPoolSize + POOL_SIZE_STEP;
          if newSize > maxConns {
            newSize := maxConns;
          }
          if newSize > state.currentPoolSize {
            PerformOne(world, SetPool(Grow, newSize, answer));
            var ok := SetPoolSize(Grow, newSize, answer);
            if ok {
              state := state.(currentPoolSize := newSize);
              belowHalfTicks := 0;
            }
          } else {
            belowHalfTicks := 0;
          }
        }
        return;
      }
      aboveThresholdTicks := 0;
      belowHalfTicks := 0;
    }

    /** The outcome o of the model is what has happened since the given log and world. */
    ghost predicate Did(before: seq<Effect>, world: World, o: Outcome)
      reads this, pooler, disk
    {
      && Memory() == o.core
      && log == before + o.effects
      && Outside() == PerformAll(world, o.effects)
    }

    /** The reads at the top of a tick, each under its own lock. */
    method ReadWindow(around: Surroundings)
      returns (role: string, latest: LoadSnapshot, ok: bool, avgActive: real)
      requires window.Valid()
      modifies window, window.buf
      ensures window.Valid()
      ensures window.history == HistoryAfter(old(window.history), around)
      ensures var view := InputOf(old(window.history), window.size, around).view;
              && role == view.role
              && (ok <==> view.latest.Some?)
              && (ok ==> view.latest.value == latest && avgActive == Mean(Actives(view.sample)))
    {
      window.PushAll(around.before);
      role := window.CurrentRole();
      window.PushAll(around.afterRole);
      latest, ok := window.Latest();
      if !ok {
        return role, latest, false, 0.0;
      }
      window.PushAll(around.afterLatest);
      avgActive := window.AvgActiveConns();
    }

    /** Recovery if suppressed, followed by its own save. */
    method RestoreIfSuppressed(answers: Answers)
      requires Sound()
      modifies this, pooler, disk
      ensures Sound()
      ensures var o := EngineModel.MaybeRecover(defaultPoolSize, old(Memory()), answers);
              Did(old(log), old(Outside()), o)
    {
      ghost var world, memory := Outside(), Memory();
      if state.suppressedSince.None? {
        assert log == old(log) + [];
        return;
      }
      HandleFailoverRecovery(answers);
      SaveState(answers.firstSave);
      ghost var o := EngineModel.HandleRecovery(defaultPoolSize, memory, answers);
      Then(world, o.effects, Save(o.core.state, answers.firstSave));
    }

    /** Load evaluation, followed by its save. */
    method EvaluateAndSave(avgActive: real, maxConns: int, answers: Answers)
      requires Sound()
      modifies this, pooler, disk
      ensures Sound()
      ensures var o := EngineModel.EvaluateLoad(
                         old(Memory()), ZoneOf(avgActive, maxConns), maxConns, answers.load);
              Did(old(log), old(Outside()),
                  Outcome(o.core, o.effects + [Save(o.core.state, answers.lastSave)]))
    {
      ghost var world, memory := Outside(), Memory();
      EvaluateLoad(avgActive, maxConns, answers.load);
      SaveState(answers.lastSave);
      ghost var o := EngineModel.EvaluateLoad(memory, ZoneOf(avgActive, maxConns), maxConns, answers.load);
      Then(world, o.effects, Save(o.core.state, answers.lastSave));
    }

    /** The branch of a tick whose role does not fence: recovery if suppressed, then load
        evaluation, each followed by a save. */
    method RestoreThenEvaluate(avgActive: real, maxConns: int, answers: Answers)
      requires Sound()
      modifies this, pooler, disk
      ensures Sound()
      ensures var first := EngineModel.MaybeRecover(defaultPoolSize, old(Memory()), answers);
              var second := EngineModel.EvaluateLoad(
                              first.core, ZoneOf(avgActive, maxConns), maxConns, answers.load);
              Did(old(log), old(Outside()),
                  Outcome(second.core, first.effects + second.effects + [Save(second.core.state, answers.lastSave)]))
    {
      ghost var world, before, memory := Outside(), log, Memory();
      ghost var first := EngineModel.MaybeRecover(defaultPoolSize, memory, answers);
      ghost var second := EngineModel.EvaluateLoad(
        first.core, ZoneOf(avgActive, maxConns), maxConns, answers.load);
      RestoreIfSuppressed(answers);
      EvaluateAndSave(avgActive, maxConns, answers);
      InTurn(before, world, first.effects, second.effects, Save(second.core.state, answers.lastSave));
    }

    /** The branch of a tick whose role fences. */
    method Fence(role: string, answers: Answers)
      requires Sound()
      modifies this, pooler, disk
      ensures Sound()
      ensures var o := EngineModel.HandleFailover(old(Memory()), role, answers);
              Did(old(log), old(Outside()),
                  Outcome(o.core, o.effects + [Save(o.core.state, answers.firstSave)]))
    {
      ghost var world, memory := Outside(), Memory();
      HandleFailover(role, answers);
      SaveState(answers.firstSave);
      ghost var o := EngineModel.HandleFailover(memory, role, answers);
      Then(world, o.effects, Save(o.core.state, answers.firstSave));
    }

    /** One evaluation cycle, with the drain goroutine pushing between the window reads. */
    method Tick(around: Surroundings)
      requires Valid()
      modifies this, pooler, disk, window, window.buf
      ensures Valid()
      ensures window.history == HistoryAfter(old(window.history), around)
      ensures var o := EngineModel.Tick(defaultPoolSize, old(Memory()),
                                        InputOf(old(window.history), window.size, around));
              Did(old(log), old(Outside()), o)
    {
      var role, latest, ok, avgActive := ReadWindow(around);
      if !ok {
        return;
      }
      if role != "primary" && role != "" {
        Fence(role, around.answers);
        return;
      }
      RestoreThenEvaluate(avgActive, latest.maxConns, around.answers);
    }

    /** Exactly the ticks of `script` have happened since `start`. */
    ghost predicate Reached(start: Start, script: seq<Surroundings>)
      reads this, window, pooler, disk
    {
      var inputs := InputsOf(start.pushed, window.size, script);
      && window.history == HistoryThrough(start.pushed, script)
      && Did(start.log, start.world,
             Outcome(Run(defaultPoolSize, start.memory, inputs), Trace(defaultPoolSize, start.memory, inputs)))
    }

    ghost function Now(): Start
      reads this, window, pooler, disk
    {
      Start(window.history, Memory(), log, Outside())
    }

    method TickNext(next: Surroundings, ghost start: Start, ghost script: seq<Surroundings>)
      requires Valid() && Reached(start, script)
      modifies this, pooler, disk, window, window.buf
      ensures Valid() && Reached(start, script + [next])
    {
      ghost var inputs := InputsOf(start.pushed, window.size, script);
      ghost var input := InputOf(window.history, window.size, next);
      ScriptExtends(start.pushed, window.size, script, next);
      RunExtends(defaultPoolSize, start.memory, inputs, input);
      EffectsExtend(defaultPoolSize, start.memory, inputs, input, start.log, start.world);
      Tick(next);
    }

    /** The control loop: an immediate tick, then one per ticker event until done. */
    method Loop(first: Surroundings, later: seq<Surroundings>)
      requires Valid()
      modifies this, pooler, disk, window, window.buf
      ensures Valid()
      ensures Reached(old(Now()), [first] + later)
    {
      ghost var start := Now();
      assert log == start.log + [];
      TickNext(first, start, []);
      ghost var done := [] + [first];
      for i := 0 to |later|
        invariant done == [first] + later[..i]
        invariant Valid() && Reached(start, done)
      {
        TickNext(later[i], start, done);
        PrefixGrows(first, later, i);
        done := done + [later[i]];
      }
      PrefixComplete(first, later);
    }
  }

  lemma PrefixGrows<T>(first: T, later: seq<T>, i: nat)
    requires i < |later|
    ensures [first] + later[..i] + [later[i]] == [first] + later[..i + 1]
  {
  }

  lemma PrefixComplete<T>(first: T, later: seq<T>)
    ensures [first] + later[..|later|] == [first] + later
  {
  }

  lemma ScriptExtends(history: seq<LoadSnapshot>, size: nat, script: seq<Surroundings>, next: Surroundings)
    ensures var now := HistoryThrough(history, script);
            && HistoryThrough(history, script + [next]) == HistoryAfter(now, next)
            && InputsOf(history, size, script + [next]) == InputsOf(history, size, script) + [InputOf(now, size, next)]
  {
    assert (script + [next])[..|script|] == script;
  }

  function OnDisk(files: Files, path: string): Option<EngineState> {
    match Load(files, path)
    case Loaded(state) => Some(state)
    case _ => None
  }

  lemma Then(world: World, effects: seq<Effect>, next: Effect)
    ensures PerformAll(world, effects + [next]) == Perform(PerformAll(world, effects), next)
  {
    PerformConcat(world, effects, [next]);
    PerformOne(PerformAll(world, effects), next);
  }

  /** Two stretches of effects, the second ending in one more, are one stretch. */
  lemma InTurn(log: seq<Effect>, world: World, a: seq<Effect>, b: seq<Effect>, next: Effect)
    ensures log + a + (b + [next]) == log + (a + b + [next])
    ensures PerformAll(world, a + b + [next]) == PerformAll(PerformAll(world, a), b + [next])
  {
    assert a + b + [next] == a + (b + [next]);
    PerformConcat(world, a, b + [next]);
  }
}
