/** The decision engine (internal/engine/engine.go) as a function: what one tick does to the
    memory of the process, and which effects on the outside world it has, in order. */
module EngineModel {
  import opened Common
  import opened Statistics
  import opened Signals
  import opened StateFile

  const SCALE_DOWN_CONFIRM_TICKS := 3
  const SCALE_UP_CONFIRM_TICKS := 6
  const POOL_SIZE_FLOOR := 5
  const POOL_SIZE_STEP := 5
  const SCALE_DOWN_RATIO := 0.80
  const SCALE_UP_RATIO := 0.50

  /** What PgBouncer does with one SET: it takes effect and is acknowledged; it is refused
      and reported as an error; or it takes effect but its reply is lost (the three second
      timeout), which the engine sees as the same error. */
  datatype SetOutcome = Applied | Refused | LostReply

  /** Why a SET is issued. */
  datatype SetKind = Suppress | Restore | Shrink | Grow

  datatype Effect =
    | SetPool(kind: SetKind, size: int, outcome: SetOutcome)
    | Save(state: EngineState, stop: SaveStop)

  /** The memory of one engine process. */
  datatype Core = Core(state: EngineState, above: nat, below: nat)

  /** What one tick reads from the window. The role, the latest snapshot and the average
      are read under three separate locks, so they may belong to different moments. */
  datatype View = View(role: string, latest: Option<LoadSnapshot>, sample: seq<LoadSnapshot>)

  /** The environment's answers to whatever a tick asks of it. */
  datatype Answers = Answers(
    now: int,
    suppress: SetOutcome,
    restore: SetOutcome,
    load: SetOutcome,
    firstSave: SaveStop,
    lastSave: SaveStop)

  datatype Input = Input(view: View, answers: Answers)

  datatype Outcome = Outcome(core: Core, effects: seq<Effect>)

  /** A role that fences the node: anything but "primary" or no role at all. */
  predicate FencedRole(role: string) {
    role != "primary" && role != ""
  }

  datatype Zone = Invalid | Above | Below | Middle

  function ZoneOf(avgActive: real, maxConns: int): Zone {
    if maxConns <= 0 then Invalid
    else
      var ratio := avgActive / maxConns as real;
      if ratio > SCALE_DOWN_RATIO then Above
      else if ratio < SCALE_UP_RATIO then Below
      else Middle
  }

  /** The size recovery will ask for: the one remembered, or the configured default. */
  function RestoreSize(defaultSize: int, state: EngineState): int {
    if state.lastPoolSize <= 0 then defaultSize else state.lastPoolSize
  }

  function HandleFailover(core: Core, role: string, answers: Answers): Outcome {
    if core.state.Suppressed() then Outcome(core, [])
    else
      var state := EngineState(role, core.state.currentPoolSize, Some(answers.now), 0);
      Outcome(Core(state, 0, 0), [SetPool(Suppress, 0, answers.suppress)])
  }

  function HandleRecovery(defaultSize: int, core: Core, answers: Answers): Outcome {
    var size := RestoreSize(defaultSize, core.state);
    var effects := [SetPool(Restore, size, answers.restore)];
    if !answers.restore.Applied? then Outcome(core, effects)
    else Outcome(Core(EngineState("primary", core.state.lastPoolSize, None, size), 0, 0), effects)
  }

  function Resized(core: Core, size: int): EngineState {
    core.state.(currentPoolSize := size)
  }

  function EvaluateLoad(core: Core, zone: Zone, maxConns: int, answer: SetOutcome): Outcome {
    var current := core.state.currentPoolSize;
    match zone
    case Invalid => Outcome(core, [])
    case Middle => Outcome(core.(above := 0, below := 0), [])
    case Above =>
      var ticks, size := core.above + 1, Max(current - POOL_SIZE_STEP, POOL_SIZE_FLOOR);
      if ticks < SCALE_DOWN_CONFIRM_TICKS then Outcome(core.(above := ticks, below := 0), [])
      else if current <= size then Outcome(core.(above := 0, below := 0), [])
      else if answer.Applied? then Outcome(Core(Resized(core, size), 0, 0), [SetPool(Shrink, size, answer)])
      else Outcome(core.(above := ticks, below := 0), [SetPool(Shrink, size, answer)])
    case Below =>
      var ticks, size := core.below + 1, Min(current + POOL_SIZE_STEP, maxConns);
      if ticks < SCALE_UP_CONFIRM_TICKS then Outcome(core.(above := 0, below := ticks), [])
      else if size <= current then Outcome(core.(above := 0, below := 0), [])
      else if answer.Applied? then Outcome(Core(Resized(core, size), 0, 0), [SetPool(Grow, size, answer)])
      else Outcome(core.(above := 0, below := ticks), [SetPool(Grow, size, answer)])
  }

  /** The part of a tick before load evaluation, when the role read does not fence. */
  function MaybeRecover(defaultSize: int, core: Core, answers: Answers): Outcome {
    if !core.state.Suppressed() then Outcome(core, [])
    else
      var recovery := HandleRecovery(defaultSize, core, answers);
      Outcome(recovery.core, recovery.effects + [Save(recovery.core.state, answers.firstSave)])
  }

  function ZoneRead(view: View): Zone
    requires view.latest.Some?
  {
    ZoneOf(Mean(Actives(view.sample)), view.latest.value.maxConns)
  }

  function Tick(defaultSize: int, core: Core, input: Input): Outcome {
    var Input(view, answers) := input;
    if view.latest.None? then Outcome(core, [])
    else if FencedRole(view.role) then
      var failover := HandleFailover(core, view.role, answers);
      Outcome(failover.core, failover.effects + [Save(failover.core.state, answers.firstSave)])
    else
      var first := MaybeRecover(defaultSize, core, answers);
      var second := EvaluateLoad(first.core, ZoneRead(view), view.latest.value.maxConns, answers.load);
      Outcome(second.core, first.effects + second.effects + [Save(second.core.state, answers.lastSave)])
  }

  /** The world outside the process: PgBouncer's actual size and the state on disk. */
  datatype World = World(pool: int, disk: Option<EngineState>)

  function Perform(world: World, effect: Effect): World {
    match effect
    case SetPool(_, size, outcome) => if outcome.Refused? then world else world.(pool := size)
    case Save(state, stop) => if stop.Done? then world.(disk := Some(state)) else world
  }

  function PerformAll(world: World, effects: seq<Effect>): World {
    if effects == [] then world
    else Perform(PerformAll(world, effects[..|effects| - 1]), effects[|effects| - 1])
  }

  lemma {:induction false} PerformConcat(world: World, a: seq<Effect>, b: seq<Effect>)
    ensures PerformAll(world, a + b) == PerformAll(PerformAll(world, a), b)
  {
    if b == [] {
      assert a + b == a;
    } else {
      assert (a + b)[..|a + b| - 1] == a + b[..|b| - 1];
      PerformConcat(world, a, b[..|b| - 1]);
    }
  }

  lemma PerformOne(world: World, effect: Effect)
    ensures PerformAll(world, [effect]) == Perform(world, effect)
  {
    assert [effect][..0] == [];
  }

  /** The memory a process starts with: the state on disk or the first-boot defaults, with
      the current size replaced by PgBouncer's own when it can be asked. */
  function Boot(defaultSize: int, world: World, queryAnswered: bool): Core {
    var state := match world.disk
      case None => EngineState("", defaultSize, None, defaultSize)
      case Some(saved) => saved;
    Core(if queryAnswered then state.(currentPoolSize := world.pool) else state, 0, 0)
  }

  /** The memory after a sequence of ticks of one process. */
  function Run(defaultSize: int, core: Core, inputs: seq<Input>): Core {
    if inputs == [] then core
    else
      var n := |inputs| - 1;
      Tick(defaultSize, Run(defaultSize, core, inputs[..n]), inputs[n]).core
  }

  /** Everything those ticks did to the outside, in order. */
  function Trace(defaultSize: int, core: Core, inputs: seq<Input>): seq<Effect> {
    if inputs == [] then []
    else
      var n := |inputs| - 1;
      Trace(defaultSize, core, inputs[..n])
      + Tick(defaultSize, Run(defaultSize, core, inputs[..n]), inputs[n]).effects
  }

  lemma RunExtends(defaultSize: int, core: Core, inputs: seq<Input>, next: Input)
    ensures var o := Tick(defaultSize, Run(defaultSize, core, inputs), next);
            && Run(defaultSize, core, inputs + [next]) == o.core
            && Trace(defaultSize, core, inputs + [next]) == Trace(defaultSize, core, inputs) + o.effects
  {
    assert (inputs + [next])[..|inputs|] == inputs;
  }

  /** Appending a tick to a run appends its effects, to a log and to the world alike. */
  lemma EffectsExtend(defaultSize: int, core: Core, inputs: seq<Input>, next: Input, log: seq<Effect>, world: World)
    ensures var o := Tick(defaultSize, Run(defaultSize, core, inputs), next);
            var was, now := Trace(defaultSize, core, inputs), Trace(defaultSize, core, inputs + [next]);
            && log + now == log + was + o.effects
            && PerformAll(world, now) == PerformAll(PerformAll(world, was), o.effects)
  {
    RunExtends(defaultSize, core, inputs, next);
    PerformConcat(world, Trace(defaultSize, core, inputs),
                  Tick(defaultSize, Run(defaultSize, core, inputs), next).effects);
  }
}
