/** Any number of goroutines calling RunMigration on one task object, while others change its
    target: every interleaving of their atomic steps. */
module MigrationRunners {
  import opened Common
  import opened Migration

  /** Where a goroutine that got past the guard is: about to compare phase and target, inside
      a phase body, or on its way out. */
  datatype Place = AtCheck | InBody | Leaving

  /** `iterations` counts its passes through the loop, `since` is the length of the log when
      it got past the guard. */
  datatype Runner = Runner(place: Place, iterations: nat, since: nat)

  datatype System = System(
    task: TaskState,
    target: Phase,
    isRunning: bool,
    runners: map<int, Runner>,
    log: seq<Executed>)

  datatype Step =
    | Call(caller: int)
    | Check(caller: int)
    | Execute(caller: int, error: Option<string>)
    | Leave(caller: int)
    | Retarget(target: Phase)

  function Initial(task: TaskState, target: Phase): System {
    System(task, target, false, map[], [])
  }

  predicate At(s: System, caller: int, place: Place) {
    caller in s.runners && s.runners[caller].place == place
  }

  predicate Enabled(s: System, step: Step) {
    match step
    case Call(caller) => caller !in s.runners
    case Check(caller) => At(s, caller, AtCheck)
    case Execute(caller, _) => At(s, caller, InBody) && Working(s.task.phase)
    case Leave(caller) => At(s, caller, Leaving)
    case Retarget(_) => true
  }

  function Next(s: System, step: Step): System
    requires Enabled(s, step)
  {
    match step
    case Call(caller) =>
      if s.isRunning then s
      else s.(isRunning := true, runners := s.runners[caller := Runner(AtCheck, 0, |s.log|)])
    case Check(caller) =>
      var r := s.runners[caller];
      var place := if Stops(s.task.phase, s.target) then Leaving else InBody;
      s.(runners := s.runners[caller := r.(place := place, iterations := r.iterations + 1)])
    case Execute(caller, error) =>
      var place := if error.Some? then Leaving else AtCheck;
      s.(task := Body(s.task, error),
         log := s.log + [Executed(s.task.phase, error.None?)],
         runners := s.runners[caller := s.runners[caller].(place := place)])
    case Leave(caller) => s.(isRunning := false, runners := s.runners - {caller})
    case Retarget(target) => s.(target := target)
  }

  /** The system after an interleaving of steps; None if the code does not allow it. */
  function Run(s: System, steps: seq<Step>): Option<System> {
    if steps == [] then Some(s)
    else
      var n := |steps| - 1;
      match Run(s, steps[..n])
      case None => None
      case Some(mid) => if Enabled(mid, steps[n]) then Some(Next(mid, steps[n])) else None
  }

  /** The bodies in the log that succeeded. */
  function Succeeded(log: seq<Executed>): nat {
    if log != [] && !log[|log| - 1].ok then |log| - 1 else |log|
  }

  /** The log is a run of consecutive bodies from the start phase, and the task is where the
      log says it must be. */
  ghost predicate Accounted(start: TaskState, s: System) {
    var r, n := Rank(start.phase), Succeeded(s.log);
    && InSequence(s.log, r)
    && (s.log != [] ==> Working(start.phase))
    && s.task.progress == (if n == 0 then start.progress else 20 * (r + n))
    && (if s.log == [] then s.task == start
        else if n == |s.log| then Rank(s.task.phase) == r + n && s.task.errorMessage == start.errorMessage
        else s.task.phase == Failed)
  }

  /** At most one goroutine is past the guard, and the guard says so. */
  ghost predicate Exclusive(s: System) {
    && (forall a, b :: a in s.runners && b in s.runners ==> a == b)
    && (s.isRunning <==> s.runners != map[])
  }

  predicate RunnerFits(s: System, r: Runner) {
    && r.since <= |s.log|
    && match r.place
       case AtCheck => r.iterations == |s.log| - r.since
       case InBody => r.iterations == |s.log| - r.since + 1 && Working(s.task.phase)
       case Leaving => r.iterations <= |s.log| - r.since + 1
  }

  ghost predicate Inv(start: TaskState, s: System) {
    && Accounted(start, s)
    && Exclusive(s)
    && (forall a :: a in s.runners ==> RunnerFits(s, s.runners[a]))
  }

  lemma ExecuteKeepsAccounted(start: TaskState, s: System, error: Option<string>)
    requires Accounted(start, s) && Working(s.task.phase)
    ensures Accounted(start, s.(task := Body(s.task, error), log := s.log + [Executed(s.task.phase, error.None?)]))
  {
    var n := |s.log|;
    assert s.log != [] ==> s.log[n - 1].ok;
  }

  lemma StepKeepsExclusive(s: System, step: Step)
    requires Exclusive(s) && Enabled(s, step)
    ensures Exclusive(Next(s, step))
  {
    var t := Next(s, step);
    match step
    case Call(caller) =>
      assert !s.isRunning ==> caller in t.runners;
    case Check(caller) =>
      assert caller in t.runners;
    case Execute(caller, _) =>
      assert caller in t.runners;
    case Leave(caller) =>
      assert forall a :: a in s.runners ==> a == caller;
      assert t.runners == map[];
    case Retarget(_) =>
  }

  lemma StepKeepsInv(start: TaskState, s: System, step: Step)
    requires Inv(start, s) && Enabled(s, step)
    ensures Inv(start, Next(s, step))
  {
    StepKeepsExclusive(s, step);
    if step.Execute? {
      ExecuteKeepsAccounted(start, s, step.error);
    }
  }

  /** In every interleaving of calls, loop iterations, phase bodies and target changes, the
      guard holds and the bodies executed so far are consecutive. */
  lemma {:induction false} RunKeepsInv(start: TaskState, target: Phase, steps: seq<Step>)
    requires Run(Initial(start, target), steps).Some?
    ensures Inv(start, Run(Initial(start, target), steps).value)
  {
    if steps != [] {
      var n := |steps| - 1;
      RunKeepsInv(start, target, steps[..n]);
      StepKeepsInv(start, Run(Initial(start, target), steps[..n]).value, steps[n]);
    }
  }

  lemma PhaseOfRank(p: Phase, rank: nat)
    requires Rank(p) == rank < 5
    ensures p == [PreFlight, Schema, FullLoad, CDC, Cutover][rank]
  {
  }

  /** The whole history of a task created by reconciliation: at most one runner at any time;
      each needs at most six iterations; the bodies ever executed are PRE_FLIGHT, SCHEMA,
      FULL_LOAD, CDC, CUTOVER up to some point, each at most once over all runs, and only the
      last may have failed; and progress is twenty for each that succeeded. */
  lemma WholeHistoryInOrder(target: Phase, steps: seq<Step>)
    requires Run(Initial(TaskState(PreFlight, 0, ""), target), steps).Some?
    ensures var s := Run(Initial(TaskState(PreFlight, 0, ""), target), steps).value;
            && (forall a, b :: a in s.runners && b in s.runners ==> a == b)
            && (forall a :: a in s.runners ==> s.runners[a].iterations <= 6)
            && |s.log| <= 5
            && (forall i :: 0 <= i < |s.log| ==>
                  s.log[i].phase == [PreFlight, Schema, FullLoad, CDC, Cutover][i] && (s.log[i].ok || i == |s.log| - 1))
            && s.task.progress == 20 * Succeeded(s.log)
            && (s.task.phase == Completed <==> Succeeded(s.log) == 5)
            && (s.task.phase == Failed <==> Succeeded(s.log) < |s.log|)
  {
    RunKeepsInv(TaskState(PreFlight, 0, ""), target, steps);
    var s := Run(Initial(TaskState(PreFlight, 0, ""), target), steps).value;
    forall i | 0 <= i < |s.log|
      ensures s.log[i].phase == [PreFlight, Schema, FullLoad, CDC, Cutover][i]
    {
      PhaseOfRank(s.log[i].phase, i);
    }
    if s.log != [] {
      assert Rank(s.log[|s.log| - 1].phase) == |s.log| - 1;
    }
  }

  // ----- Steps that are always possible ----------------------------------------------------

  lemma RunExtends(s: System, steps: seq<Step>, next: Step)
    requires Run(s, steps).Some?
    ensures var t := Run(s, steps).value;
            Run(s, steps + [next]) == if Enabled(t, next) then Some(Next(t, next)) else None
  {
    assert (steps + [next])[..|steps|] == steps;
  }

  /** A call while another goroutine is past the guard changes nothing; any other gets past it
      without touching task, target or log. */
  lemma CallExactly(start: TaskState, target: Phase, steps: seq<Step>, caller: int)
    requires Run(Initial(start, target), steps).Some?
    requires caller !in Run(Initial(start, target), steps).value.runners
    ensures var s := Run(Initial(start, target), steps).value;
            var called := Run(Initial(start, target), steps + [Call(caller)]);
            called.Some? &&
            if s.runners != map[] then called.value == s
            else called.value == System(s.task, s.target, true, map[caller := Runner(AtCheck, 0, |s.log|)], s.log)
  {
    RunKeepsInv(start, target, steps);
    RunExtends(Initial(start, target), steps, Call(caller));
  }

  /** A goroutine past the guard is never stuck, whatever the others did to the target: its next
      step is the comparison, the body, or the way out, according to its place. */
  lemma RunnersNeverStuck(start: TaskState, target: Phase, steps: seq<Step>, caller: int, error: Option<string>)
    requires Run(Initial(start, target), steps).Some?
    requires caller in Run(Initial(start, target), steps).value.runners
    ensures var place := Run(Initial(start, target), steps).value.runners[caller].place;
            && (Run(Initial(start, target), steps + [Check(caller)]).Some? <==> place.AtCheck?)
            && (Run(Initial(start, target), steps + [Execute(caller, error)]).Some? <==> place.InBody?)
            && (Run(Initial(start, target), steps + [Leave(caller)]).Some? <==> place.Leaving?)
  {
    RunKeepsInv(start, target, steps);
    RunExtends(Initial(start, target), steps, Check(caller));
    RunExtends(Initial(start, target), steps, Execute(caller, error));
    RunExtends(Initial(start, target), steps, Leave(caller));
  }

  /** The target that was set last. */
  function LastTarget(target: Phase, steps: seq<Step>): Phase {
    if steps == [] then target
    else
      var last := steps[|steps| - 1];
      if last.Retarget? then last.target else LastTarget(target, steps[..|steps| - 1])
  }

  /** Anyone can set the target at any time, and nobody but those who do changes it. */
  lemma {:induction false} TargetExactly(start: TaskState, target: Phase, steps: seq<Step>)
    requires Run(Initial(start, target), steps).Some?
    ensures Run(Initial(start, target), steps).value.target == LastTarget(target, steps)
    ensures forall t :: Run(Initial(start, target), steps + [Retarget(t)]).Some?
  {
    forall t: Phase
      ensures Run(Initial(start, target), steps + [Retarget(t)]).Some?
    {
      RunExtends(Initial(start, target), steps, Retarget(t));
    }
    if steps != [] {
      TargetExactly(start, target, steps[..|steps| - 1]);
    }
  }

  // ----- One goroutine alone -------------------------------------------------------------

  lemma RunOne(s: System, step: Step)
    ensures Run(s, [step]) == if Enabled(s, step) then Some(Next(s, step)) else None
  {
    assert [step][..0] == [];
  }

  lemma {:induction false} RunConcat(s: System, a: seq<Step>, b: seq<Step>)
    requires Run(s, a).Some?
    ensures Run(s, a + b) == Run(Run(s, a).value, b)
  {
    if b == [] {
      assert a + b == a;
    } else {
      assert (a + b)[..|a + b| - 1] == a + b[..|b| - 1];
      RunConcat(s, a, b[..|b| - 1]);
    }
  }

  /** The step of someone else before the next comparison. */
  function Meanwhile(changes: seq<Option<Phase>>): seq<Step> {
    if changes != [] && changes[0].Some? then [Retarget(changes[0].value)] else []
  }

  /** The steps of one goroutine from a comparison to its end, when it is the only runner and
      the given changes of the target come between. */
  function Iterations(caller: int, task: TaskState, target: Phase, outcomes: Outcomes,
                      changes: seq<Option<Phase>>): seq<Step>
    decreases 5 - Rank(task.phase), Working(task.phase)
  {
    var now, check := Retargeted(target, changes), Meanwhile(changes) + [Check(caller)];
    if Stops(task.phase, now) then check + [Leave(caller)]
    else
      var error := outcomes(task.phase);
      var body := check + [Execute(caller, error)];
      if error.Some? then body + [Leave(caller)]
      else body + Iterations(caller, Body(task, error), now, outcomes, if changes == [] then [] else changes[1..])
  }

  /** All the steps of such a goroutine. */
  function Schedule(caller: int, task: TaskState, target: Phase, outcomes: Outcomes,
                    changes: seq<Option<Phase>>): seq<Step> {
    [Call(caller)] + Iterations(caller, task, target, outcomes, changes)
  }

  /** The runner that is alone past the guard. */
  predicate Alone(s: System, caller: int, place: Place) {
    s.isRunning && s.runners.Keys == {caller} && s.runners[caller].place == place
  }

  /** The comparison, after whatever changed the target before it. */
  lemma CheckAlone(s: System, caller: int, changes: seq<Option<Phase>>)
    requires Alone(s, caller, AtCheck)
    ensures var now := Retargeted(s.target, changes);
            var t := Run(s, Meanwhile(changes) + [Check(caller)]);
            && t.Some?
            && t.value == s.(target := now, runners := t.value.runners)
            && Alone(t.value, caller, if Stops(s.task.phase, now) then Leaving else InBody)
  {
    var first := Meanwhile(changes);
    if first == [] {
      assert first + [Check(caller)] == [Check(caller)];
      RunOne(s, Check(caller));
    } else {
      RunOne(s, first[0]);
      RunConcat(s, first, [Check(caller)]);
      RunOne(Next(s, first[0]), Check(caller));
    }
  }

  lemma LeaveAlone(s: System, caller: int)
    requires Alone(s, caller, Leaving)
    ensures Run(s, [Leave(caller)]) == Some(s.(isRunning := false, runners := map[]))
  {
    RunOne(s, Leave(caller));
    assert s.runners - {caller} == map[];
  }

  lemma ExecuteAlone(s: System, caller: int, error: Option<string>)
    requires Alone(s, caller, InBody) && Working(s.task.phase)
    ensures var t := Run(s, [Execute(caller, error)]);
            && t.Some?
            && t.value == s.(task := Body(s.task, error), log := s.log + [Executed(s.task.phase, error.None?)],
                             runners := t.value.runners)
            && Alone(t.value, caller, if error.Some? then Leaving else AtCheck)
  {
    RunOne(s, Execute(caller, error));
  }

  /** What the goroutine leaves behind. */
  function Left(s: System, steered: Steered): System {
    System(steered.run.task, steered.target, false, map[], s.log + steered.run.log)
  }

  lemma {:induction false} IterationsAlone(s: System, caller: int, outcomes: Outcomes, changes: seq<Option<Phase>>)
    requires Alone(s, caller, AtCheck)
    ensures Run(s, Iterations(caller, s.task, s.target, outcomes, changes))
            == Some(Left(s, RunWith(s.task, s.target, outcomes, changes)))
    decreases 5 - Rank(s.task.phase), Working(s.task.phase)
  {
    var now, check := Retargeted(s.target, changes), Meanwhile(changes) + [Check(caller)];
    CheckAlone(s, caller, changes);
    var checked := Run(s, check).value;
    if Stops(s.task.phase, now) {
      RunConcat(s, check, [Leave(caller)]);
      LeaveAlone(checked, caller);
      LogUnchanged(s.log);
    } else {
      var error := outcomes(s.task.phase);
      ExecuteAlone(checked, caller, error);
      RunConcat(s, check, [Execute(caller, error)]);
      var done := Run(checked, [Execute(caller, error)]).value;
      var body := check + [Execute(caller, error)];
      if error.Some? {
        RunConcat(s, body, [Leave(caller)]);
        LeaveAlone(done, caller);
      } else {
        var rest := if changes == [] then [] else changes[1..];
        RunConcat(s, body, Iterations(caller, done.task, now, outcomes, rest));
        IterationsAlone(done, caller, outcomes, rest);
        LogExtends(s.log, Executed(s.task.phase, true), RunWith(done.task, now, outcomes, rest).run);
      }
    }
  }

  lemma LogUnchanged(log: seq<Executed>)
    ensures log + [] == log
  {
  }

  lemma LogStarts(log: seq<Executed>)
    ensures [] + log == log
  {
  }

  lemma LogExtends(log: seq<Executed>, done: Executed, rest: Result)
    ensures log + [done] + rest.log == log + Push(done, rest).log
  {
  }

  /** A goroutine that gets past the guard and is then alone does what the function says: the
      steps of the machine add up to the run, target changes and all. */
  lemma LoneRunnerIsRun(caller: int, task: TaskState, target: Phase, outcomes: Outcomes, changes: seq<Option<Phase>>)
    ensures var steered := RunWith(task, target, outcomes, changes);
            Run(Initial(task, target), Schedule(caller, task, target, outcomes, changes))
            == Some(System(steered.run.task, steered.target, false, map[], steered.run.log))
  {
    var s := Initial(task, target);
    RunOne(s, Call(caller));
    var called := Run(s, [Call(caller)]).value;
    RunConcat(s, [Call(caller)], Iterations(caller, task, target, outcomes, changes));
    IterationsAlone(called, caller, outcomes, changes);
    LogStarts(RunWith(task, target, outcomes, changes).run.log);
  }
}
