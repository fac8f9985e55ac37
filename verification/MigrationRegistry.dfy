/** The registry of migrations under concurrency: reconciliation passes, migration commands
    and the goroutines they start, for one migration ID, in every interleaving. A task object
    registers itself when its goroutine gets past the guard, and the guard is in the object,
    so whoever finds nothing registered creates another object with a guard of its own. */
module MigrationRegistry {
  import opened Common
  import opened Migration
  import opened MigrationAgent

  /** A goroutine in RunMigration: before the guard, or past it. */
  datatype Goroutine = Goroutine(on: nat, running: bool)

  /** `objects` are all task objects ever created for the ID, `passes` the reconciliation
      passes that have looked the ID up and not yet acted on what they found. */
  datatype System = System(
    id: string,
    objects: seq<TaskView>,
    registered: Option<nat>,
    passes: map<int, Option<nat>>,
    goroutines: map<int, Goroutine>)

  datatype Step =
    | Look(pass: int)
    | Act(pass: int, config: Config, spawned: int)
    | Command(phase: Phase, spawned: int)
    | Start(g: int)
    | Advance(g: int, task: TaskState)
    | Finish(g: int)

  function Initial(id: string): System {
    System(id, [], None, map[], map[])
  }

  predicate Enabled(s: System, step: Step) {
    match step
    case Look(pass) => pass !in s.passes
    case Act(pass, _, spawned) => pass in s.passes && spawned !in s.goroutines
    case Command(_, spawned) => spawned !in s.goroutines
    case Start(g) => g in s.goroutines && !s.goroutines[g].running
    case Advance(g, _) => g in s.goroutines && s.goroutines[g].running
    case Finish(g) => g in s.goroutines && s.goroutines[g].running
  }

  /** A new object and the goroutine started on it. */
  function Created(s: System, view: TaskView, spawned: int): System {
    s.(objects := s.objects + [view], goroutines := s.goroutines[spawned := Goroutine(|s.objects|, false)])
  }

  /** A pass acts on what it found, whatever has happened since it looked. */
  function Acted(s: System, found: Option<nat>, config: Config, spawned: int): System
    requires found.Some? ==> found.value < |s.objects|
  {
    var entry := Entry(s.id, Some(config));
    match found
    case None =>
      var r := ReconcileEntry(map[], entry);
      Created(s, TaskView(TaskState(PreFlight, 0, ""), r.spawned[0].target, false), spawned)
    case Some(i) =>
      var r := ReconcileEntry(map[s.id := s.objects[i]], entry);
      var t := s.(objects := s.objects[i := r.registry[s.id]]);
      if r.spawned == [] then t else t.(goroutines := t.goroutines[spawned := Goroutine(i, false)])
  }

  /** The references in the state denote objects. */
  ghost predicate WellFormed(s: System) {
    && (s.registered.Some? ==> s.registered.value < |s.objects|)
    && (forall p :: p in s.passes && s.passes[p].Some? ==> s.passes[p].value < |s.objects|)
    && (forall g :: g in s.goroutines ==> s.goroutines[g].on < |s.objects|)
  }

  ghost function Next(s: System, step: Step): System
    requires WellFormed(s) && Enabled(s, step)
  {
    match step
    case Look(pass) => s.(passes := s.passes[pass := s.registered])
    case Act(pass, config, spawned) =>
      Acted(s, s.passes[pass], config, spawned).(passes := s.passes - {pass})
    case Command(phase, spawned) =>
      Created(s, TaskView(TaskState(phase, 0, ""), Completed, false), spawned)
    case Start(g) =>
      var i := s.goroutines[g].on;
      if s.objects[i].running then s.(goroutines := s.goroutines - {g})
      else
        s.(objects := s.objects[i := s.objects[i].(running := true)],
           registered := Some(i),
           goroutines := s.goroutines[g := Goroutine(i, true)])
    case Advance(g, task) =>
      var i := s.goroutines[g].on;
      s.(objects := s.objects[i := s.objects[i].(task := task)])
    case Finish(g) =>
      var i := s.goroutines[g].on;
      s.(objects := s.objects[i := s.objects[i].(running := false)], goroutines := s.goroutines - {g})
  }

  /** The system after an interleaving of steps; None if the code does not allow it. */
  ghost function Run(s: System, steps: seq<Step>): Option<System> {
    if steps == [] then Some(s)
    else
      var n := |steps| - 1;
      match Run(s, steps[..n])
      case None => None
      case Some(mid) =>
        if WellFormed(mid) && Enabled(mid, steps[n]) then Some(Next(mid, steps[n])) else None
  }

  // ----- The guard is per object ---------------------------------------------------------

  predicate RunsOn(s: System, g: int, i: nat) {
    g in s.goroutines && s.goroutines[g] == Goroutine(i, true)
  }

  predicate WaitsOn(s: System, g: int, i: nat) {
    g in s.goroutines && s.goroutines[g] == Goroutine(i, false)
  }

  ghost predicate Awaited(s: System, i: nat) {
    exists g :: WaitsOn(s, g, i)
  }

  ghost predicate Busy(s: System, i: nat) {
    exists g :: RunsOn(s, g, i)
  }

  /** An object's flag says whether a goroutine is past its guard, and at most one is. */
  ghost predicate Guarded(s: System) {
    && (forall g, i: nat :: RunsOn(s, g, i) ==> i < |s.objects| && s.objects[i].running)
    && (forall g, h, i: nat :: RunsOn(s, g, i) && RunsOn(s, h, i) ==> g == h)
    && (forall i: nat :: i < |s.objects| && s.objects[i].running ==> Busy(s, i))
  }

  /** Before the first registration nothing runs, and every object has a goroutine that will
      come to its guard. */
  ghost predicate Unregistered(s: System) {
    s.registered.None? ==>
      && (forall p :: p in s.passes ==> s.passes[p].None?)
      && (forall g :: g in s.goroutines ==> !s.goroutines[g].running)
      && (forall i :: 0 <= i < |s.objects| ==> !s.objects[i].running)
      && (forall i: nat :: i < |s.objects| ==> Awaited(s, i))
  }

  ghost predicate Inv(s: System) {
    WellFormed(s) && Guarded(s) && Unregistered(s)
  }

  lemma CreatedKeepsInv(s: System, view: TaskView, spawned: int)
    requires Inv(s) && spawned !in s.goroutines && !view.running
    ensures Inv(Created(s, view, spawned))
  {
    var t := Created(s, view, spawned);
    if s.registered.None? {
      forall i: nat | i < |t.objects|
        ensures Awaited(t, i)
      {
        if i < |s.objects| {
          assert Awaited(s, i);
          var g :| WaitsOn(s, g, i);
          assert WaitsOn(t, g, i);
        } else {
          assert WaitsOn(t, spawned, i);
        }
      }
    }
    assert forall g, i: nat :: RunsOn(t, g, i) <==> RunsOn(s, g, i);
  }

  lemma ActedKeepsInv(s: System, found: Option<nat>, config: Config, spawned: int)
    requires Inv(s) && spawned !in s.goroutines
    requires found.Some? ==> found.value < |s.objects| && s.registered.Some?
    ensures Inv(Acted(s, found, config, spawned))
  {
    match found
    case None =>
      var target := if config.target.None? then Completed else config.target.value;
      CreatedKeepsInv(s, TaskView(TaskState(PreFlight, 0, ""), target, false), spawned);
    case Some(i) =>
      var t := Acted(s, found, config, spawned);
      assert forall g, j: nat :: RunsOn(t, g, j) <==> RunsOn(s, g, j);
  }

  lemma StartKeepsInv(s: System, g: int)
    requires Inv(s) && Enabled(s, Start(g))
    ensures Inv(Next(s, Start(g)))
  {
    var i := s.goroutines[g].on;
    var t := Next(s, Start(g));
    assert WaitsOn(s, g, i);
    forall h, j: nat | RunsOn(t, h, j)
      ensures if h == g then j == i else RunsOn(s, h, j)
    {
    }
    forall j: nat | j < |t.objects| && t.objects[j].running
      ensures Busy(t, j)
    {
      if s.objects[j].running {
        assert Busy(s, j);
        var h :| RunsOn(s, h, j);
        assert RunsOn(t, h, j);
      } else {
        assert RunsOn(t, g, j);
      }
    }
  }

  lemma FinishKeepsInv(s: System, g: int)
    requires Inv(s) && Enabled(s, Finish(g))
    ensures Inv(Next(s, Finish(g)))
  {
    var i := s.goroutines[g].on;
    var t := Next(s, Finish(g));
    assert RunsOn(s, g, i);
    forall h, j: nat | RunsOn(t, h, j)
      ensures RunsOn(s, h, j) && h != g && j != i
    {
      assert RunsOn(s, h, j);
    }
  }

  lemma AdvanceKeepsInv(s: System, g: int, task: TaskState)
    requires Inv(s) && Enabled(s, Advance(g, task))
    ensures Inv(Next(s, Advance(g, task)))
  {
    var t := Next(s, Advance(g, task));
    assert RunsOn(s, g, s.goroutines[g].on);
    assert forall h, j: nat :: RunsOn(t, h, j) <==> RunsOn(s, h, j);
  }

  lemma StepKeepsInv(s: System, step: Step)
    requires Inv(s) && Enabled(s, step)
    ensures Inv(Next(s, step))
  {
    match step
    case Look(_) => SameTasksKeepInv(s, Next(s, step));
    case Act(pass, config, spawned) =>
      var t := Acted(s, s.passes[pass], config, spawned);
      ActedKeepsInv(s, s.passes[pass], config, spawned);
      SameTasksKeepInv(t, Next(s, step));
    case Command(phase, spawned) => CreatedKeepsInv(s, TaskView(TaskState(phase, 0, ""), Completed, false), spawned);
    case Start(g) => StartKeepsInv(s, g);
    case Advance(g, task) => AdvanceKeepsInv(s, g, task);
    case Finish(g) => FinishKeepsInv(s, g);
  }

  lemma SameTasksKeepInv(s: System, t: System)
    requires Inv(s) && t == s.(passes := t.passes)
    requires forall p :: p in t.passes ==> t.passes[p] == s.registered || (p in s.passes && t.passes[p] == s.passes[p])
    ensures Inv(t)
  {
    assert forall g, i: nat :: RunsOn(t, g, i) <==> RunsOn(s, g, i);
    assert forall g, i: nat :: WaitsOn(t, g, i) <==> WaitsOn(s, g, i);
    forall i: nat | Awaited(s, i)
      ensures Awaited(t, i)
    {
      var g :| WaitsOn(s, g, i);
      assert WaitsOn(t, g, i);
    }
  }

  // ----- How many objects there are --------------------------------------------------------

  /** Some goroutine has come to its guard; the first to do so finds it open and registers. */
  ghost predicate SomeStart(steps: seq<Step>) {
    exists i :: 0 <= i < |steps| && steps[i].Start?
  }

  /** The pass last looked before any goroutine came to its guard. */
  ghost predicate LookedEarly(steps: seq<Step>, pass: int) {
    steps != [] &&
    var n := |steps| - 1;
    if steps[n] == Look(pass) then !SomeStart(steps[..n]) else LookedEarly(steps[..n], pass)
  }

  /** The step creates an object, judged from the steps before it alone: every command does,
      and every pass that looked before the first registration, however late it acts. */
  ghost predicate Creates(before: seq<Step>, step: Step) {
    step.Command? || (step.Act? && LookedEarly(before, step.pass))
  }

  ghost function Creations(steps: seq<Step>): nat {
    if steps == [] then 0
    else
      var n := |steps| - 1;
      Creations(steps[..n]) + (if Creates(steps[..n], steps[n]) then 1 else 0)
  }

  lemma SomeStartExtends(steps: seq<Step>)
    requires steps != []
    ensures SomeStart(steps) <==> SomeStart(steps[..|steps| - 1]) || steps[|steps| - 1].Start?
  {
    var init := steps[..|steps| - 1];
    if SomeStart(init) {
      var i :| 0 <= i < |init| && init[i].Start?;
      assert steps[i].Start?;
    }
  }

  /** What the steps alone say about the state they lead to. */
  ghost predicate Counted(s: System, steps: seq<Step>) {
    && |s.objects| == Creations(steps)
    && (s.registered.Some? <==> SomeStart(steps))
    && (forall p :: p in s.passes ==> (s.passes[p].None? <==> LookedEarly(steps, p)))
  }

  lemma StepKeepsCounted(s: System, before: seq<Step>, step: Step, all: seq<Step>)
    requires Inv(s) && Enabled(s, step) && Counted(s, before)
    requires all != [] && all[..|all| - 1] == before && all[|all| - 1] == step
    ensures Counted(Next(s, step), all)
  {
    var t := Next(s, step);
    SomeStartExtends(all);
    forall p | p in t.passes
      ensures t.passes[p].None? <==> LookedEarly(all, p)
    {
      if step != Look(p) {
        assert p in s.passes && t.passes[p] == s.passes[p];
      }
    }
  }

  /** In every interleaving there are as many task objects for the ID as there were commands
      and passes that looked before the first registration, and no pass that looks later ever
      adds one; at most one goroutine is past the guard of each object. */
  lemma {:induction false} ObjectsCounted(id: string, steps: seq<Step>)
    requires Run(Initial(id), steps).Some?
    ensures Inv(Run(Initial(id), steps).value) && Counted(Run(Initial(id), steps).value, steps)
  {
    if steps != [] {
      var n := |steps| - 1;
      var mid := Run(Initial(id), steps[..n]).value;
      ObjectsCounted(id, steps[..n]);
      StepKeepsInv(mid, steps[n]);
      StepKeepsCounted(mid, steps[..n], steps[n], steps);
    }
  }

  // ----- How many can run at once ----------------------------------------------------------

  ghost function Runners(s: System): set<int> {
    set g | g in s.goroutines && s.goroutines[g].running
  }

  lemma {:induction false} OneRunnerEach(s: System, runners: set<int>, n: nat)
    requires Guarded(s) && runners <= Runners(s)
    requires forall g :: g in runners ==> s.goroutines[g].on < n
    ensures |runners| <= n
  {
    if n == 0 {
      assert forall g :: g !in runners;
      assert runners == {};
    } else if exists g :: g in runners && s.goroutines[g].on == n - 1 {
      var g :| g in runners && s.goroutines[g].on == n - 1;
      assert RunsOn(s, g, n - 1);
      forall h | h in runners - {g}
        ensures s.goroutines[h].on < n - 1
      {
        assert RunsOn(s, h, s.goroutines[h].on);
      }
      OneRunnerEach(s, runners - {g}, n - 1);
    } else {
      OneRunnerEach(s, runners, n - 1);
    }
  }

  /** Never more goroutines migrate the ID at once than objects were created for it. */
  lemma RunnersAtMostCreations(id: string, steps: seq<Step>)
    requires Run(Initial(id), steps).Some?
    ensures |Runners(Run(Initial(id), steps).value)| <= Creations(steps)
  {
    ObjectsCounted(id, steps);
    var s := Run(Initial(id), steps).value;
    OneRunnerEach(s, Runners(s), |s.objects|);
  }

  /** The first n objects run, and the goroutines of the others still wait. */
  ghost predicate Half(s: System, n: nat) {
    && n <= |s.objects|
    && |Runners(s)| == n
    && forall i: nat :: n <= i < |s.objects| ==> !s.objects[i].running && Awaited(s, i)
  }

  lemma StartOneMore(s: System, n: nat) returns (g: int)
    requires Inv(s) && Half(s, n) && n < |s.objects|
    ensures Enabled(s, Start(g)) && Inv(Next(s, Start(g))) && Half(Next(s, Start(g)), n + 1)
    ensures |Next(s, Start(g)).objects| == |s.objects|
  {
    assert Awaited(s, n);
    g :| WaitsOn(s, g, n);
    var t := Next(s, Start(g));
    StartKeepsInv(s, g);
    assert Runners(t) == Runners(s) + {g};
    forall i: nat | n + 1 <= i < |t.objects|
      ensures Awaited(t, i)
    {
      assert Awaited(s, i);
      var h :| WaitsOn(s, h, i);
      assert WaitsOn(t, h, i);
    }
  }

  lemma {:induction false} StartFirst(s: System, n: nat) returns (starts: seq<Step>)
    requires Inv(s) && s.registered.None? && n <= |s.objects|
    ensures Run(s, starts).Some?
    ensures var t := Run(s, starts).value;
            Inv(t) && Half(t, n) && |t.objects| == |s.objects|
  {
    if n == 0 {
      assert forall g :: g !in Runners(s);
      assert Runners(s) == {};
      return [];
    }
    var before := StartFirst(s, n - 1);
    var g := StartOneMore(Run(s, before).value, n - 1);
    starts := before + [Start(g)];
    assert starts[..|before|] == before;
  }

  /** And until one registers, that many really can: the guards stop none of them. */
  lemma EveryObjectCanRun(id: string, steps: seq<Step>)
    requires Run(Initial(id), steps).Some? && !SomeStart(steps)
    ensures exists starts ::
              var end := Run(Run(Initial(id), steps).value, starts);
              end.Some? && |Runners(end.value)| == Creations(steps)
  {
    ObjectsCounted(id, steps);
    var s := Run(Initial(id), steps).value;
    var starts := StartFirst(s, |s.objects|);
    assert Run(s, starts).Some?;
  }

  /** At most one goroutine ever migrates the ID, whatever order the goroutines started so far
      come to their guards in, exactly when at most one object was created. */
  lemma OneRunnerIffOneCreation(id: string, steps: seq<Step>)
    requires Run(Initial(id), steps).Some? && !SomeStart(steps)
    ensures (forall more :: Run(Initial(id), steps + more).Some? && Creations(steps + more) == Creations(steps)
                            ==> |Runners(Run(Initial(id), steps + more).value)| <= 1)
            <==> Creations(steps) <= 1
  {
    if Creations(steps) <= 1 {
      forall more | Run(Initial(id), steps + more).Some? && Creations(steps + more) == Creations(steps)
        ensures |Runners(Run(Initial(id), steps + more).value)| <= 1
      {
        RunnersAtMostCreations(id, steps + more);
      }
    } else {
      ObjectsCounted(id, steps);
      var s := Run(Initial(id), steps).value;
      var starts := StartFirst(s, |s.objects|);
      RunConcat(Initial(id), steps, starts);
      ObjectsCounted(id, steps + starts);
    }
  }

  // ----- What a pass brings about ----------------------------------------------------------

  /** A pass that found nothing creates a task at the first phase, with the target asked for or
      the end, and a goroutine for it; a command creates one at the phase it names. */
  lemma NewTasksExactly(s: System, step: Step)
    requires Inv(s) && Enabled(s, step)
    requires step.Command? || (step.Act? && s.passes[step.pass].None?)
    ensures var t := Next(s, step);
            && t.objects == s.objects +
               [TaskView(TaskState(if step.Command? then step.phase else PreFlight, 0, ""),
                         if step.Act? && step.config.target.Some? then step.config.target.value else Completed,
                         false)]
            && t.registered == s.registered
            && t.goroutines == s.goroutines[step.spawned := Goroutine(|s.objects|, false)]
  {
  }

  /** A pass that found a registered task changes its target to the one asked for, if any, and
      nothing else of it; and starts a goroutine exactly if that is a change and none runs. */
  lemma RetargetsExactly(s: System, step: Step)
    requires Inv(s) && Enabled(s, step)
    requires step.Act? && s.passes[step.pass].Some?
    ensures var t, i, asked := Next(s, step), s.passes[step.pass].value, step.config.target;
            && t.objects == s.objects[i := s.objects[i].(
                              target := if asked.Some? then asked.value else s.objects[i].target)]
            && t.registered == s.registered
            && t.goroutines
               == if asked.Some? && asked.value != s.objects[i].target && !s.objects[i].running
                  then s.goroutines[step.spawned := Goroutine(i, false)] else s.goroutines
  {
  }

  /** What a goroutine does: get past an open guard and register its own object, even over
      another one; go away at a closed one; move its task; leave and open the guard again. */
  lemma GoroutineExactly(s: System, g: int, task: TaskState)
    requires Inv(s) && g in s.goroutines
    ensures var i := s.goroutines[g].on;
            if s.goroutines[g].running then
              && Next(s, Advance(g, task)).objects == s.objects[i := s.objects[i].(task := task)]
              && Next(s, Advance(g, task)).goroutines == s.goroutines
              && Next(s, Finish(g)).objects == s.objects[i := s.objects[i].(running := false)]
              && Next(s, Finish(g)).goroutines == s.goroutines - {g}
              && Next(s, Finish(g)).registered == s.registered
            else if s.objects[i].running then Next(s, Start(g)) == s.(goroutines := s.goroutines - {g})
            else
              && Next(s, Start(g)).registered == Some(i)
              && Next(s, Start(g)).objects == s.objects[i := s.objects[i].(running := true)]
              && Next(s, Start(g)).goroutines == s.goroutines[g := Goroutine(i, true)]
  {
  }

  /** Nothing gets stuck: a pass that looked can always act, a goroutine before the guard can
      always come to it, and one past it can always go on or leave. */
  lemma StepsPossible(id: string, steps: seq<Step>, step: Step)
    requires Run(Initial(id), steps).Some?
    ensures var s := Run(Initial(id), steps).value;
            Run(Initial(id), steps + [step]).Some? <==>
            match step
            case Look(pass) => pass !in s.passes
            case Act(pass, _, g) => pass in s.passes && g !in s.goroutines
            case Command(_, g) => g !in s.goroutines
            case Start(g) => g in s.goroutines && !s.goroutines[g].running
            case Advance(g, _) => g in s.goroutines && s.goroutines[g].running
            case Finish(g) => g in s.goroutines && s.goroutines[g].running
  {
    ObjectsCounted(id, steps);
    assert (steps + [step])[..|steps|] == steps;
  }

  /** A paused migration is resumed. From any reachable state in which a task is registered and
      nobody runs it, a pass that asks for another target has it running again towards that
      target as soon as the goroutine it starts has come to the guard: the same object, with
      the phase and progress it had. */
  lemma NewTargetResumes(id: string, steps: seq<Step>, pass: int, target: Phase, g: int)
    requires Run(Initial(id), steps).Some?
    requires var s := Run(Initial(id), steps).value;
             && pass !in s.passes && g !in s.goroutines
             && s.registered.Some? && s.registered.value < |s.objects|
             && !s.objects[s.registered.value].running && s.objects[s.registered.value].target != target
    ensures var s := Run(Initial(id), steps).value;
            var end := Run(s, [Look(pass), Act(pass, Config(Some(target)), g), Start(g)]);
            end.Some? &&
            var t, i := end.value, s.registered.value;
            && |t.objects| == |s.objects|
            && t.objects[i] == TaskView(s.objects[i].task, target, true)
            && RunsOn(t, g, i) && t.registered == Some(i)
  {
    ObjectsCounted(id, steps);
    var s := Run(Initial(id), steps).value;
    var act := Act(pass, Config(Some(target)), g);
    var looked := Next(s, Look(pass));
    StepKeepsInv(s, Look(pass));
    RetargetsExactly(looked, act);
    StepKeepsInv(looked, act);
    var acted := Next(looked, act);
    GoroutineExactly(acted, g, s.objects[0].task);
    RunThree(s, Look(pass), act, Start(g));
  }

  lemma RunThree(s: System, a: Step, b: Step, c: Step)
    requires WellFormed(s) && Enabled(s, a)
    requires WellFormed(Next(s, a)) && Enabled(Next(s, a), b)
    requires WellFormed(Next(Next(s, a), b)) && Enabled(Next(Next(s, a), b), c)
    ensures Run(s, [a, b, c]) == Some(Next(Next(Next(s, a), b), c))
  {
    assert [a][..0] == [];
    assert Run(s, [a]) == Some(Next(s, a));
    assert [a, b][..1] == [a];
    assert Run(s, [a, b]) == Some(Next(Next(s, a), b));
    assert [a, b, c][..2] == [a, b];
  }

  lemma {:induction false} RunConcat(s: System, a: seq<Step>, b: seq<Step>)
    requires Run(s, a).Some?
    ensures Run(s, a + b) == Run(Run(s, a).value, b)
  {
    if b == [] {
      assert a + b == a;
    } else {
      assert (a + b)[..|a + b| - 1] == a + b[..|b| - 1];
      RunConcat(s, a, b[..|b| - 1]);
    }
  }
}
