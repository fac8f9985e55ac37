/** The objects behind the phase machine: a task updated in place by RunMigration, and the
    agent whose reconciliation (internal/agent/reconcile.go) creates and retargets tasks. */
module MigrationAgent {
  import opened Common
  import opened Migration

  class MigrationTask {
    const id: string
    var phase: Phase
    var targetPhase: Phase
    var progress: int
    var errorMessage: string
    var isRunning: bool

    ghost function State(): TaskState
      reads this
    {
      TaskState(phase, progress, errorMessage)
    }

    ghost function View(): TaskView
      reads this
    {
      TaskView(State(), targetPhase, isRunning)
    }

    constructor (id: string, phase: Phase, targetPhase: Phase)
      ensures this.id == id && View() == TaskView(TaskState(phase, 0, ""), targetPhase, false)
    {
      this.id, this.phase, this.targetPhase := id, phase, targetPhase;
      progress, errorMessage, isRunning := 0, "", false;
    }

    /** One pass through the switch: the phase body and the transition after it. The CDC case
        moves on to the next phase even when its body fails. */
    method ExecutePhase(error: Option<string>)
      requires Working(phase)
      modifies this`phase, this`progress
      ensures error.None? ==> State() == Body(old(State()), None)
      ensures error.Some? ==>
                progress == old(progress) && phase == if old(phase) == CDC then Cutover else old(phase)
    {
      match phase
      case PreFlight =>
        RunBody(PreFlight, 20, error);
        if error.None? {
          phase := Schema;
        }
      case Schema =>
        RunBody(Schema, 40, error);
        if error.None? {
          phase := FullLoad;
        }
      case FullLoad =>
        RunBody(FullLoad, 60, error);
        if error.None? {
          phase := CDC;
        }
      case CDC =>
        RunBody(CDC, 80, error);
        phase := Cutover;
      case Cutover =>
        RunBody(Cutover, 100, error);
        if error.None? {
          phase := Completed;
        }
    }

    /** What every migration body does to the task: name its phase, and report its share of
        the progress if it gets to the end. */
    method RunBody(own: Phase, share: int, error: Option<string>)
      modifies this`phase, this`progress
      ensures phase == own
      ensures progress == if error.None? then share else old(progress)
    {
      phase := own;
      if error.Some? {
        return;
      }
      progress := share;
    }
  }

  datatype TaskView = TaskView(task: TaskState, target: Phase, running: bool)

  type Registry = map<string, TaskView>

  /** One entry of the manifest: no configuration means the entry is not a struct, no target
      means the target_phase field is missing or empty. */
  datatype Entry = Entry(id: string, config: Option<Config>)

  datatype Config = Config(target: Option<Phase>)

  /** A goroutine that reconciliation starts: on a new task, or on a registered one. */
  datatype Spawn = Spawn(id: string, created: bool, target: Phase)

  datatype Reconciled = Reconciled(registry: Registry, spawned: seq<Spawn>)

  function ReconcileEntry(registry: Registry, entry: Entry): Reconciled {
    if entry.config.None? then Reconciled(registry, [])
    else
      var target := entry.config.value.target;
      if entry.id !in registry then
        Reconciled(registry, [Spawn(entry.id, true, if target.None? then Completed else target.value)])
      else
        var view := registry[entry.id];
        if target.None? || target.value == view.target then Reconciled(registry, [])
        else
          Reconciled(registry[entry.id := view.(target := target.value)],
                     if view.running then [] else [Spawn(entry.id, false, target.value)])
  }

  function Reconcile(registry: Registry, entries: seq<Entry>): Reconciled {
    if entries == [] then Reconciled(registry, [])
    else
      var n := |entries| - 1;
      var before := Reconcile(registry, entries[..n]);
      var last := ReconcileEntry(before.registry, entries[n]);
      Reconciled(last.registry, before.spawned + last.spawned)
  }

  lemma ReconcileExtends(registry: Registry, entries: seq<Entry>, i: nat)
    requires i < |entries|
    ensures var before := Reconcile(registry, entries[..i]);
            var last := ReconcileEntry(before.registry, entries[i]);
            Reconcile(registry, entries[..i + 1]) == Reconciled(last.registry, before.spawned + last.spawned)
  {
    assert entries[..i + 1][..i] == entries[..i];
  }

  /** The manifest asks for nothing that is not already so. */
  ghost predicate Settled(registry: Registry, entries: seq<Entry>) {
    forall i :: 0 <= i < |entries| && entries[i].config.Some? ==>
      && entries[i].id in registry
      && (entries[i].config.value.target.Some? ==>
            registry[entries[i].id].target == entries[i].config.value.target.value)
  }

  /** A settled manifest can be applied again and again: no task is touched and none started,
      whatever phase the tasks are in. */
  lemma {:induction false} SettledManifestDoesNothing(registry: Registry, entries: seq<Entry>)
    requires Settled(registry, entries)
    ensures Reconcile(registry, entries) == Reconciled(registry, [])
  {
    if entries != [] {
      SettledManifestDoesNothing(registry, entries[..|entries| - 1]);
    }
  }

  /** The entries of a manifest have different identifiers, being keys of one struct. */
  ghost predicate DistinctIds(entries: seq<Entry>) {
    forall i, j :: 0 <= i < j < |entries| ==> entries[i].id != entries[j].id
  }

  /** Reconciliation changes nothing but targets, and those only for entries of the manifest:
      every registered task keeps its phase, progress and guard. */
  lemma {:induction false} ReconcileKeepsTasks(registry: Registry, entries: seq<Entry>)
    ensures var after := Reconcile(registry, entries).registry;
            && after.Keys == registry.Keys
            && (forall id :: id in registry ==>
                  && after[id].task == registry[id].task
                  && after[id].running == registry[id].running
                  && ((forall j :: 0 <= j < |entries| ==> entries[j].id != id) ==> after[id] == registry[id]))
  {
    if entries != [] {
      var n := |entries| - 1;
      ReconcileKeepsTasks(registry, entries[..n]);
      assert forall j :: 0 <= j < n ==> entries[..n][j] == entries[j];
    }
  }

  /** The target a registered task has after its entry: the one asked for, if any. An entry
      that is not a struct asks for nothing. */
  function TargetFor(view: TaskView, entry: Entry): Phase {
    if entry.config.Some? && entry.config.value.target.Some? then entry.config.value.target.value else view.target
  }

  /** When the last entry's turn comes its task is as it was. */
  lemma UntouchedByOthers(registry: Registry, entries: seq<Entry>)
    requires DistinctIds(entries) && entries != []
    ensures var n := |entries| - 1;
            var before := Reconcile(registry, entries[..n]).registry;
            && (entries[n].id in before <==> entries[n].id in registry)
            && (entries[n].id in registry ==> before[entries[n].id] == registry[entries[n].id])
  {
    var n := |entries| - 1;
    ReconcileKeepsTasks(registry, entries[..n]);
    assert forall j :: 0 <= j < n ==> entries[..n][j].id != entries[n].id;
  }

  lemma {:induction false} ReconcileSetsTarget(registry: Registry, entries: seq<Entry>, i: nat)
    requires DistinctIds(entries) && i < |entries| && entries[i].id in registry
    ensures entries[i].id in Reconcile(registry, entries).registry
    ensures Reconcile(registry, entries).registry[entries[i].id].target
            == TargetFor(registry[entries[i].id], entries[i])
  {
    var n := |entries| - 1;
    if i < n {
      ReconcileSetsTarget(registry, entries[..n], i);
      assert entries[n].id != entries[i].id;
    } else {
      UntouchedByOthers(registry, entries);
    }
    EntrySetsTarget(Reconcile(registry, entries[..n]).registry, entries[n]);
  }

  lemma EntrySetsTarget(registry: Registry, entry: Entry)
    ensures var after := ReconcileEntry(registry, entry).registry;
            && (forall id :: id in registry && id != entry.id ==> id in after && after[id] == registry[id])
            && (entry.id in registry ==>
                  entry.id in after && after[entry.id].target == TargetFor(registry[entry.id], entry))
  {
  }

  /** Applying a manifest to registered tasks settles it: the same manifest applied again
      starts no further runner. */
  lemma ReconcileSettles(registry: Registry, entries: seq<Entry>)
    requires DistinctIds(entries)
    requires forall i :: 0 <= i < |entries| && entries[i].config.Some? ==> entries[i].id in registry
    ensures var after := Reconcile(registry, entries).registry;
            Reconcile(after, entries) == Reconciled(after, [])
  {
    var after := Reconcile(registry, entries).registry;
    forall i | 0 <= i < |entries| && entries[i].config.Some?
      ensures entries[i].id in after
      ensures entries[i].config.value.target.Some? ==>
                after[entries[i].id].target == entries[i].config.value.target.value
    {
      ReconcileSetsTarget(registry, entries, i);
    }
    SettledManifestDoesNothing(after, entries);
  }

  /** The entry starts this runner: on a new task at the target asked for, or at the end if it
      asks for none; or on a registered one that is paused or finished, if it asks for another
      target than the one it has. */
  predicate Starts(registry: Registry, entry: Entry, s: Spawn) {
    && s.id == entry.id
    && entry.config.Some?
    && var asked := entry.config.value.target;
       if s.created then entry.id !in registry && s.target == (if asked.Some? then asked.value else Completed)
       else
         && entry.id in registry
         && !registry[entry.id].running
         && asked.Some? && asked.value != registry[entry.id].target && s.target == asked.value
  }

  /** What a manifest starts, and nothing but that. */
  lemma {:induction false} SpawnedExactly(registry: Registry, entries: seq<Entry>, s: Spawn)
    requires DistinctIds(entries)
    ensures s in Reconcile(registry, entries).spawned
            <==> exists i :: 0 <= i < |entries| && Starts(registry, entries[i], s)
  {
    if entries != [] {
      var n := |entries| - 1;
      var before := Reconcile(registry, entries[..n]);
      SpawnedExactly(registry, entries[..n], s);
      UntouchedByOthers(registry, entries);
      EntryStartsExactly(before.registry, entries[n], s);
      assert forall i :: 0 <= i < n ==> entries[..n][i] == entries[i];
    }
  }

  lemma EntryStartsExactly(registry: Registry, entry: Entry, s: Spawn)
    ensures s in ReconcileEntry(registry, entry).spawned <==> Starts(registry, entry, s)
  {
  }

  /** No task gets two runners from one manifest. */
  lemma {:induction false} SpawnedOnce(registry: Registry, entries: seq<Entry>)
    requires DistinctIds(entries)
    ensures var spawned := Reconcile(registry, entries).spawned;
            forall i, j :: 0 <= i < j < |spawned| ==> spawned[i].id != spawned[j].id
  {
    if entries != [] {
      var n := |entries| - 1;
      var before := Reconcile(registry, entries[..n]);
      SpawnedOnce(registry, entries[..n]);
      EntrySpawnsItself(before.registry, entries[n]);
      forall i | 0 <= i < |before.spawned|
        ensures before.spawned[i].id != entries[n].id
      {
        SpawnedExactly(registry, entries[..n], before.spawned[i]);
        var k :| 0 <= k < n && Starts(registry, entries[..n][k], before.spawned[i]);
        assert entries[k].id != entries[n].id;
      }
    }
  }

  lemma EntrySpawnsItself(registry: Registry, entry: Entry)
    ensures var spawned := ReconcileEntry(registry, entry).spawned;
            |spawned| <= 1 && forall i :: 0 <= i < |spawned| ==> spawned[i].id == entry.id
  {
  }

  class Agent {
    var migrations: map<string, MigrationTask>

    constructor ()
      ensures migrations == map[]
    {
      migrations := map[];
    }

    /** The test-and-set guard, the loop, and the deferred release of the guard. The targets
        that others write into the task while it runs are in `changes`, one place for each
        comparison that can see them. */
    method RunMigration(task: MigrationTask, outcomes: Outcomes, changes: seq<Option<Phase>>)
      returns (ghost log: seq<Executed>)
      modifies this, task
      ensures old(task.isRunning) ==>
                task.View() == old(task.View()) && migrations == old(migrations) && log == []
      ensures !old(task.isRunning) ==>
                && !task.isRunning
                && migrations == old(migrations)[task.id := task]
                && Steered(Result(task.State(), log), task.targetPhase)
                   == RunWith(old(task.State()), old(task.targetPhase), outcomes, changes)
    {
      log := [];
      if task.isRunning {
        return;
      }
      task.isRunning := true;
      migrations := migrations[task.id := task];
      ghost var start, target := task.State(), task.targetPhase;
      var others := changes;
      while true
        invariant migrations == old(migrations)[task.id := task]
        invariant After(log, RunWith(task.State(), task.targetPhase, outcomes, others))
                  == RunWith(start, target, outcomes, changes)
        decreases 5 - Rank(task.phase), Working(task.phase)
      {
        AfterUnfolds(log, task.State(), task.targetPhase, outcomes, others);
        if others != [] {
          if others[0].Some? {
            task.targetPhase := others[0].value;
          }
          others := others[1..];
        }
        if (task.phase == task.targetPhase && task.phase != Completed) || !Working(task.phase) {
          break;
        }
        var error := outcomes(task.phase);
        log := log + [Executed(task.phase, error.None?)];
        task.ExecutePhase(error);
        if error.Some? {
          task.phase := Failed;
          task.errorMessage := error.value;
          break;
        }
      }
      task.isRunning := false;
    }

    /** Distinct identifiers are distinct objects. */
    ghost predicate Valid()
      reads this, migrations.Values
    {
      forall id :: id in migrations ==> migrations[id].id == id
    }

    ghost function Tasks(): Registry
      reads this, migrations.Values
    {
      map id | id in migrations :: migrations[id].View()
    }

    method ReconcileOne(entry: Entry) returns (spawned: seq<MigrationTask>)
      requires Valid()
      modifies if entry.id in migrations then {migrations[entry.id]} else {}
      ensures Valid()
      ensures Tasks() == ReconcileEntry(old(Tasks()), entry).registry
      ensures Spawned(migrations, spawned, ReconcileEntry(old(Tasks()), entry).spawned)
      ensures forall t :: t in spawned ==> t.id == entry.id
    {
      spawned := [];
      if entry.config.None? {
        return;
      }
      var config := entry.config.value;
      if entry.id !in migrations {
        var target := Completed;
        if config.target.Some? {
          target := config.target.value;
        }
        var task := new MigrationTask(entry.id, PreFlight, target);
        spawned := [task];
      } else {
        var task := migrations[entry.id];
        if config.target.Some? && config.target.value != task.targetPhase {
          task.targetPhase := config.target.value;
          if !task.isRunning {
            spawned := [task];
          }
        }
      }
    }

    /** One more entry, after others with different identifiers. */
    method ReconcileNext(entry: Entry, spawned: seq<MigrationTask>, ghost done: Reconciled)
      returns (all: seq<MigrationTask>)
      requires Valid() && Tasks() == done.registry && Spawned(migrations, spawned, done.spawned)
      requires forall t :: t in spawned ==> t.id != entry.id
      modifies migrations.Values
      ensures Valid()
      ensures var last := ReconcileEntry(done.registry, entry);
              && Tasks() == last.registry
              && Spawned(migrations, all, done.spawned + last.spawned)
      ensures forall t :: t in all ==> t in spawned || t.id == entry.id
    {
      var more := ReconcileOne(entry);
      all := spawned + more;
    }

    /** reconcileMigrations, given the manifest's entries in whatever order the map yields
        them; the returned tasks are those handed to new goroutines. */
    method ReconcileMigrations(entries: seq<Entry>) returns (spawned: seq<MigrationTask>)
      requires Valid() && DistinctIds(entries)
      modifies migrations.Values
      ensures Valid()
      ensures Tasks() == Reconcile(old(Tasks()), entries).registry
      ensures Spawned(migrations, spawned, Reconcile(old(Tasks()), entries).spawned)
    {
      spawned := [];
      ghost var tasks := Tasks();
      ghost var done := Reconciled(tasks, []);
      assert entries[..0] == [];
      for i := 0 to |entries|
        invariant Valid()
        invariant done == Reconcile(tasks, entries[..i])
        invariant Tasks() == done.registry
        invariant Spawned(migrations, spawned, done.spawned)
        invariant forall t :: t in spawned ==> exists j :: 0 <= j < i && entries[j].id == t.id
      {
        ReconcileExtends(tasks, entries, i);
        ghost var last := ReconcileEntry(done.registry, entries[i]);
        spawned := ReconcileNext(entries[i], spawned, done);
        done := Reconciled(last.registry, done.spawned + last.spawned);
      }
      assert entries[..|entries|] == entries;
    }

    /** The tasks handed to goroutines are the ones the specification names: a new task at the
        first phase, or the registered object itself. */
    ghost predicate Spawned(registered: map<string, MigrationTask>, tasks: seq<MigrationTask>, spawns: seq<Spawn>)
      reads tasks
    {
      && |tasks| == |spawns|
      && forall i :: 0 <= i < |tasks| ==>
           && tasks[i].id == spawns[i].id
           && tasks[i].targetPhase == spawns[i].target
           && (if spawns[i].created then tasks[i].State() == TaskState(PreFlight, 0, "")
               else spawns[i].id in registered && tasks[i] == registered[spawns[i].id])
    }
  }

  /** A run that continues after the bodies in the log. */
  function After(log: seq<Executed>, rest: Steered): Steered {
    Steered(Then(log, rest.run), rest.target)
  }

  /** One pass through the loop, after the bodies in the log. */
  lemma AfterUnfolds(log: seq<Executed>, task: TaskState, target: Phase, outcomes: Outcomes,
                     changes: seq<Option<Phase>>)
    ensures var now, rest := Retargeted(target, changes), if changes == [] then [] else changes[1..];
            After(log, RunWith(task, target, outcomes, changes)) ==
            if Stops(task.phase, now) then Steered(Result(task, log), now)
            else
              var error := outcomes(task.phase);
              var done, next := log + [Executed(task.phase, error.None?)], Body(task, error);
              if error.Some? then Steered(Result(next, done), now)
              else After(done, RunWith(next, now, outcomes, rest))
  {
    var now := Retargeted(target, changes);
    if Stops(task.phase, now) {
      ThenNothing(log, task);
    } else {
      var error := outcomes(task.phase);
      var next := Body(task, error);
      ThenOne(log, Executed(task.phase, error.None?),
              RunWith(next, now, outcomes, if changes == [] then [] else changes[1..]).run);
      ThenNothing(log + [Executed(task.phase, error.None?)], next);
    }
  }

  lemma ThenNothing(log: seq<Executed>, task: TaskState)
    ensures Then(log, Result(task, [])) == Result(task, log)
  {
    assert log + [] == log;
  }

  lemma ThenOne(log: seq<Executed>, done: Executed, rest: Result)
    ensures Then(log, Push(done, rest)) == Then(log + [done], rest)
    ensures Then(log, Result(rest.task, [done])) == Then(log + [done], Result(rest.task, []))
  {
    assert log + ([done] + rest.log) == log + [done] + rest.log;
    assert log + [done] + [] == log + [done];
  }
}
