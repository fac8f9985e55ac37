/** What ends up on disk, what a killed and restarted process resumes with, and what the
    persisted record says about the past. */
module EngineRestart {
  import opened Common
  import opened StateFile
  import opened EngineModel
  import EngineAgreement
  import opened EngineFencing
  import opened EngineCrash

  // ----- What a tick saves ----------------------------------------------------------------

  /** A tick without a snapshot does nothing at all. */
  lemma BlindTick(defaultSize: int, core: Core, input: Input)
    requires input.view.latest.None?
    ensures Tick(defaultSize, core, input) == Outcome(core, [])
  {
  }

  lemma SavesAtEnd(world: World, effects: seq<Effect>, save: Effect)
    requires save.Save?
    ensures PerformAll(world, effects + [save]).disk
            == if save.stop.Done? then Some(save.state) else PerformAll(world, effects).disk
  {
    PerformConcat(world, effects, [save]);
    PerformOne(PerformAll(world, effects), save);
  }

  lemma SetsKeepDisk(world: World, effects: seq<Effect>)
    requires |effects| <= 1 && forall e :: e in effects ==> e.SetPool?
    ensures PerformAll(world, effects).disk == world.disk
  {
    if effects != [] {
      assert effects == [effects[0]];
      PerformOne(world, effects[0]);
    }
  }

  lemma DiskAfterFence(core: Core, role: string, answers: Answers, world: World)
    ensures var o := HandleFailover(core, role, answers);
            PerformAll(world, o.effects + [Save(o.core.state, answers.firstSave)]).disk
            == if answers.firstSave.Done? then Some(o.core.state) else world.disk
  {
    var o := HandleFailover(core, role, answers);
    SavesAtEnd(world, o.effects, Save(o.core.state, answers.firstSave));
    SetsKeepDisk(world, o.effects);
  }

  lemma DiskAfterRecovery(defaultSize: int, core: Core, answers: Answers, world: World)
    ensures var o := MaybeRecover(defaultSize, core, answers);
            PerformAll(world, o.effects).disk
            == if core.state.Suppressed() && answers.firstSave.Done? then Some(o.core.state) else world.disk
    ensures MaybeRecover(defaultSize, core, answers).core.state
            == if core.state.Suppressed() && answers.restore.Applied? then Reopen(defaultSize, core.state)
               else core.state
  {
    if core.state.Suppressed() {
      var recovery := HandleRecovery(defaultSize, core, answers);
      SavesAtEnd(world, recovery.effects, Save(recovery.core.state, answers.firstSave));
      SetsKeepDisk(world, recovery.effects);
    }
  }

  lemma DiskAfterLoad(core: Core, zone: Zone, maxConns: int, answers: Answers, before: seq<Effect>, world: World)
    ensures var o := EvaluateLoad(core, zone, maxConns, answers.load);
            PerformAll(world, before + o.effects + [Save(o.core.state, answers.lastSave)]).disk
            == if answers.lastSave.Done? then Some(o.core.state) else PerformAll(world, before).disk
  {
    var o := EvaluateLoad(core, zone, maxConns, answers.load);
    SavesAtEnd(world, before + o.effects, Save(o.core.state, answers.lastSave));
    PerformConcat(world, before, o.effects);
    LoadOnlySets(core, zone, maxConns, answers.load);
    SetsKeepDisk(PerformAll(world, before), o.effects);
  }

  lemma LoadOnlySets(core: Core, zone: Zone, maxConns: int, answer: SetOutcome)
    ensures var effects := EvaluateLoad(core, zone, maxConns, answer).effects;
            && |effects| == (if EngineAgreement.ResizeDue(core, zone, maxConns) then 1 else 0)
            && forall e :: e in effects ==> e.SetPool?
  {
  }

  /** The disk after a tick. Every tick that sees a snapshot saves as its last act the state it
      ends with; a tick that recovers saves before it evaluates the load as well, and that is
      what stays if the last save is stopped. */
  lemma DiskAfterTick(defaultSize: int, core: Core, input: Input, world: World)
    ensures var o := Tick(defaultSize, core, input);
            var recovers := core.state.Suppressed() && !KeepsFence(input);
            PerformAll(world, o.effects).disk ==
            if input.view.latest.None? then world.disk
            else if (if FencedRole(input.view.role) then input.answers.firstSave else input.answers.lastSave).Done? then
              Some(o.core.state)
            else if recovers && input.answers.firstSave.Done? then
              Some(if input.answers.restore.Applied? then Reopen(defaultSize, core.state) else core.state)
            else world.disk
  {
    var Input(view, answers) := input;
    if view.latest.Some? {
      if FencedRole(view.role) {
        DiskAfterFence(core, view.role, answers, world);
      } else {
        var first := MaybeRecover(defaultSize, core, answers);
        DiskAfterRecovery(defaultSize, core, answers, world);
        DiskAfterLoad(first.core, ZoneRead(view), view.latest.value.maxConns, answers, first.effects, world);
      }
    }
  }

  /** The state after an acknowledged restore: the size before the suppression is still kept. */
  function Reopen(defaultSize: int, state: EngineState): EngineState {
    EngineState("primary", state.lastPoolSize, None,
                if state.lastPoolSize <= 0 then defaultSize else state.lastPoolSize)
  }

  predicate SavesWork(inputs: seq<Input>) {
    forall i :: 0 <= i < |inputs| ==> inputs[i].answers.firstSave.Done? && inputs[i].answers.lastSave.Done?
  }

  /** While saves work the disk never lags: after every tick of every run it holds the memory
      of the engine, provided it did at the start or some tick has seen a snapshot. */
  lemma {:induction false} DiskKeepsUp(defaultSize: int, core: Core, inputs: seq<Input>, world: World)
    requires SavesWork(inputs)
    requires world.disk == Some(core.state) || exists i :: 0 <= i < |inputs| && inputs[i].view.latest.Some?
    ensures PerformAll(world, Trace(defaultSize, core, inputs)).disk == Some(Run(defaultSize, core, inputs).state)
  {
    if inputs != [] {
      var n := |inputs| - 1;
      var init, now := Trace(defaultSize, core, inputs[..n]), Run(defaultSize, core, inputs[..n]);
      DiskAfterTick(defaultSize, now, inputs[n], PerformAll(world, init));
      PerformConcat(world, init, Tick(defaultSize, now, inputs[n]).effects);
      if inputs[n].view.latest.None? {
        BlindTick(defaultSize, now, inputs[n]);
        if world.disk != Some(core.state) {
          var i :| 0 <= i < |inputs| && inputs[i].view.latest.Some?;
          assert inputs[..n][i].view.latest.Some?;
        }
        DiskKeepsUp(defaultSize, core, inputs[..n], world);
      }
    }
  }

  // ----- Killed and restarted -------------------------------------------------------------

  /** What a new process starts with. */
  lemma StartsWith(defaultSize: int, world: World, queried: bool)
    ensures var core := Next(defaultSize, Plant(world, None), Started(queried)).process.value;
            && core.above == core.below == 0
            && core.state.currentPoolSize
               == (if queried then world.pool
                   else if world.disk.Some? then world.disk.value.currentPoolSize else defaultSize)
            && (world.disk.Some? ==> core.state == world.disk.value.(currentPoolSize := core.state.currentPoolSize))
            && (world.disk.None? ==>
                  core.state.lastRole == "" && core.state.lastPoolSize == defaultSize && !core.state.Suppressed())
  {
    assert PerformAll(world, []) == world;
  }

  function Events(inputs: seq<Input>): (events: seq<Event>)
    ensures |events| == |inputs|
  {
    seq(|inputs|, i requires 0 <= i < |inputs| => Ticked(inputs[i]))
  }

  lemma {:induction false} TicksAreRun(defaultSize: int, core: Core, inputs: seq<Input>, world: World)
    ensures After(defaultSize, Plant(world, Some(core)), Events(inputs))
            == Plant(PerformAll(world, Trace(defaultSize, core, inputs)), Some(Run(defaultSize, core, inputs)))
  {
    if inputs == [] {
      assert PerformAll(world, []) == world;
    } else {
      var n := |inputs| - 1;
      TicksAreRun(defaultSize, core, inputs[..n], world);
      assert Events(inputs)[..n] == Events(inputs[..n]);
      PerformConcat(world, Trace(defaultSize, core, inputs[..n]),
                    Tick(defaultSize, Run(defaultSize, core, inputs[..n]), inputs[n]).effects);
    }
  }

  /** A process killed between two ticks and started again goes on where it was: every field of
      its state is back, suppressed or not, with the size replaced by PgBouncer's own if it can
      be asked; only the counters start anew. */
  lemma RestartResumes(defaultSize: int, core: Core, inputs: seq<Input>, world: World, last: Input, queried: bool)
    requires SavesWork(inputs) && exists i :: 0 <= i < |inputs| && inputs[i].view.latest.Some?
    ensures var end := Run(defaultSize, core, inputs).state;
            var plant := After(defaultSize, Plant(world, Some(core)), Events(inputs));
            var again := Next(defaultSize, Next(defaultSize, plant, Crashed(last, 0)), Started(queried));
            && again.world == plant.world
            && again.process.Some?
            && again.process.value
               == Core(if queried then end.(currentPoolSize := again.world.pool) else end, 0, 0)
  {
    TicksAreRun(defaultSize, core, inputs, world);
    DiskKeepsUp(defaultSize, core, inputs, world);
    var plant := After(defaultSize, Plant(world, Some(core)), Events(inputs));
    var effects := Tick(defaultSize, Run(defaultSize, core, inputs), last).effects;
    assert effects[..0] == [];
    assert PerformAll(plant.world, []) == plant.world;
  }

  /** At most one SET and then a save, cut short. */
  lemma CutAnywhere(world: World, sets: seq<Effect>, save: Effect, reached: nat)
    requires |sets| <= 1 && save.Save? && forall e :: e in sets ==> e.SetPool?
    ensures var all := sets + [save];
            var cut := PerformAll(world, all[..Min(reached, |all|)]);
            && cut.pool == (if reached >= 1 then PerformAll(world, all).pool else world.pool)
            && cut.disk == if reached > |sets| && save.stop.Done? then Some(save.state) else world.disk
  {
    var all := sets + [save];
    if reached == 0 {
      assert all[..0] == [];
    } else if reached >= |all| {
      assert all[..|all|] == all;
      SavesAtEnd(world, sets, save);
      SetsKeepDisk(world, sets);
    } else {
      assert all[..1] == sets;
      SetsKeepDisk(world, sets);
      SaveKeepsPool(world, sets, save);
    }
  }

  lemma SaveKeepsPool(world: World, effects: seq<Effect>, save: Effect)
    requires save.Save?
    ensures PerformAll(world, effects + [save]).pool == PerformAll(world, effects).pool
  {
    PerformConcat(world, effects, [save]);
    PerformOne(PerformAll(world, effects), save);
  }

  /** A process killed during a tick that evaluates the load, unsuppressed: its SET, if one is
      due, comes before its save. Until the SET is out nothing has happened, and the disk
      changes only after it. */
  lemma LoadCrashWorld(defaultSize: int, core: Core, input: Input, world: World, reached: nat)
    requires !core.state.Suppressed() && !KeepsFence(input)
    ensures var o := Tick(defaultSize, core, input);
            var due := EngineAgreement.ResizeDue(core, ZoneRead(input.view), input.view.latest.value.maxConns);
            var after := Next(defaultSize, Plant(world, Some(core)), Crashed(input, reached)).world;
            && after.pool == (if reached >= 1 then PerformAll(world, o.effects).pool else world.pool)
            && after.disk
               == if reached >= (if due then 2 else 1) && input.answers.lastSave.Done? then Some(o.core.state)
                  else world.disk
  {
    var zone, maxConns := ZoneRead(input.view), input.view.latest.value.maxConns;
    var second := EvaluateLoad(core, zone, maxConns, input.answers.load);
    var save := Save(second.core.state, input.answers.lastSave);
    LoadOnlySets(core, zone, maxConns, input.answers.load);
    CutAnywhere(world, second.effects, save, reached);
    assert [] + second.effects == second.effects;
  }

  // ----- The record of the last failover --------------------------------------------------

  /** A failover as it began: the size tracked until then, the role read, and the time. */
  datatype Failover = Failover(size: int, role: string, time: int)

  /** The last failover of a run, if there was one. */
  function LastFailover(defaultSize: int, core: Core, inputs: seq<Input>): Option<Failover> {
    if inputs == [] then None
    else
      var n := |inputs| - 1;
      var state := Run(defaultSize, core, inputs[..n]).state;
      if !state.Suppressed() && Fences(inputs[n]) then
        Some(Failover(state.currentPoolSize, inputs[n].view.role, inputs[n].answers.now))
      else LastFailover(defaultSize, core, inputs[..n])
  }

  /** What the record says, given what it said at the start and the last failover since. */
  predicate Records(start: EngineState, failover: Option<Failover>, state: EngineState) {
    && state.lastPoolSize == (if failover.Some? then failover.value.size else start.lastPoolSize)
    && (state.Suppressed() ==>
          if failover.Some?
          then state.lastRole == failover.value.role && state.suppressedSince == Some(failover.value.time)
          else state.lastRole == start.lastRole && state.suppressedSince == start.suppressedSince)
    && (!state.Suppressed() ==>
          state.lastRole == if failover.Some? || start.Suppressed() then "primary" else start.lastRole)
  }

  lemma TickRecords(defaultSize: int, start: EngineState, failover: Option<Failover>, core: Core, input: Input)
    requires Records(start, failover, core.state)
    ensures var state := core.state;
            var latest := if !state.Suppressed() && Fences(input)
                          then Some(Failover(state.currentPoolSize, input.view.role, input.answers.now)) else failover;
            Records(start, latest, Tick(defaultSize, core, input).core.state)
  {
    RecordOfTick(defaultSize, core, input);
  }

  /** The persisted record, over every run with every outcome: it remembers the size tracked
      just before the last failover began, also after recovery; while suppressed it names the
      role and the time of that failover; and once recovered the role is "primary". Without a
      failover it is what the process started with. */
  lemma {:induction false} RecordExactly(defaultSize: int, core: Core, inputs: seq<Input>)
    ensures Records(core.state, LastFailover(defaultSize, core, inputs), Run(defaultSize, core, inputs).state)
  {
    if inputs != [] {
      var n := |inputs| - 1;
      RecordExactly(defaultSize, core, inputs[..n]);
      TickRecords(defaultSize, core.state, LastFailover(defaultSize, core, inputs[..n]),
                  Run(defaultSize, core, inputs[..n]), inputs[n]);
    }
  }

  lemma RecordOfTick(defaultSize: int, core: Core, input: Input)
    ensures var before, after := core.state, Tick(defaultSize, core, input).core.state;
            if !before.Suppressed() && Fences(input) then
              after == EngineState(input.view.role, before.currentPoolSize, Some(input.answers.now), 0)
            else
              && after.lastPoolSize == before.lastPoolSize
              && (if before.Suppressed() == after.Suppressed()
                  then after.lastRole == before.lastRole && after.suppressedSince == before.suppressedSince
                  else !after.Suppressed() && after.lastRole == "primary")
  {
  }
}
