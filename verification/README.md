# Axiom agent: verified models of its three control machines

This project models, in Dafny 4.11, the parts of the Axiom agent that decide something over
time, and proves what holds over every run of them:

* **The decision engine** (`EngineModel`, `Engine`, `EngineThresholds`, `EngineCounters`,
  `EngineAgreement`, `EngineHysteresis`, `EngineFencing`, `EngineCrash`, `EngineRestart`,
  `StateFile`): a control loop that sizes a PgBouncer pool by
  load with two hysteresis counters, sets it to 0 when the node stops being primary, restores
  it afterwards, and persists its state so that it can be killed at any point. `EngineModel`
  gives one tick as a function from memory, reads and answers to new memory and an ordered
  list of effects; `Engine` is the object that does the same in place and is proved to refine
  it; the other files prove properties of all runs, and of all runs cut by crashes at any
  effect.
* **The signal pipeline** (`Signals` in `Window.dfy`, `Statistics`, `ObservationPipeline` in
  `Collector.dfy`, `PoolStats`, `Channels`): poll, bounded channel, drain, ring buffer, mean and
  percentile; and the pooler's own statistics pipeline of the same shape. Goroutines are step
  machines; theorems range over all interleavings.
* **The migration machine** (`Migration`, `MigrationAgent`, `MigrationRunners`,
  `MigrationRegistry`, `SequenceSync`): ordered phases with a movable target, the guard against
  concurrent runners of one task object, reconciliation and the registry under concurrency, and
  the sequence synchronisation at cutover down to its quoting.

The environment (PgBouncer's answers, the disk, Patroni, PostgreSQL, the scheduler, other
goroutines) is a parameter of every step, and every theorem quantifies over it. A SET may be
applied, refused, or applied with its reply lost; a save may stop before, during or after the
temporary file is written; pushes into the window may fall between the three reads of a tick.

Where the code does less than its comments say, the model follows the code, and the exact
condition is proved:

* a refused `SET 0` is never retried, so a comment's promise that a role change stops routing
  holds exactly when that one SET takes effect (`FencingTickEmptiesPool`,
  `RefusedSuppressIsNeverRetried`);
* a crash between a failover's SET 0 and its save can lose the size to restore; whether it
  does follows from the save, the SET's outcome, the old state file and whether PgBouncer
  answers the next process (`FailoverCrashKeepsSize`);
* the size the engine tracks can be wrong. A tick that begins in agreement, suppressed or not,
  ends without it exactly under a condition on what it reads and is answered
  (`AgreementBreaksIff`); and over every run an unsuppressed engine is wrong exactly if the last
  SET that took effect lost its reply (`UnsuppressedWrongIffLastLost`);
* PgBouncer's own pool can open on a suppressed node, whatever the engine tracks: empty when
  the suppression began, it has connections later in it exactly when a restore took effect
  whose reply was lost, or the SET of an evaluated light tick that was at least the sixth in a
  row took effect (`PoolOpensExactly`). One lost reply is enough (`LostRestoreOpensPool`);
* the tracked size of a suppressed engine can leave 0 too, by an acknowledged SET on such a
  light tick and in no other way (`TickLeaksIff`, `LeakExactly`), which takes six failed
  restores (`LeakNeedsSixFailures`);
* the role and the latest snapshot of one tick can disagree about fencing, exactly when the
  last snapshot landing between the two reads disagrees with the newest one before them
  (`RoleLagsIff`);
* a target behind the current phase does not pause a migration (`TargetBehindRunsToTheEnd`,
  `PausesAtTargetIff`);
* the guard against a second runner is per task object, and several objects can be created for
  one migration: as many as commands and as passes that look before the first registration,
  and all of them can run at once (`ObjectsCounted`, `OneRunnerIffOneCreation`);
* a sequence name with an apostrophe is not read back from the statement that is sent for it,
  and padding wraps at 64 bits (`LiteralReadsBack`, `LiteralReadsAs`,
  `PaddingExact`).

Verify with `dafny verify dfyconfig.toml`.

## Model

| member | source | states |
|---|---|---|
| Signals.Window.constructor | internal/signals/window.go:29-39 | a new window is empty and has the requested size, or 30 when that is not positive |
| Signals.Window.Push | internal/signals/window.go:41-53 | a push appends to the history the ring stands for, overwriting only the oldest slot |
| Signals.Window.Len | internal/signals/window.go:55-64 | the number of snapshots held, the smaller of pushes and size |
| Signals.Window.Snapshots | internal/signals/window.go:66-89 | exactly the newest min(pushes, size) snapshots, in push order, across any wrap |
| Signals.Window.AvgActiveConns | internal/signals/window.go:91-107 | the exact mean of the held ActiveConns, 0 when empty |
| Signals.Window.AvgTotalConns | internal/signals/window.go:109-125 | the exact mean of the held TotalConns, 0 when empty |
| Signals.Window.P95ActiveConns | internal/signals/window.go:127-151 | the order statistic at position 95n/100 of the held samples, defined by counting and not by sorting |
| Signals.Window.CurrentRole | internal/signals/window.go:153-166 | the role of the last push, empty when there is none |
| Signals.Window.Latest | internal/signals/window.go:168-179 | the last push, or false when there is none |
| Signals.SlotIsModulo | internal/signals/window.go:46-48 | the write position kept by the invariant is the number of pushes modulo the size |
| Signals.P95IgnoresOrder | internal/signals/window.go:139-150 | the percentile depends only on the multiset of samples, so neither sorting nor ring rotation affects it |
| Signals.WindowSlides | internal/signals/window.go:41-53 | a push is kept and, from a full window, only the oldest snapshot goes |
| Signals.SamplesOfPush | internal/signals/window.go:101-123 | the means are taken over ActiveConns and TotalConns, one sample for each snapshot held |
| Statistics.MeanLaws | internal/signals/window.go:91-125 | 0 of nothing, the sample of one, and of two stretches the mean weighted by their lengths |
| Statistics.P95Bounds | internal/signals/window.go:145-150 | the clamp is never needed, fewer than one sample in twenty exceeds the percentile, at most nineteen in twenty lie below it |
| Statistics.OrderStatisticUnique | internal/signals/window.go:145-150 | the counting definition of an order statistic determines one value |
| StateFile.Disk.LoadStateFile | internal/engine/state.go:56-70 | a missing file, a decoded state, a file that does not decode, or another read error |
| StateFile.Disk.SaveStateFile | internal/engine/state.go:75-97 | write temp then rename, cut anywhere; success is reported exactly when the rename is done |
| StateFile.SaveIsAtomic | internal/engine/state.go:72-74 | a later load sees the new state if the save completed and the old file otherwise, never a torn one |
| StateFile.LoadSeesLastCompletedSave | internal/engine/state.go:72-97 | over any history of saves, errors and crashes a load returns the state of the last completed save |
| StateFile.StoppedSavesAreInvisible | internal/engine/state.go:72-97 | saves that never complete leave what a load returns unchanged |
| StateFile.OtherFilesUntouched | internal/engine/state.go:87-94 | saves touch only the state file and its temporary file |
| StateFile.TempFileAfterSave | internal/engine/state.go:87-94 | the temporary file is untouched, incomplete, complete or gone according to where the save stopped |
| DecisionEngine.Engine.New | internal/engine/engine.go:90-126 | no engine if the state file cannot be read or does not decode, otherwise memory is the saved state or the first-boot defaults |
| DecisionEngine.Engine.Synchronise | internal/engine/engine.go:131-140 | at start the tracked size becomes PgBouncer's own if it answers, and nothing else changes |
| DecisionEngine.Engine.HandleFailover | internal/engine/engine.go:222-244 | refines the failover function on memory, effect log and outside world; nothing at all when already suppressed |
| DecisionEngine.Engine.HandleFailoverRecovery | internal/engine/engine.go:248-268 | refines the recovery function; a failed SET leaves memory unchanged |
| DecisionEngine.Engine.EvaluateLoad | internal/engine/engine.go:272-350 | refines the load evaluation function in every zone, with clamps, confirmations and failed SETs |
| DecisionEngine.Engine.ReadWindow | internal/engine/engine.go:181-192 | role, latest and average are read at three moments of one push history |
| DecisionEngine.Engine.Tick | internal/engine/engine.go:180-217 | one tick does to memory, log, PgBouncer and disk exactly what the tick function says for what it read |
| DecisionEngine.Engine.Loop | internal/engine/engine.go:157-176 | the loop's ticks, the immediate one first, compose to the run function |
| DecisionEngine.ReadsAgree | internal/engine/engine.go:181-192 | a role is never read without a snapshot nor a snapshot without a sample; consecutive reads agree exactly when the last push between them, if any, makes no difference |
| DecisionEngine.SampleIsNewestPushed | internal/engine/engine.go:181-192 | the average is over the newest pushes by then, as many as the window holds |
| DecisionEngine.RoleLagsIff | internal/engine/engine.go:181-195 | whatever the window held, a tick's fencing decision differs from its latest snapshot's exactly when the last push between the two reads differs in it from the newest push before them |
| EngineThresholds.ThresholdsExactly | internal/engine/engine.go:43-54 | above 80% is 5 sum > 4 n max and below 50% is 2 sum < n max, in whole numbers |
| EngineThresholds.ZoneReadExactly | internal/engine/engine.go:278-349 | the zone of a tick, from the active connections in the window and the limit of the latest snapshot |
| EngineThresholds.SetsExactly | internal/engine/engine.go:195-338 | every SET a tick issues, with its size and outcome, and the exact condition for each of the four kinds |
| EngineCounters.CountersExactly | internal/engine/engine.go:222-349 | over every run with every SET outcome each counter is the streak of evaluated ticks in its zone since it was last cleared, and what clears it |
| EngineCounters.ShrinkIsRetried | internal/engine/engine.go:288-308 | a shrink that is not acknowledged is asked for again, unchanged, on every further heavy tick from the third on |
| EngineCounters.GrowthIsRetried | internal/engine/engine.go:318-338 | so is a growth, on every further light tick from the sixth on |
| EngineRestart.BlindTick | internal/engine/engine.go:184-189 | a tick that finds no snapshot changes and issues nothing |
| EngineRestart.DiskAfterTick | internal/engine/engine.go:195-217 | the state on disk after any tick: the final one if the last save completes, the recovered one if only the first does |
| EngineRestart.DiskKeepsUp | internal/engine/engine.go:195-217 | while saves work the disk holds the engine's memory after every tick |
| EngineRestart.LoadCrashWorld | internal/engine/engine.go:301-303 | a process killed during load evaluation: the SET comes first, and the disk changes only after it |
| EngineRestart.StartsWith | internal/engine/engine.go:90-140 | what a new process starts with: the whole state on disk or the first-boot defaults, fresh counters, and PgBouncer's size if it answers |
| EngineRestart.RestartResumes | internal/engine/engine.go:90-140 | a process killed between ticks and restarted resumes every field of its state; only the counters start anew |
| EngineRestart.RecordExactly | internal/engine/engine.go:232-266 | over every run the record names the size before, the role and the time of the last failover, and "primary" once recovered |
| EngineAgreement.RunKeepsAgreement | internal/engine/engine.go:222-350 | with every reply arriving, PgBouncer's size is the tracked one, or a refused suppression left it at the size recovery will ask for |
| EngineAgreement.RunKeepsReconcilable | internal/engine/engine.go:222-350 | the same with lost replies to suppression and restore SETs, which the pending recovery repairs |
| EngineAgreement.OnlyLostReplyBreaksAgreement | internal/engine/engine.go:297-332 | on an unsuppressed tick agreement is lost exactly when a load-driven SET took effect without a reply |
| EngineAgreement.AgreementBreaksIff | internal/engine/engine.go:180-350 | for every tick that begins in agreement, suppressed or not, the exact condition, judged before the tick, under which it ends without |
| EngineAgreement.UnsuppressedWrongIffLastLost | internal/engine/engine.go:222-350 | over every run with every SET outcome, an unsuppressed engine's size differs from PgBouncer's exactly if the last SET that took effect lost its reply, given the same at the start |
| EngineHysteresis.ResizeNeedsConsecutiveTicks | internal/engine/engine.go:281-340 | a shrink ends three consecutive evaluated ticks above 80%, a growth six below 50%, across any failovers and failures between |
| EngineHysteresis.RunKeepsCountersJustified | internal/engine/engine.go:281-349 | each counter counts consecutive evaluated ticks in its zone, and at most one is running |
| EngineHysteresis.AboveNeedsHeavyWindow | internal/engine/engine.go:278-281 | a mean above 80% needs a snapshot above the limit or more than three fifths of the window above half of it |
| EngineHysteresis.ShrinkNeedsThreeHeavyWindows | internal/engine/engine.go:281-303 | every scale-down is preceded by three heavy windows in a row |
| EngineHysteresis.RunKeepsRange | internal/engine/engine.go:222-338 | with a fixed limit the tracked size is 0 only under suppression and otherwise between floor and limit |
| EngineHysteresis.ResizeStepsAreSmall | internal/engine/engine.go:288-338 | every load-driven SET moves by one to five, in its direction, inside the range |
| EngineHysteresis.ShrinkTrajectory | internal/engine/engine.go:281-309 | the exact memory after any number of ticks of sustained overload |
| EngineHysteresis.GrowTrajectory | internal/engine/engine.go:311-340 | the exact memory after any number of ticks of sustained light load |
| EngineHysteresis.FloorReachedExactly | internal/engine/engine.go:281-309 | overload reaches the floor after exactly 3 ticks per step of five and stays there |
| EngineHysteresis.CeilingReachedExactly | internal/engine/engine.go:311-340 | light load reaches the limit after exactly 6 ticks per step of five and stays there |
| EngineFencing.FencingTickAsksOnlyForZero | internal/engine/engine.go:195-199 | a tick that reads a fencing role issues no SET but 0 and leaves the engine suppressed |
| EngineFencing.RunIsOrderly | internal/engine/engine.go:222-268 | in every run SET 0 is issued only while no suppression is open |
| EngineFencing.OneSuppressPerEpisode | internal/engine/engine.go:222-268 | between two SETs to 0 there is always an acknowledged restore |
| EngineFencing.FencingTickEmptiesPool | internal/engine/engine.go:222-239 | after a fencing tick the pool is empty exactly when it was, or this tick began the suppression and its SET took effect |
| EngineFencing.OpenSuppressionIsPassive | internal/engine/engine.go:222-226 | while fencing roles last an open suppression changes nothing inside or outside |
| EngineFencing.RefusedSuppressIsNeverRetried | internal/engine/engine.go:224-239 | a refused SET 0 leaves the full pool open for the whole failover |
| EngineFencing.FencedUntilPrimary | internal/engine/engine.go:195-268 | when SETs work the real size is 0 from the first fencing role until another role is read |
| EngineFencing.TickLeaksIff | internal/engine/engine.go:201-338 | a tick takes the tracked size of a suppressed engine from 0 exactly when the restore fails, the load is light, five light ticks are counted and the SET is acknowledged |
| EngineFencing.LeakExactly | internal/engine/engine.go:201-338 | over every run that ends suppressed, from counters that start at 0, the tracked size is not 0 exactly when the process started so or the open episode holds a light tick, at least the sixth evaluated one in a row, whose SET is acknowledged |
| EngineFencing.LeakNeedsSixFailures | internal/engine/engine.go:201-338 | a suppressed engine that tracks a non-zero size started suppressed with one, or has seen six restores reported as failed in the open episode |
| EngineFencing.TickOpensPoolIff | internal/engine/engine.go:195-350 | under suppression PgBouncer's pool is open after a tick exactly if it was before, or a restore or a due resize takes effect, with or without a reply |
| EngineFencing.PoolOpenIffOpened | internal/engine/engine.go:195-350 | over every run that ends suppressed, from any tracked size, the pool is open exactly if it was when the episode began or some tick of the episode opened it |
| EngineFencing.PoolOpensExactly | internal/engine/engine.go:195-350 | the same from the inputs alone, if a non-zero size tracked at a suppressed start is not a phantom: a restore with a lost reply, or a light tick, at least the sixth in a row, whose SET is not refused |
| EngineFencing.LostRestoreOpensPool | internal/engine/engine.go:248-262 | one restore with a lost reply opens the pool to the remembered size, and fencing roles leave it so while the engine tracks 0 |
| EngineFencing.SixFailuresLeak | internal/engine/engine.go:201-338 | six failed restores under light load do grow the pool of a suppressed node, and fencing roles leave it so |
| EngineCrash.CrashSafeRestore | internal/engine/engine.go:201-268 | after a saved failover any crashes, restarts, failed restores and fencing ticks keep the remembered size, and every restore asks for it |
| EngineCrash.ReleaseRestoresExactly | internal/engine/engine.go:248-268 | the tick that ends the suppression leaves engine and PgBouncer at that size and issues no other SET |
| EngineCrash.CrashedReleaseRestores | internal/engine/engine.go:202-268 | a crash after a restore whose save completed leaves that size too, in PgBouncer and in the next process, which is not suppressed |
| EngineCrash.SavedFailoverIsSecured | internal/engine/engine.go:195-244 | a completed failover save secures the suppression even if the process dies right after it |
| EngineCrash.FailoverRoundTrip | internal/engine/engine.go:195-268 | saved failover, even if the process dies at once, anything in between, and any release, whole or crashed: pool and engine are back at the size tracked before |
| EngineCrash.FailoverCrashKeepsSize | internal/engine/engine.go:128-244 | the successor of a process killed during failover intends the size tracked before exactly if the save completed and that is a size to restore, or it did not and the old suppression on disk remembers it, or PgBouncer is asked and has it left, or it is the size on disk |
| EngineCrash.OscillationBudget | internal/engine/engine.go:241-350 | across failures, crashes and restarts, 3 per scale-down plus 6 per scale-up plus the running counter never exceed the evaluated ticks |
| Channels.Channel.TrySend | internal/signals/collector.go:134-140 | a send never blocks: it appends below capacity and otherwise reports failure |
| ObservationPipeline.PipelineConserves | internal/signals/collector.go:78-141 | in every interleaving delivered, in hand and queued are together the observed sequence minus the counted drops, in order, within the bound, with no send after close |
| ObservationPipeline.WindowShowsObserved | internal/agent/agent.go:658-662 | the window always holds an in-order selection of what was observed |
| ObservationPipeline.PipelineExactly | internal/signals/collector.go:109-141 | every queue, counter and delivery of the pipeline is determined by the steps taken, errors included |
| ObservationPipeline.DropsOnlyWhenFull | internal/signals/collector.go:134-140 | the drop counter is the number of complete polls that met a full queue |
| ObservationPipeline.LifeExactly | internal/signals/collector.go:77-107 | the loop runs until it leaves, and the channels are closed only after a stop request and its leaving |
| ObservationPipeline.NothingBlocks | internal/signals/collector.go:77-141 | a poll is never blocked, the loop can leave on a stop request or an ended context, and what is queued can always be drained |
| ObservationPipeline.Collector.PollOnce | internal/signals/collector.go:109-141 | one poll refines its step: an error is reported if there is room, a snapshot is queued or counted as dropped |
| ObservationPipeline.Collector.ReceiveOnce | internal/agent/agent.go:658-659 | the drain goroutine takes the oldest queued snapshot in hand |
| ObservationPipeline.Collector.DeliverOnce | internal/agent/agent.go:659-660 | it pushes that snapshot, and the window then holds the newest of what was delivered before and it |
| ObservationPipeline.Collector.DrainOnce | internal/agent/agent.go:658-662 | both together move the oldest queued snapshot into the window |
| ObservationPipeline.Collector.FinishShutdown | internal/signals/collector.go:78-83 | the channels are closed only after the loop has left |
| PoolStats.SessionConserves | internal/agent/pool.go:229-310 | every sample polled is in the log, failed, dropped, buffered or in hand, and the log is a prefix of what was shipped |
| PoolStats.LogIsInOrder | internal/agent/pool.go:278-310 | the log is an in-order selection of the samples polled |
| PoolStats.ShipperExitSettles | internal/agent/pool.go:254-310 | when the shipper exits nothing is buffered; without a sink all were dropped; without failures and drops the log is what was polled |
| PoolStats.SessionExactly | internal/agent/pool.go:257-309 | every field of a session is determined by the steps taken: what is logged, lost to which failure, and dropped |
| PoolStats.DropsOnlyWhenFull | internal/agent/pool.go:264-301 | the drop counter is the polls that met a full channel plus the lines shipped without a sink |
| PoolStats.PollerNeverBlocks | internal/agent/pool.go:245-276 | the poller can always poll until it exits, and can exit from when a stop is requested |
| PoolStats.ShipperGoesOn | internal/agent/pool.go:278-310 | the shipper takes whatever is queued, also after the close, and exits exactly when the channel is closed and empty |
| PoolStats.ShipperHandsOver | internal/agent/pool.go:293-308 | a line taken can always be handed over, whatever the writer makes of it |
| PoolStats.PoolManager.PollSample | internal/agent/pool.go:257-274 | the poller refines its step: it queues the sample or counts it as dropped |
| PoolStats.PoolManager.ShipSample | internal/agent/pool.go:284-309 | the shipper refines its step for a missing sink, a healthy writer and a broken one |
| Migration.RunIsInSequence | internal/agent/migration.go:57-114 | every run executes consecutive phase bodies from its phase and stops at the first failure |
| Migration.RunWithoutChanges | internal/agent/migration.go:57-114 | a run whose target is never moved is the plain run to that target |
| Migration.SteeredRunIsInSequence | internal/agent/migration.go:57-114 | however its target moves, a run executes consecutive bodies and ends with a failure or where its last comparison stops it |
| Migration.SteeredRunSeesTargets | internal/agent/migration.go:57-61 | every comparison sees the newest target: no body executed was held by it, and the run ends with the last one seen |
| Migration.RunSucceeds | internal/agent/migration.go:57-114 | without failures a run stops exactly at a target ahead, or at the end, with the progress of that phase |
| Migration.RunFails | internal/agent/migration.go:100-105 | the first failing body ends the run FAILED with its message and the progress so far |
| Migration.TwoStagesEqualOne | internal/agent/migration.go:57-114 | two runs in a row do what one run to the last target does, unless the first overshoots it |
| Migration.OvershootDiffers | internal/agent/migration.go:57-61 | the overshoot condition is exact |
| Migration.StagedEqualsDirect | internal/agent/reconcile.go:133-144 | for any outcomes, a forward chain of targets executes the same bodies and ends in the same state as one run to the last |
| Migration.TargetBehindRunsToTheEnd | internal/agent/migration.go:58-61 | a target behind the phase, or unknown, does not hold the run |
| Migration.PausesAtTargetIff | internal/agent/migration.go:57-114 | a run ends at its target exactly if the target is not behind the phase and no body before it fails |
| MigrationAgent.MigrationTask.ExecutePhase | internal/agent/migration.go:63-98 | one pass through the switch refines the phase body, CDC's early transition included |
| MigrationAgent.Agent.RunMigration | internal/agent/migration.go:40-115 | a call does nothing when guarded, and otherwise registers, runs as specified under any target changes and releases the guard |
| MigrationAgent.Agent.ReconcileMigrations | internal/agent/reconcile.go:107-149 | reconciliation refines its specification: targets set, new tasks at the first phase, runners started |
| MigrationAgent.ReconcileKeepsTasks | internal/agent/reconcile.go:133-144 | registered entries keep phase, progress and guard, and those outside the manifest keep their target |
| MigrationAgent.ReconcileSetsTarget | internal/agent/reconcile.go:110-140 | a registered entry gets exactly the target its manifest entry asks for, and keeps its own if that asks for none or is not a struct |
| MigrationAgent.ReconcileSettles | internal/agent/reconcile.go:110-146 | applied again to registered entries the same manifest changes nothing and starts no runner |
| MigrationAgent.SpawnedExactly | internal/agent/reconcile.go:110-144 | a manifest starts exactly a new task for each unregistered entry and a runner for each registered one that is not running and gets another target |
| MigrationAgent.SpawnedOnce | internal/agent/reconcile.go:110-144 | no task gets two runners from one manifest |
| MigrationRegistry.ObjectsCounted | internal/agent/reconcile.go:110-142 | in every interleaving of passes, commands and goroutines, the task objects for an ID number the commands plus the passes that looked before the first registration; each has at most one runner |
| MigrationRegistry.RunnersAtMostCreations | internal/agent/migration.go:40-55 | never more goroutines migrate an ID at once than objects were created for it |
| MigrationRegistry.EveryObjectCanRun | internal/agent/agent.go:443-453 | until one registers, that many goroutines can get past their guards and run together |
| MigrationRegistry.OneRunnerIffOneCreation | internal/agent/reconcile.go:116-132 | unless more objects are created, at most one goroutine ever migrates the ID exactly when at most one object was created before the first registration |
| MigrationRegistry.NewTasksExactly | internal/agent/reconcile.go:120-132 | a pass that found nothing creates a task at PRE_FLIGHT with the target asked for or COMPLETED, and its goroutine |
| MigrationRegistry.RetargetsExactly | internal/agent/reconcile.go:133-144 | a pass that found a task changes nothing but its target, and starts a goroutine exactly if that is a change and none runs |
| MigrationRegistry.GoroutineExactly | internal/agent/migration.go:40-55 | a goroutine registers its own object if the guard is open, goes away if not, and opens it when it leaves |
| MigrationRegistry.StepsPossible | internal/agent/migration.go:40-55 | in every reachable state passes can act and goroutines can go on |
| MigrationRegistry.NewTargetResumes | internal/agent/reconcile.go:133-144 | from every reachable state a paused registered task runs again towards a new target, as the same object with its phase and progress |
| MigrationRunners.RunKeepsInv | internal/agent/migration.go:40-115 | from any start phase, all interleavings of calls, iterations, bodies and retargets keep the guard exclusive and the log consecutive |
| MigrationRunners.WholeHistoryInOrder | internal/agent/migration.go:40-115 | one runner at a time, six iterations at most, a prefix of the five bodies each at most once, progress twenty per success |
| MigrationRunners.CallExactly | internal/agent/migration.go:41-49 | a call while another goroutine is past the guard changes nothing, any other gets past it and touches nothing else |
| MigrationRunners.RunnersNeverStuck | internal/agent/migration.go:57-114 | a goroutine past the guard can always take its next step |
| MigrationRunners.TargetExactly | internal/agent/reconcile.go:137-140 | the target can be set at any time and is the one set last |
| MigrationRunners.LoneRunnerIsRun | internal/agent/migration.go:40-115 | the steps of one goroutine that is alone, target changes included, lead exactly to the task, target, log and open guard that the run function gives |
| SequenceSync.ReadUndoesDoubling | internal/agent/migration.go:271 | reading quoted text undoes the doubling of quotes for every string |
| SequenceSync.ReadMeansDoubled | internal/agent/migration.go:271 | whatever reads as a content is that content doubled |
| SequenceSync.QualifiedNameReadsBack | internal/agent/migration.go:271 | the qualified name determines schema and name |
| SequenceSync.QualifiedNameInjective | internal/agent/migration.go:271 | different sequences never share a qualified name |
| SequenceSync.LiteralReadsBack | internal/agent/migration.go:271-273 | the name read from the sent literal is the intended one exactly when it has no apostrophe |
| SequenceSync.PairedApostrophesHitAnother | internal/agent/migration.go:271-273 | a name whose apostrophes are paired is read as another name |
| SequenceSync.LiteralReadsAs | internal/agent/migration.go:271-273 | the statement for one name lands on another exactly if the one is the other with its apostrophes doubled |
| SequenceSync.PaddingExact | internal/agent/migration.go:270 | for any two 64-bit values the padded value is their sum exactly when that fits in 64 bits, and otherwise has the other sign |
| SequenceSync.SyncedIsAssigned | internal/agent/migration.go:263-277 | if no accepted row's name has an apostrophe, sending the statements does the same as assigning the padded values |
| SequenceSync.SyncedHoldsLastHit | internal/agent/migration.go:263-277 | every sequence ends with the padded value of the last accepted row named as it is with apostrophes doubled |
| SequenceSync.SyncedHoldsPaddedValue | internal/agent/migration.go:263-277 | a sequence without apostrophe whose setval was accepted ends with its padded source value unless a later accepted row has the same name |
| SequenceSync.SyncedLeavesOthers | internal/agent/migration.go:263-277 | a sequence that no statement lands on is unchanged and none appears or vanishes |
| SequenceSync.Destination.SyncSequences | internal/agent/migration.go:263-279 | the loop sends exactly the statements of the rows before the first unreadable one, and fails only on that |

## Left out

- MigrationRegistry.ObjectsCounted: one ID at a time; a pass sets the target and reads the guard's flag in one step, where the code reads the flag just after releasing the lock.
- SQL, the PgBouncer admin protocol, HTTP to Patroni, pg_dump, psql and logical replication: each is an outcome chosen by the environment.
- Floating-point rounding of means, ratios and the percentile index: means are exact rationals and the index is 95n/100.
- Wall-clock time, tickers, sleeps and timeouts: ticks and polls are abstract steps; SuppressedSince is an opaque stamp.
- JSON: a complete file decodes to the state it was written from and a torn one does not decode.
- Machine-integer width outside SequenceSync: pool sizes and counters stay far below it.
- SHOW CONFIG verification after a SET, the WAL-lag warning and logging, which decide nothing.
- Statistics.SortInts: stands for the library call sort.Ints on values; only its result matters, so sorting in place is not modelled.
- MigrationAgent.Agent.RunMigration: target changes reach the object between passes, where the loop reads the target; further callers during a run are covered by MigrationRunners and MigrationRegistry, which work on values.
- MigrationRunners.WholeHistoryInOrder: safety only; a retarget that races with a pause can leave a migration paused, and persisting progress after each phase is not modelled.
- EngineFencing.PoolOpensExactly: assumes a positive configured default size and, of a process that started suppressed, that it tracks no negative size and none at all while the pool is empty; EngineFencing.PoolOpenIffOpened needs only the first two.
- EngineCrash.CrashSafeRestore: process lives are modelled on values; a crash is a prefix of the effect log that DecisionEngine.Engine.Tick is proved to produce.
- SequenceSync.Destination.SyncSequences: the statement's fixed text and the decimal form of the value are not modelled, only the literal between its apostrophes; a literal that an apostrophe closes early counts as an error, although a server would read what follows it as further text of the statement.
- PoolStats.ShipperExitSettles: one session from Start to Stop; Stop can wait for goroutines that need its lock, so that Stop returns is not claimed, nor anything across repeated sessions.
- Backups, branches, compliance, telemetry, license tiers, heartbeats and the promote command: wrappers or single-branch logic.
