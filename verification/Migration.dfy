/** The migration phase machine (internal/agent/migration.go): one run from a phase to a
    target, as a function, and what runs with fixed and with moving targets do. */
module Migration {
  import opened Common

  datatype Phase = PreFlight | Schema | FullLoad | CDC | Cutover | Completed | Failed | Unknown(text: string)

  /** The place of a phase in the order; -1 for FAILED and for any other text. */
  function Rank(p: Phase): (r: int)
    ensures -1 <= r <= 5
  {
    match p
    case PreFlight => 0
    case Schema => 1
    case FullLoad => 2
    case CDC => 3
    case Cutover => 4
    case Completed => 5
    case _ => -1
  }

  /** The phase that follows a working phase. */
  function Following(p: Phase): (q: Phase)
    requires Working(p)
    ensures Rank(q) == Rank(p) + 1
  {
    match p
    case PreFlight => Schema
    case Schema => FullLoad
    case FullLoad => CDC
    case CDC => Cutover
    case Cutover => Completed
  }

  predicate Working(p: Phase) {
    0 <= Rank(p) <= 4
  }

  datatype TaskState = TaskState(phase: Phase, progress: int, errorMessage: string)

  /** One executed phase body and whether it succeeded. */
  datatype Executed = Executed(phase: Phase, ok: bool)

  /** For each phase, the error its body returns, or None. */
  type Outcomes = Phase -> Option<string>

  /** The effect of one phase body together with the transition that RunMigration makes. */
  function Body(task: TaskState, error: Option<string>): TaskState
    requires Working(task.phase)
  {
    match error
    case None => TaskState(Following(task.phase), 20 * (Rank(task.phase) + 1), task.errorMessage)
    case Some(message) => TaskState(Failed, task.progress, message)
  }

  /** The loop's two ways to leave before a body: a pause at the target, or a phase that has
      no body. */
  predicate Stops(phase: Phase, target: Phase) {
    (phase == target && phase != Completed) || !Working(phase)
  }

  datatype Result = Result(task: TaskState, log: seq<Executed>)

  function Push(done: Executed, rest: Result): Result {
    Result(rest.task, [done] + rest.log)
  }

  /** One call of RunMigration whose target nobody changes meanwhile. */
  function RunTo(task: TaskState, target: Phase, outcomes: Outcomes): Result
    decreases 5 - Rank(task.phase), Working(task.phase)
  {
    if Stops(task.phase, target) then Result(task, [])
    else
      var error := outcomes(task.phase);
      var next := Body(task, error);
      if error.Some? then Result(next, [Executed(task.phase, false)])
      else Push(Executed(task.phase, true), RunTo(next, target, outcomes))
  }

  /** A run and the target that its last comparison saw. */
  datatype Steered = Steered(run: Result, target: Phase)

  /** The target at the next comparison: the change made before it, if any. */
  function Retargeted(target: Phase, changes: seq<Option<Phase>>): Phase {
    if changes != [] && changes[0].Some? then changes[0].value else target
  }

  /** One call of RunMigration while others move the target: `changes` says for each pass
      through the loop what the target was set to before the comparison. */
  function RunWith(task: TaskState, target: Phase, outcomes: Outcomes, changes: seq<Option<Phase>>): Steered
    decreases 5 - Rank(task.phase), Working(task.phase)
  {
    var now := Retargeted(target, changes);
    if Stops(task.phase, now) then Steered(Result(task, []), now)
    else
      var error := outcomes(task.phase);
      var next := Body(task, error);
      if error.Some? then Steered(Result(next, [Executed(task.phase, false)]), now)
      else
        var rest := RunWith(next, now, outcomes, if changes == [] then [] else changes[1..]);
        Steered(Push(Executed(task.phase, true), rest.run), rest.target)
  }

  /** A target that nobody moves. */
  lemma {:induction false} RunWithoutChanges(task: TaskState, target: Phase, outcomes: Outcomes)
    ensures RunWith(task, target, outcomes, []) == Steered(RunTo(task, target, outcomes), target)
    decreases 5 - Rank(task.phase), Working(task.phase)
  {
    if !Stops(task.phase, target) && outcomes(task.phase).None? {
      RunWithoutChanges(Body(task, None), target, outcomes);
    }
  }

  // ----- One run, exactly ---------------------------------------------------------------

  /** Where a run with this target stops if nothing fails: at the target if it is at or ahead
      of the phase, otherwise only at the end. */
  function StopRank(phase: Phase, target: Phase): (r: int)
    requires Working(phase)
    ensures Rank(phase) <= r <= 5
  {
    if Rank(target) >= Rank(phase) then Rank(target) else 5
  }

  /** The bodies with ranks from lo to hi succeed. */
  ghost predicate AllSucceed(lo: int, hi: int, outcomes: Outcomes) {
    forall p :: lo <= Rank(p) < hi ==> outcomes(p).None?
  }

  /** The log is the bodies from rank lo on, none skipped or repeated, and only the last of
      them may have failed. */
  ghost predicate InSequence(log: seq<Executed>, lo: int) {
    forall i :: 0 <= i < |log| ==> Rank(log[i].phase) == lo + i && (log[i].ok || i == |log| - 1)
  }

  /** Every run executes bodies in order from its phase and stops at the first failure. */
  lemma {:induction false} RunIsInSequence(task: TaskState, target: Phase, outcomes: Outcomes)
    ensures var run := RunTo(task, target, outcomes);
            && InSequence(run.log, Rank(task.phase))
            && (forall i :: 0 <= i < |run.log| ==> run.log[i].ok == outcomes(run.log[i].phase).None?)
            && (run.log != [] ==> Working(task.phase))
    decreases 5 - Rank(task.phase), Working(task.phase)
  {
    if !Stops(task.phase, target) && outcomes(task.phase).None? {
      RunIsInSequence(Body(task, None), target, outcomes);
    }
  }

  /** However the target moves, and so does a run whose target moves; it ends with a failure,
      or where its last comparison told it to stop. */
  lemma {:induction false} SteeredRunIsInSequence(
      task: TaskState, target: Phase, outcomes: Outcomes, changes: seq<Option<Phase>>)
    ensures var steered := RunWith(task, target, outcomes, changes);
            var log := steered.run.log;
            && InSequence(log, Rank(task.phase))
            && (forall i :: 0 <= i < |log| ==> log[i].ok == outcomes(log[i].phase).None?)
            && (log != [] ==> Working(task.phase))
            && (if log != [] && !log[|log| - 1].ok
                then steered.run.task.phase == Failed
                else Stops(steered.run.task.phase, steered.target)
                     && (log != [] ==> Rank(steered.run.task.phase) == Rank(task.phase) + |log|))
    decreases 5 - Rank(task.phase), Working(task.phase)
  {
    var now := Retargeted(target, changes);
    if !Stops(task.phase, now) && outcomes(task.phase).None? {
      SteeredRunIsInSequence(Body(task, None), now, outcomes, if changes == [] then [] else changes[1..]);
    }
  }

  /** The target at comparison j: the last change made up to it, or the one from the start. */
  function TargetAt(target: Phase, changes: seq<Option<Phase>>, j: nat): Phase
    decreases j
  {
    if j < |changes| && changes[j].Some? then changes[j].value
    else if j == 0 then target
    else TargetAt(target, changes, j - 1)
  }

  lemma {:induction false} TargetAtShifts(target: Phase, changes: seq<Option<Phase>>, j: nat)
    ensures TargetAt(Retargeted(target, changes), if changes == [] then [] else changes[1..], j)
            == TargetAt(target, changes, j + 1)
    decreases j
  {
    if j > 0 {
      TargetAtShifts(target, changes, j - 1);
    }
  }

  /** No body of the log was held by the target its comparison saw. */
  ghost predicate NoneHeld(log: seq<Executed>, target: Phase, changes: seq<Option<Phase>>) {
    forall j :: 0 <= j < |log| ==> log[j].phase != TargetAt(target, changes, j)
  }

  lemma NoneHeldPush(done: Executed, log: seq<Executed>, target: Phase, changes: seq<Option<Phase>>)
    requires NoneHeld(log, Retargeted(target, changes), if changes == [] then [] else changes[1..])
    requires done.phase != Retargeted(target, changes)
    ensures NoneHeld([done] + log, target, changes)
  {
    forall j | 0 < j < |[done] + log|
      ensures ([done] + log)[j].phase != TargetAt(target, changes, j)
    {
      TargetAtShifts(target, changes, j - 1);
      assert ([done] + log)[j] == log[j - 1];
    }
  }

  /** How many comparisons a run had seen before its last one. */
  function LastComparison(log: seq<Executed>): nat {
    if log != [] && !log[|log| - 1].ok then |log| - 1 else |log|
  }

  /** Every comparison sees the newest target: each body executed was not held by it, and the
      run ends with the target that its last comparison saw. */
  lemma {:induction false} SteeredRunSeesTargets(
      task: TaskState, target: Phase, outcomes: Outcomes, changes: seq<Option<Phase>>)
    ensures var steered := RunWith(task, target, outcomes, changes);
            && NoneHeld(steered.run.log, target, changes)
            && steered.target == TargetAt(target, changes, LastComparison(steered.run.log))
    decreases 5 - Rank(task.phase), Working(task.phase)
  {
    var now := Retargeted(target, changes);
    var rest := if changes == [] then [] else changes[1..];
    if !Stops(task.phase, now) && outcomes(task.phase).None? {
      var done, log := Executed(task.phase, true), RunWith(Body(task, None), now, outcomes, rest).run.log;
      SteeredRunSeesTargets(Body(task, None), now, outcomes, rest);
      NoneHeldPush(done, log, target, changes);
      TargetAtShifts(target, changes, LastComparison(log));
      LastComparisonPush(done, log);
    }
  }

  lemma LastComparisonPush(done: Executed, log: seq<Executed>)
    requires done.ok
    ensures LastComparison([done] + log) == LastComparison(log) + 1
  {
  }

  /** If no body fails before the stop, the run executes exactly the bodies up to it. */
  lemma {:induction false} RunSucceeds(task: TaskState, target: Phase, outcomes: Outcomes)
    requires Working(task.phase)
    requires AllSucceed(Rank(task.phase), StopRank(task.phase, target), outcomes)
    ensures var stop := StopRank(task.phase, target);
            var run := RunTo(task, target, outcomes);
            && Rank(run.task.phase) == stop
            && run.task.progress == (if stop == Rank(task.phase) then task.progress else 20 * stop)
            && run.task.errorMessage == task.errorMessage
            && |run.log| == stop - Rank(task.phase)
    decreases 5 - Rank(task.phase)
  {
    if !Stops(task.phase, target) {
      var next := Body(task, None);
      if Working(next.phase) {
        RunSucceeds(next, target, outcomes);
      }
    }
  }

  /** If the body of p is the first to fail before the stop, the run ends FAILED there with
      its message and the progress so far, and later phases are not touched. */
  lemma {:induction false} RunFails(task: TaskState, target: Phase, outcomes: Outcomes, p: Phase)
    requires Working(task.phase) && Rank(task.phase) <= Rank(p) < StopRank(task.phase, target)
    requires AllSucceed(Rank(task.phase), Rank(p), outcomes) && outcomes(p).Some?
    ensures var run := RunTo(task, target, outcomes);
            && run.task == TaskState(Failed, if p == task.phase then task.progress else 20 * Rank(p), outcomes(p).value)
            && |run.log| == Rank(p) - Rank(task.phase) + 1
    decreases 5 - Rank(task.phase)
  {
    if task.phase != p {
      RunFails(Body(task, None), target, outcomes, p);
    }
  }

  // ----- Staged runs --------------------------------------------------------------------

  /** Running to each target in turn, as successive manifests ask. */
  function RunStages(task: TaskState, targets: seq<Phase>, outcomes: Outcomes): Result
    requires targets != []
    decreases |targets|
  {
    var first := RunTo(task, targets[0], outcomes);
    if |targets| == 1 then first else Then(first.log, RunStages(first.task, targets[1..], outcomes))
  }

  function Then(log: seq<Executed>, rest: Result): Result {
    Result(rest.task, log + rest.log)
  }

  lemma ThenPush(done: Executed, log: seq<Executed>, rest: Result)
    ensures Then([done] + log, rest) == Push(done, Then(log, rest))
    ensures Then([], rest) == rest
  {
    assert [done] + log + rest.log == [done] + (log + rest.log);
  }

  /** The second target does not lie between the current phase and the phase where the first
      stage stops: the only way a stage can overshoot it. */
  predicate NoOvershoot(phase: Phase, first: Phase, second: Phase) {
    Working(phase) ==> !(Rank(phase) <= Rank(second) < StopRank(phase, first))
  }

  /** A stage that does not overshoot leaves the condition to the next phase. */
  lemma NoOvershootPersists(phase: Phase, first: Phase, second: Phase)
    requires NoOvershoot(phase, first, second) && !Stops(phase, first)
    ensures !Stops(phase, second) && NoOvershoot(Following(phase), first, second)
  {
  }

  /** Two stages do the same as one, whatever the bodies do, unless the first overshoots. */
  lemma {:induction false} TwoStagesEqualOne(task: TaskState, first: Phase, second: Phase, outcomes: Outcomes)
    requires NoOvershoot(task.phase, first, second)
    ensures var staged := RunTo(task, first, outcomes);
            Then(staged.log, RunTo(staged.task, second, outcomes)) == RunTo(task, second, outcomes)
    decreases 5 - Rank(task.phase), Working(task.phase)
  {
    if Stops(task.phase, first) {
      ThenPush(Executed(first, true), [], RunTo(task, second, outcomes));
    } else {
      NoOvershootPersists(task.phase, first, second);
      var error := outcomes(task.phase);
      var next := Body(task, error);
      if error.None? {
        var rest := RunTo(next, first, outcomes);
        TwoStagesEqualOne(next, first, second, outcomes);
        ThenPush(Executed(task.phase, true), rest.log, RunTo(rest.task, second, outcomes));
      } else {
        assert RunTo(next, second, outcomes) == Result(next, []);
      }
    }
  }

  /** The condition is exact: when every body would succeed, an overshooting first stage does
      make a difference. */
  lemma OvershootDiffers(task: TaskState, first: Phase, second: Phase, outcomes: Outcomes)
    requires Working(task.phase) && AllSucceed(0, 5, outcomes)
    ensures RunTo(RunTo(task, first, outcomes).task, second, outcomes).task == RunTo(task, second, outcomes).task
            <==> NoOvershoot(task.phase, first, second)
  {
    if NoOvershoot(task.phase, first, second) {
      TwoStagesEqualOne(task, first, second, outcomes);
    } else {
      var staged := RunTo(task, first, outcomes).task;
      RunSucceeds(task, first, outcomes);
      RunSucceeds(task, second, outcomes);
      if Working(staged.phase) {
        RunSucceeds(staged, second, outcomes);
      }
    }
  }

  /** A chain of targets that starts at or ahead of the phase and never goes back. */
  ghost predicate Forward(phase: Phase, targets: seq<Phase>) {
    && (forall i :: 0 <= i < |targets| ==> 0 <= Rank(targets[i]) && Rank(phase) <= Rank(targets[i]))
    && (forall i, j :: 0 <= i < j < |targets| ==> Rank(targets[i]) <= Rank(targets[j]))
  }

  lemma {:induction false} StageStopsInOrder(task: TaskState, target: Phase, outcomes: Outcomes)
    requires 0 <= Rank(target) && Rank(task.phase) <= Rank(target)
    ensures Rank(RunTo(task, target, outcomes).task.phase) <= Rank(target)
    decreases 5 - Rank(task.phase), Working(task.phase)
  {
    if !Stops(task.phase, target) && outcomes(task.phase).None? {
      StageStopsInOrder(Body(task, None), target, outcomes);
    }
  }

  /** Staged equals direct: for any outcomes of the bodies, running to each target of a forward
      chain in turn executes the same bodies in the same order and ends in the same phase,
      progress and error as one run straight to the last. */
  lemma {:induction false} StagedEqualsDirect(task: TaskState, targets: seq<Phase>, outcomes: Outcomes)
    requires targets != [] && Forward(task.phase, targets)
    ensures RunStages(task, targets, outcomes) == RunTo(task, targets[|targets| - 1], outcomes)
    decreases |targets|
  {
    if |targets| > 1 {
      var first := RunTo(task, targets[0], outcomes);
      StageStopsInOrder(task, targets[0], outcomes);
      StagedEqualsDirect(first.task, targets[1..], outcomes);
      TwoStagesEqualOne(task, targets[0], targets[|targets| - 1], outcomes);
    }
  }

  /** A target behind the current phase, or one that is no phase at all, does not hold the
      task: it runs as if it had been told to complete. */
  lemma {:induction false} TargetBehindRunsToTheEnd(task: TaskState, target: Phase, outcomes: Outcomes)
    requires Working(task.phase) && Rank(target) < Rank(task.phase)
    ensures RunTo(task, target, outcomes) == RunTo(task, Completed, outcomes)
    decreases 5 - Rank(task.phase)
  {
    var next := Body(task, outcomes(task.phase));
    if Working(next.phase) {
      TargetBehindRunsToTheEnd(next, target, outcomes);
    }
  }

  /** Exactly when a run pauses at the target it was given: the target is not behind, and no
      body before it fails. */
  lemma PausesAtTargetIff(task: TaskState, target: Phase, outcomes: Outcomes)
    requires Working(task.phase) && 0 <= Rank(target)
    ensures RunTo(task, target, outcomes).task.phase == target
            <==> Rank(task.phase) <= Rank(target) && AllSucceed(Rank(task.phase), Rank(target), outcomes)
  {
    var stop := StopRank(task.phase, target);
    if AllSucceed(Rank(task.phase), stop, outcomes) {
      RunSucceeds(task, target, outcomes);
      RankDetermines(RunTo(task, target, outcomes).task.phase, target);
    } else {
      var p := FirstFailure(Rank(task.phase), stop, outcomes);
      RunFails(task, target, outcomes, p);
    }
  }

  lemma RankDetermines(p: Phase, q: Phase)
    requires 0 <= Rank(p) && 0 <= Rank(q)
    ensures p == q <==> Rank(p) == Rank(q)
  {
  }

  lemma {:induction false} FirstFailure(lo: int, hi: int, outcomes: Outcomes) returns (p: Phase)
    requires 0 <= lo && !AllSucceed(lo, hi, outcomes)
    ensures lo <= Rank(p) < hi && outcomes(p).Some? && AllSucceed(lo, Rank(p), outcomes)
    decreases hi - lo
  {
    p :| lo <= Rank(p) < hi && outcomes(p).Some?;
    if !AllSucceed(lo, Rank(p), outcomes) {
      p := FirstFailure(lo, Rank(p), outcomes);
    }
  }
}
