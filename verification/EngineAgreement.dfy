/** The size the engine tracks against the size PgBouncer really has, over every run of one
    process, whatever the window shows and whatever PgBouncer and the disk answer. */
module EngineAgreement {
  import opened Common
  import opened StateFile
  import opened EngineModel

  /** No acknowledgement of a load-driven SET is lost. */
  predicate LoadRepliesArrive(inputs: seq<Input>) {
    forall i :: 0 <= i < |inputs| ==> !inputs[i].answers.load.LostReply?
  }

  predicate AllRepliesArrive(inputs: seq<Input>) {
    forall i :: 0 <= i < |inputs| ==>
      && !inputs[i].answers.load.LostReply?
      && !inputs[i].answers.suppress.LostReply?
      && !inputs[i].answers.restore.LostReply?
  }

  /** The engine's idea of the pool size is right, or the difference is one that the pending
      recovery will repair: PgBouncer still has the size remembered, or already has the one
      that recovery asks for. */
  predicate Reconcilable(defaultSize: int, state: EngineState, pool: int) {
    || pool == state.currentPoolSize
    || (state.Suppressed() && pool == RestoreSize(defaultSize, state))
    || (state.Suppressed() && state.currentPoolSize == 0 && pool == state.lastPoolSize)
  }

  /** Agreement when every reply arrives: exact, or an unacknowledged suppression. */
  predicate Agrees(state: EngineState, pool: int) {
    || pool == state.currentPoolSize
    || (state.Suppressed() && state.currentPoolSize == 0 && pool == state.lastPoolSize)
  }

  /** PgBouncer's size after the effects of one tick. */
  function PoolAfter(pool: int, effects: seq<Effect>): int {
    PerformAll(World(pool, None), effects).pool
  }

  lemma {:induction false} PoolIgnoresDisk(a: World, b: World, effects: seq<Effect>)
    requires a.pool == b.pool
    ensures PerformAll(a, effects).pool == PerformAll(b, effects).pool
  {
    if effects != [] {
      PoolIgnoresDisk(a, b, effects[..|effects| - 1]);
    }
  }

  /** The SETs of one tick, as changes of the pool size. */
  function After(pool: int, size: int, outcome: SetOutcome): int {
    if outcome.Refused? then pool else size
  }

  function AfterRecovery(defaultSize: int, core: Core, answers: Answers, pool: int): int {
    if core.state.Suppressed() then After(pool, RestoreSize(defaultSize, core.state), answers.restore) else pool
  }

  lemma PoolAfterConcat(pool: int, a: seq<Effect>, b: seq<Effect>)
    ensures PoolAfter(pool, a + b) == PoolAfter(PoolAfter(pool, a), b)
  {
    PerformConcat(World(pool, None), a, b);
    PoolIgnoresDisk(PerformAll(World(pool, None), a), World(PoolAfter(pool, a), None), b);
  }

  lemma PoolAfterOne(pool: int, effect: Effect)
    ensures PoolAfter(pool, [effect])
            == if effect.SetPool? then After(pool, effect.size, effect.outcome) else pool
  {
    PerformOne(World(pool, None), effect);
  }

  /** PgBouncer's size after a tick, branch by branch. */
  lemma PoolAfterTick(defaultSize: int, core: Core, input: Input, pool: int)
    ensures var o := Tick(defaultSize, core, input);
            var view, answers := input.view, input.answers;
            PoolAfter(pool, o.effects) ==
            if view.latest.None? then pool
            else if FencedRole(view.role) then
              PoolAfter(pool, HandleFailover(core, view.role, answers).effects)
            else
              var first := MaybeRecover(defaultSize, core, answers);
              PoolAfter(
                AfterRecovery(defaultSize, core, answers, pool),
                EvaluateLoad(first.core, ZoneRead(view), view.latest.value.maxConns, answers.load).effects)
  {
    var view, answers := input.view, input.answers;
    if view.latest.None? {
    } else if FencedRole(view.role) {
      var o := HandleFailover(core, view.role, answers);
      PoolAfterConcat(pool, o.effects, [Save(o.core.state, answers.firstSave)]);
      PoolAfterOne(PoolAfter(pool, o.effects), Save(o.core.state, answers.firstSave));
    } else {
      var first := MaybeRecover(defaultSize, core, answers);
      var second := EvaluateLoad(first.core, ZoneRead(view), view.latest.value.maxConns, answers.load);
      var save := Save(second.core.state, answers.lastSave);
      PoolAfterConcat(pool, first.effects + second.effects, [save]);
      PoolAfterOne(PoolAfter(pool, first.effects + second.effects), save);
      PoolAfterConcat(pool, first.effects, second.effects);
      if core.state.Suppressed() {
        var recovery := HandleRecovery(defaultSize, core, answers);
        var saved := Save(recovery.core.state, answers.firstSave);
        PoolAfterConcat(pool, recovery.effects, [saved]);
        PoolAfterOne(pool, recovery.effects[0]);
        PoolAfterOne(PoolAfter(pool, recovery.effects), saved);
      }
    }
  }

  lemma PoolAfterFailover(core: Core, role: string, answers: Answers, pool: int)
    ensures PoolAfter(pool, HandleFailover(core, role, answers).effects)
            == if core.state.Suppressed() then pool else After(pool, 0, answers.suppress)
  {
    PoolAfterOne(pool, SetPool(Suppress, 0, answers.suppress));
  }

  /** A load-driven SET changes the real size exactly as it changes the tracked size,
      unless its reply is lost. */
  lemma PoolAfterLoad(core: Core, zone: Zone, maxConns: int, answer: SetOutcome, pool: int)
    requires !answer.LostReply?
    ensures var o := EvaluateLoad(core, zone, maxConns, answer);
            || (o.core.state == core.state && PoolAfter(pool, o.effects) == pool)
            || (PoolAfter(pool, o.effects) == o.core.state.currentPoolSize
                && o.core.state == core.state.(currentPoolSize := o.core.state.currentPoolSize))
  {
    var o := EvaluateLoad(core, zone, maxConns, answer);
    if o.effects != [] {
      PoolAfterOne(pool, o.effects[0]);
      assert o.effects == [o.effects[0]];
    }
  }

  lemma TickKeepsReconcilable(defaultSize: int, core: Core, input: Input, pool: int)
    requires Reconcilable(defaultSize, core.state, pool)
    requires !input.answers.load.LostReply?
    ensures var o := Tick(defaultSize, core, input);
            Reconcilable(defaultSize, o.core.state, PoolAfter(pool, o.effects))
  {
    var view, answers := input.view, input.answers;
    PoolAfterTick(defaultSize, core, input, pool);
    PoolAfterFailover(core, view.role, answers, pool);
    if view.latest.Some? {
      var first := MaybeRecover(defaultSize, core, answers);
      var mid := AfterRecovery(defaultSize, core, answers, pool);
      PoolAfterLoad(first.core, ZoneRead(view), view.latest.value.maxConns, answers.load, mid);
    }
  }

  lemma TickKeepsAgreement(defaultSize: int, core: Core, input: Input, pool: int)
    requires Agrees(core.state, pool)
    requires AllRepliesArrive([input])
    ensures var o := Tick(defaultSize, core, input);
            Agrees(o.core.state, PoolAfter(pool, o.effects))
  {
    var view, answers := input.view, input.answers;
    assert [input][0] == input;
    PoolAfterTick(defaultSize, core, input, pool);
    PoolAfterFailover(core, view.role, answers, pool);
    if view.latest.Some? {
      var first := MaybeRecover(defaultSize, core, answers);
      var mid := AfterRecovery(defaultSize, core, answers, pool);
      PoolAfterLoad(first.core, ZoneRead(view), view.latest.value.maxConns, answers.load, mid);
    }
  }

  /** Whatever is refused, and even if the replies to suppression and restore SETs are lost,
      the tracked size is right or the pending recovery repairs it. */
  lemma {:induction false} RunKeepsReconcilable(defaultSize: int, core: Core, inputs: seq<Input>, pool: int)
    requires Reconcilable(defaultSize, core.state, pool) && LoadRepliesArrive(inputs)
    ensures Reconcilable(defaultSize, Run(defaultSize, core, inputs).state,
                         PoolAfter(pool, Trace(defaultSize, core, inputs)))
  {
    if inputs != [] {
      var n := |inputs| - 1;
      var init := Trace(defaultSize, core, inputs[..n]);
      RunKeepsReconcilable(defaultSize, core, inputs[..n], pool);
      TickKeepsReconcilable(defaultSize, Run(defaultSize, core, inputs[..n]), inputs[n], PoolAfter(pool, init));
      PoolAfterConcat(pool, init, Tick(defaultSize, Run(defaultSize, core, inputs[..n]), inputs[n]).effects);
    }
  }

  /** When every reply arrives, agreement is exact except while a refused suppression has left
      PgBouncer at the very size that recovery will ask for. */
  lemma {:induction false} RunKeepsAgreement(defaultSize: int, core: Core, inputs: seq<Input>, pool: int)
    requires Agrees(core.state, pool) && AllRepliesArrive(inputs)
    ensures Agrees(Run(defaultSize, core, inputs).state, PoolAfter(pool, Trace(defaultSize, core, inputs)))
  {
    if inputs != [] {
      var n := |inputs| - 1;
      var init := Trace(defaultSize, core, inputs[..n]);
      RunKeepsAgreement(defaultSize, core, inputs[..n], pool);
      TickKeepsAgreement(defaultSize, Run(defaultSize, core, inputs[..n]), inputs[n], PoolAfter(pool, init));
      PoolAfterConcat(pool, init, Tick(defaultSize, Run(defaultSize, core, inputs[..n]), inputs[n]).effects);
    }
  }

  ghost predicate LosesReply(effects: seq<Effect>) {
    exists e :: e in effects && e.SetPool? && e.outcome.LostReply?
  }

  lemma LoadTracksUnlessReplyLost(core: Core, zone: Zone, maxConns: int, answer: SetOutcome, pool: int)
    requires pool == core.state.currentPoolSize
    ensures var o := EvaluateLoad(core, zone, maxConns, answer);
            PoolAfter(pool, o.effects) == o.core.state.currentPoolSize <==> !LosesReply(o.effects)
  {
    var o := EvaluateLoad(core, zone, maxConns, answer);
    if o.effects != [] {
      PoolAfterOne(pool, o.effects[0]);
      assert o.effects == [o.effects[0]];
    }
  }

  /** From exact agreement, the one thing that breaks it on a tick that does not fence is a
      load-driven SET that took effect although its reply was lost. */
  lemma OnlyLostReplyBreaksAgreement(defaultSize: int, core: Core, input: Input, pool: int)
    requires pool == core.state.currentPoolSize && !core.state.Suppressed()
    requires input.view.latest.Some? && !FencedRole(input.view.role)
    ensures var o := Tick(defaultSize, core, input);
            PoolAfter(pool, o.effects) == o.core.state.currentPoolSize <==> !LosesReply(o.effects)
  {
    var view, answers := input.view, input.answers;
    var zone, maxConns := ZoneRead(view), view.latest.value.maxConns;
    LoadTracksUnlessReplyLost(core, zone, maxConns, answers.load, pool);
    PoolAfterTick(defaultSize, core, input, pool);
    var second := EvaluateLoad(core, zone, maxConns, answers.load);
    SaveLosesNoReply([] + second.effects, Save(second.core.state, answers.lastSave));
    assert [] + second.effects == second.effects;
  }

  lemma SaveLosesNoReply(effects: seq<Effect>, save: Effect)
    requires save.Save?
    ensures LosesReply(effects + [save]) <==> LosesReply(effects)
  {
    if LosesReply(effects) {
      var e :| e in effects && e.SetPool? && e.outcome.LostReply?;
      assert e in effects + [save];
    }
  }

  /** The load evaluation would issue a SET: the zone is confirmed and the size can move. */
  predicate ResizeDue(core: Core, zone: Zone, maxConns: int) {
    match zone
    case Above => core.above >= 2 && core.state.currentPoolSize > POOL_SIZE_FLOOR
    case Below => core.below >= 5 && core.state.currentPoolSize < maxConns
    case _ => false
  }

  /** A due SET that is not refused decides agreement; nothing else changes it. */
  lemma LoadBreaksIff(core: Core, zone: Zone, maxConns: int, answer: SetOutcome, pool: int)
    ensures var o := EvaluateLoad(core, zone, maxConns, answer);
            PoolAfter(pool, o.effects) != o.core.state.currentPoolSize
            <==> if ResizeDue(core, zone, maxConns) && !answer.Refused? then answer.LostReply?
                 else pool != core.state.currentPoolSize
  {
    var o := EvaluateLoad(core, zone, maxConns, answer);
    if o.effects != [] {
      PoolAfterOne(pool, o.effects[0]);
      assert o.effects == [o.effects[0]];
    }
  }

  /** Whether a tick that begins in agreement ends without it, judged before it runs: the SET 0
      of a failover is refused by a pool that is not empty; or the last SET to take effect,
      restore or resize, loses its reply, and changes the size. */
  predicate BreaksAgreement(defaultSize: int, core: Core, input: Input) {
    var Input(view, answers) := input;
    if view.latest.None? then false
    else if FencedRole(view.role) then
      !core.state.Suppressed() && answers.suppress.Refused? && core.state.currentPoolSize != 0
    else if core.state.Suppressed() && answers.restore.Applied? then false
    else if ResizeDue(core, ZoneRead(view), view.latest.value.maxConns) && !answers.load.Refused? then
      answers.load.LostReply?
    else
      core.state.Suppressed() && answers.restore.LostReply?
      && RestoreSize(defaultSize, core.state) != core.state.currentPoolSize
  }

  /** From exact agreement, on any tick, suppressed or not: the tracked size is wrong after it
      exactly under that condition. */
  lemma AgreementBreaksIff(defaultSize: int, core: Core, input: Input, pool: int)
    requires pool == core.state.currentPoolSize
    ensures var o := Tick(defaultSize, core, input);
            PoolAfter(pool, o.effects) != o.core.state.currentPoolSize
            <==> BreaksAgreement(defaultSize, core, input)
  {
    var Input(view, answers) := input;
    PoolAfterTick(defaultSize, core, input, pool);
    PoolAfterFailover(core, view.role, answers, pool);
    if view.latest.Some? {
      var first := MaybeRecover(defaultSize, core, answers);
      LoadBreaksIff(first.core, ZoneRead(view), view.latest.value.maxConns, answers.load,
                    AfterRecovery(defaultSize, core, answers, pool));
    }
  }

  // ----- Every SET outcome, every run -----------------------------------------------------

  /** Whether the last SET that took effect lost its reply. */
  function LastLost(was: bool, effects: seq<Effect>): bool {
    if effects == [] then was
    else
      var last := effects[|effects| - 1];
      if last.SetPool? && !last.outcome.Refused? then last.outcome.LostReply?
      else LastLost(was, effects[..|effects| - 1])
  }

  lemma {:induction false} LastLostConcat(was: bool, a: seq<Effect>, b: seq<Effect>)
    ensures LastLost(was, a + b) == LastLost(LastLost(was, a), b)
  {
    if b == [] {
      assert a + b == a;
    } else {
      assert (a + b)[..|a + b| - 1] == a + b[..|b| - 1];
      LastLostConcat(was, a, b[..|b| - 1]);
    }
  }

  lemma LastLostOne(was: bool, e: Effect)
    ensures LastLost(was, [e]) == if e.SetPool? && !e.outcome.Refused? then e.outcome.LostReply? else was
  {
    assert [e][..0] == [];
  }

  lemma LastLostSave(was: bool, effects: seq<Effect>, save: Effect)
    requires save.Save?
    ensures LastLost(was, effects + [save]) == LastLost(was, effects)
  {
    LastLostConcat(was, effects, [save]);
    LastLostOne(LastLost(was, effects), save);
  }

  lemma LastLostAfterRecovery(defaultSize: int, core: Core, answers: Answers, was: bool)
    ensures LastLost(was, MaybeRecover(defaultSize, core, answers).effects)
            == if core.state.Suppressed() && !answers.restore.Refused? then answers.restore.LostReply? else was
  {
    if core.state.Suppressed() {
      var recovery := HandleRecovery(defaultSize, core, answers);
      LastLostSave(was, recovery.effects, Save(recovery.core.state, answers.firstSave));
      LastLostOne(was, recovery.effects[0]);
    }
  }

  lemma LastLostAfterLoad(core: Core, zone: Zone, maxConns: int, answer: SetOutcome, was: bool)
    ensures LastLost(was, EvaluateLoad(core, zone, maxConns, answer).effects)
            == if ResizeDue(core, zone, maxConns) && !answer.Refused? then answer.LostReply? else was
  {
    var o := EvaluateLoad(core, zone, maxConns, answer);
    if o.effects != [] {
      LastLostOne(was, o.effects[0]);
      assert o.effects == [o.effects[0]];
    }
  }

  /** An unsuppressed engine is wrong about the size exactly if a reply is missing. */
  predicate WrongIffLost(core: Core, pool: int, lost: bool) {
    !core.state.Suppressed() ==> (pool != core.state.currentPoolSize <==> lost)
  }

  lemma TickKeepsWrongIffLost(defaultSize: int, core: Core, input: Input, pool: int, lost: bool)
    requires WrongIffLost(core, pool, lost)
    ensures var o := Tick(defaultSize, core, input);
            WrongIffLost(o.core, PoolAfter(pool, o.effects), LastLost(lost, o.effects))
  {
    var Input(view, answers) := input;
    PoolAfterTick(defaultSize, core, input, pool);
    if view.latest.Some? && !FencedRole(view.role) {
      var zone, maxConns := ZoneRead(view), view.latest.value.maxConns;
      var first := MaybeRecover(defaultSize, core, answers);
      var second := EvaluateLoad(first.core, zone, maxConns, answers.load);
      LoadBreaksIff(first.core, zone, maxConns, answers.load, AfterRecovery(defaultSize, core, answers, pool));
      LastLostSave(lost, first.effects + second.effects, Save(second.core.state, answers.lastSave));
      LastLostConcat(lost, first.effects, second.effects);
      LastLostAfterRecovery(defaultSize, core, answers, lost);
      LastLostAfterLoad(first.core, zone, maxConns, answers.load, LastLost(lost, first.effects));
    }
  }

  /** Over every run, with every outcome of every SET: whenever the engine is not suppressed,
      the size it tracks differs from PgBouncer's exactly if the last SET that took effect, of
      whatever kind and however long ago, lost its reply. */
  lemma {:induction false} UnsuppressedWrongIffLastLost(
      defaultSize: int, core: Core, inputs: seq<Input>, pool: int, lost: bool)
    requires WrongIffLost(core, pool, lost)
    ensures var end, trace := Run(defaultSize, core, inputs), Trace(defaultSize, core, inputs);
            !end.state.Suppressed() ==>
              (PoolAfter(pool, trace) != end.state.currentPoolSize <==> LastLost(lost, trace))
  {
    if inputs != [] {
      var n := |inputs| - 1;
      var init, now := Trace(defaultSize, core, inputs[..n]), Run(defaultSize, core, inputs[..n]);
      UnsuppressedWrongIffLastLost(defaultSize, core, inputs[..n], pool, lost);
      TickKeepsWrongIffLost(defaultSize, now, inputs[n], PoolAfter(pool, init), LastLost(lost, init));
      PoolAfterConcat(pool, init, Tick(defaultSize, now, inputs[n]).effects);
      LastLostConcat(lost, init, Tick(defaultSize, now, inputs[n]).effects);
    }
  }
}
