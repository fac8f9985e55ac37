/** The observation pipeline: the collector's poll loop (internal/signals/collector.go), its
    bounded channel, and the goroutine that drains it into the window. */
module ObservationPipeline {
  import opened Common
  import opened Signals
  import opened Channels

  const SNAPSHOT_BUFFER := 64

  /** What one poll of Patroni and PostgreSQL comes to. */
  datatype PollResult = PatroniFailed(message: string) | PgFailed(message: string) | Complete(snapshot: LoadSnapshot)

  /** The pipeline at one moment. `inHand` is the snapshot that the drain goroutine has received
      and not yet pushed; `observed` and `delivered` are the complete snapshots made and the
      snapshots pushed into the window since the start, oldest first. */
  datatype Pipe = Pipe(
    capacity: nat,
    looping: bool,
    cancelled: bool,
    stopping: bool,
    closed: bool,
    queue: seq<LoadSnapshot>,
    inHand: Option<LoadSnapshot>,
    errors: seq<string>,
    dropped: nat,
    observed: seq<LoadSnapshot>,
    delivered: seq<LoadSnapshot>)

  /** The atomic steps of the goroutines involved. */
  datatype Step =
    | Poll(result: PollResult)
    | Receive
    | Deliver
    | DrainError
    | CancelContext
    | RequestStop
    | LeaveLoop
    | CloseChannels

  function Initial(capacity: nat): Pipe {
    Pipe(capacity, true, false, false, false, [], None, [], 0, [], [])
  }

  /** When the code can take a step. The loop's select may still choose the ticker after a
      stop was requested, and Shutdown closes the channels only after the loop has left. */
  predicate Enabled(p: Pipe, step: Step) {
    match step
    case Poll(_) => p.looping
    case Receive => p.inHand.None? && p.queue != []
    case Deliver => p.inHand.Some?
    case DrainError => p.errors != []
    case CancelContext => true
    case RequestStop => !p.stopping
    case LeaveLoop => p.looping && (p.stopping || p.cancelled)
    case CloseChannels => p.stopping && !p.looping && !p.closed
  }

  function PolledError(p: Pipe, message: string): Pipe {
    if |p.errors| < p.capacity then p.(errors := p.errors + [message]) else p
  }

  function Next(p: Pipe, step: Step): Pipe
    requires Enabled(p, step)
  {
    match step
    case Poll(PatroniFailed(message)) => PolledError(p, message)
    case Poll(PgFailed(message)) => PolledError(p, message)
    case Poll(Complete(snapshot)) =>
      var q := p.(observed := p.observed + [snapshot]);
      if |p.queue| < p.capacity then q.(queue := p.queue + [snapshot]) else q.(dropped := p.dropped + 1)
    case Receive => p.(inHand := Some(p.queue[0]), queue := p.queue[1..])
    case Deliver => p.(delivered := p.delivered + [p.inHand.value], inHand := None)
    case DrainError => p.(errors := p.errors[1..])
    case CancelContext => p.(cancelled := true)
    case RequestStop => p.(stopping := true)
    case LeaveLoop => p.(looping := false)
    case CloseChannels => p.(closed := true)
  }

  /** The pipeline after an interleaving of steps; None if the code does not allow it. */
  function Run(p: Pipe, steps: seq<Step>): Option<Pipe> {
    if steps == [] then Some(p)
    else
      var n := |steps| - 1;
      match Run(p, steps[..n])
      case None => None
      case Some(mid) => if Enabled(mid, steps[n]) then Some(Next(mid, steps[n])) else None
  }

  /** The snapshot on its way from the channel to the window, if there is one. */
  function Held(p: Pipe): seq<LoadSnapshot> {
    if p.inHand.Some? then [p.inHand.value] else []
  }

  /** Everything observed that was not dropped, in the order of the pipeline. */
  function Kept(p: Pipe): seq<LoadSnapshot> {
    p.delivered + Held(p) + p.queue
  }

  ghost predicate Inv(p: Pipe) {
    && |p.queue| <= p.capacity
    && |p.errors| <= p.capacity
    && |p.observed| == |p.delivered| + |Held(p)| + |p.queue| + p.dropped
    && InOrder(Kept(p), p.observed)
    && (p.closed ==> !p.looping)
  }

  lemma StepKeepsInv(p: Pipe, step: Step)
    requires Inv(p) && Enabled(p, step)
    ensures Inv(Next(p, step))
  {
    var q := Next(p, step);
    if step.Poll? && step.result.Complete? {
      if |p.queue| < p.capacity {
        InOrderKeep(Kept(p), p.observed, step.result.snapshot);
        assert Kept(q) == Kept(p) + [step.result.snapshot];
      } else {
        InOrderSkip(Kept(p), p.observed, step.result.snapshot);
      }
    } else if step.Receive? || step.Deliver? {
      assert Kept(q) == Kept(p);
    }
  }

  /** In every interleaving of polls, receives, pushes, cancellation and shutdown: what was
      delivered, what the drain goroutine has in hand and what is queued are together the
      sequence of complete snapshots with only the counted drops missing; the queue never
      exceeds its bound; and no send can follow the close. */
  lemma {:induction false} PipelineConserves(capacity: nat, steps: seq<Step>)
    requires Run(Initial(capacity), steps).Some?
    ensures var q := Run(Initial(capacity), steps).value;
            && Inv(q)
            && (q.closed ==> forall result :: !Enabled(q, Poll(result)))
            && (q.dropped == 0 ==> q.delivered + Held(q) + q.queue == q.observed)
  {
    var q := Run(Initial(capacity), steps).value;
    if steps == [] {
      EmptyInOrder<LoadSnapshot>([]);
      assert Kept(q) == [];
    } else {
      var n := |steps| - 1;
      PipelineConserves(capacity, steps[..n]);
      StepKeepsInv(Run(Initial(capacity), steps[..n]).value, steps[n]);
    }
    if q.dropped == 0 {
      FullSelection(Kept(q), q.observed);
    }
  }

  // ----- Every field, from the steps -------------------------------------------------------

  /** What the steps so far come to, whatever the pipeline did about them: the complete
      snapshots, those among them that met a queue with room, the messages of failed polls that
      met a place among the errors, and how often each channel and the window were served. */
  datatype Ledger = Ledger(
    observed: seq<LoadSnapshot>,
    accepted: seq<LoadSnapshot>,
    receives: nat,
    deliveries: nat,
    reported: seq<string>,
    errorsRead: nat)

  function Reported(capacity: nat, b: Ledger, message: string): Ledger {
    if |b.reported| < capacity + b.errorsRead then b.(reported := b.reported + [message]) else b
  }

  function Booked(capacity: nat, b: Ledger, step: Step): Ledger {
    match step
    case Poll(PatroniFailed(message)) => Reported(capacity, b, message)
    case Poll(PgFailed(message)) => Reported(capacity, b, message)
    case Poll(Complete(snapshot)) =>
      b.(observed := b.observed + [snapshot],
         accepted := if |b.accepted| < capacity + b.receives then b.accepted + [snapshot] else b.accepted)
    case Receive => b.(receives := b.receives + 1)
    case Deliver => b.(deliveries := b.deliveries + 1)
    case DrainError => b.(errorsRead := b.errorsRead + 1)
    case _ => b
  }

  function Book(capacity: nat, steps: seq<Step>): Ledger {
    if steps == [] then Ledger([], [], 0, 0, [], 0)
    else Booked(capacity, Book(capacity, steps[..|steps| - 1]), steps[|steps| - 1])
  }

  /** The pipeline is what the ledger says: what is delivered, held and queued is what was
      accepted, cut where the window and the drain goroutine have got to, and the rest was
      dropped. */
  ghost predicate Explained(p: Pipe, b: Ledger) {
    && p.observed == b.observed
    && Kept(p) == b.accepted
    && |p.delivered| == b.deliveries
    && |p.delivered| + |Held(p)| == b.receives
    && |b.accepted| + p.dropped == |b.observed|
    && Remains(b.reported, b.errorsRead, p.errors)
  }

  lemma PollKeepsExplained(p: Pipe, b: Ledger, snapshot: LoadSnapshot)
    requires Explained(p, b) && p.looping
    ensures Explained(Next(p, Poll(Complete(snapshot))), Booked(p.capacity, b, Poll(Complete(snapshot))))
  {
    var q := Next(p, Poll(Complete(snapshot)));
    assert Kept(q) == if |p.queue| < p.capacity then Kept(p) + [snapshot] else Kept(p);
  }

  lemma ErrorKeepsExplained(p: Pipe, b: Ledger, message: string)
    requires Explained(p, b)
    ensures Explained(PolledError(p, message), Reported(p.capacity, b, message))
  {
    RemainsAppend(b.reported, b.errorsRead, p.errors, message);
    assert Kept(PolledError(p, message)) == Kept(p);
  }

  lemma DrainKeepsExplained(p: Pipe, b: Ledger, step: Step)
    requires Explained(p, b) && Enabled(p, step) && (step.Receive? || step.Deliver?)
    ensures Explained(Next(p, step), Booked(p.capacity, b, step))
  {
    assert Kept(Next(p, step)) == Kept(p);
  }

  lemma StepKeepsExplained(p: Pipe, b: Ledger, step: Step)
    requires Explained(p, b) && Enabled(p, step)
    ensures Explained(Next(p, step), Booked(p.capacity, b, step))
  {
    match step
    case Poll(Complete(snapshot)) => PollKeepsExplained(p, b, snapshot);
    case Poll(PatroniFailed(message)) => ErrorKeepsExplained(p, b, message);
    case Poll(PgFailed(message)) => ErrorKeepsExplained(p, b, message);
    case Receive => DrainKeepsExplained(p, b, step);
    case Deliver => DrainKeepsExplained(p, b, step);
    case DrainError => RemainsTake(b.reported, b.errorsRead, p.errors);
    case _ =>
  }

  lemma StepKeepsCapacity(p: Pipe, step: Step)
    requires Enabled(p, step)
    ensures Next(p, step).capacity == p.capacity
  {
  }

  /** The whole pipeline is determined by the steps taken. A snapshot is kept exactly if the
      queue was not at its bound when it was polled, and what is kept is delivered, held and
      queued in order; the drops are the rest. Errors likewise. */
  lemma {:induction false} PipelineExactly(capacity: nat, steps: seq<Step>)
    requires Run(Initial(capacity), steps).Some?
    ensures var q := Run(Initial(capacity), steps).value;
            q.capacity == capacity && Explained(q, Book(capacity, steps))
  {
    if steps != [] {
      var n := |steps| - 1;
      PipelineExactly(capacity, steps[..n]);
      StepKeepsExplained(Run(Initial(capacity), steps[..n]).value, Book(capacity, steps[..n]), steps[n]);
      StepKeepsCapacity(Run(Initial(capacity), steps[..n]).value, steps[n]);
    }
  }

  /** The complete polls at whose moment the queue was at its bound. */
  function Overflows(capacity: nat, steps: seq<Step>): nat {
    if steps == [] then 0
    else
      var n := |steps| - 1;
      var before := Run(Initial(capacity), steps[..n]);
      Overflows(capacity, steps[..n])
      + (if steps[n].Poll? && steps[n].result.Complete? && before.Some? && |before.value.queue| == capacity
         then 1 else 0)
  }

  lemma StepDrops(p: Pipe, step: Step)
    requires Enabled(p, step) && |p.queue| <= p.capacity
    ensures var q := Next(p, step);
            && q.capacity == p.capacity && |q.queue| <= q.capacity
            && q.dropped == p.dropped
               + if step.Poll? && step.result.Complete? && |p.queue| == p.capacity then 1 else 0
  {
  }

  /** A snapshot is dropped when the queue is full and at no other time. */
  lemma {:induction false} DropsOnlyWhenFull(capacity: nat, steps: seq<Step>)
    requires Run(Initial(capacity), steps).Some?
    ensures var q := Run(Initial(capacity), steps).value;
            q.capacity == capacity && |q.queue| <= capacity && q.dropped == Overflows(capacity, steps)
  {
    if steps != [] {
      var n := |steps| - 1;
      DropsOnlyWhenFull(capacity, steps[..n]);
      StepDrops(Run(Initial(capacity), steps[..n]).value, steps[n]);
    }
  }

  // ----- The life of the loop and the channels ---------------------------------------------

  predicate LifeIs(p: Pipe, left: bool, stopRequested: bool, contextEnded: bool, closed: bool) {
    && p.looping == !left && p.stopping == stopRequested && p.cancelled == contextEnded && p.closed == closed
    && (closed ==> left && stopRequested)
  }

  lemma StepChangesLife(p: Pipe, step: Step)
    requires Enabled(p, step) && LifeIs(p, !p.looping, p.stopping, p.cancelled, p.closed)
    ensures LifeIs(Next(p, step), !p.looping || step == LeaveLoop, p.stopping || step == RequestStop,
                   p.cancelled || step == CancelContext, p.closed || step == CloseChannels)
  {
  }

  /** The loop runs until it leaves, and the channels are open until they are closed, which
      happens only after a stop was requested and the loop has left. */
  lemma {:induction false} LifeExactly(capacity: nat, steps: seq<Step>)
    requires Run(Initial(capacity), steps).Some?
    ensures LifeIs(Run(Initial(capacity), steps).value,
                   LeaveLoop in steps, RequestStop in steps, CancelContext in steps, CloseChannels in steps)
  {
    if steps != [] {
      var n := |steps| - 1;
      LifeExactly(capacity, steps[..n]);
      StepChangesLife(Run(Initial(capacity), steps[..n]).value, steps[n]);
      assert steps == steps[..n] + [steps[n]];
      InExtended(steps[..n], steps[n], LeaveLoop);
      InExtended(steps[..n], steps[n], RequestStop);
      InExtended(steps[..n], steps[n], CancelContext);
      InExtended(steps[..n], steps[n], CloseChannels);
    }
  }

  lemma RunExtends(p: Pipe, steps: seq<Step>, next: Step)
    requires Run(p, steps).Some?
    ensures var q := Run(p, steps).value;
            Run(p, steps + [next]) == if Enabled(q, next) then Some(Next(q, next)) else None
  {
    assert (steps + [next])[..|steps|] == steps;
  }

  /** Nothing gets stuck. While the loop runs a poll is never blocked, however full the queues;
      once a stop was requested or the context has ended the loop can leave; what is queued can
      be received by an idle drain goroutine and what it holds delivered, even after the close;
      and after a requested stop the channels can be closed as soon as the loop has left. */
  lemma NothingBlocks(capacity: nat, steps: seq<Step>, result: PollResult)
    requires Run(Initial(capacity), steps).Some?
    ensures var q := Run(Initial(capacity), steps).value;
            && (Run(Initial(capacity), steps + [Poll(result)]).Some? <==> LeaveLoop !in steps)
            && (Run(Initial(capacity), steps + [LeaveLoop]).Some?
                <==> LeaveLoop !in steps && (RequestStop in steps || CancelContext in steps))
            && (Run(Initial(capacity), steps + [CloseChannels]).Some?
                <==> LeaveLoop in steps && RequestStop in steps && CloseChannels !in steps)
            && (Run(Initial(capacity), steps + [Receive]).Some? <==> q.queue != [] && Held(q) == [])
            && (Run(Initial(capacity), steps + [Deliver]).Some? <==> Held(q) != [])
            && (Run(Initial(capacity), steps + [DrainError]).Some? <==> q.errors != [])
  {
    LifeExactly(capacity, steps);
    RunExtends(Initial(capacity), steps, Poll(result));
    RunExtends(Initial(capacity), steps, LeaveLoop);
    RunExtends(Initial(capacity), steps, CloseChannels);
    RunExtends(Initial(capacity), steps, Receive);
    RunExtends(Initial(capacity), steps, Deliver);
    RunExtends(Initial(capacity), steps, DrainError);
  }

  /** What the engine averages over is always a stretch of what was really observed, in order. */
  lemma WindowShowsObserved(p: Pipe, size: nat)
    requires Inv(p)
    ensures InOrder(Newest(p.delivered, size), p.observed)
  {
    assert Kept(p) == p.delivered + (Held(p) + p.queue);
    InOrderPrefix(p.delivered, Held(p) + p.queue, p.observed);
    InOrderNewest(p.delivered, p.observed, size);
  }

  /** The collector object, with the window its drain goroutine fills. */
  class Collector {
    const snapshots: Channel<LoadSnapshot>
    const errors: Channel<string>
    const window: Window
    var droppedSnapshots: nat
    var done: bool
    var contextDone: bool
    var looping: bool
    /** The loop variable of the drain goroutine, while its iteration lasts. */
    var inHand: Option<LoadSnapshot>
    ghost var observed: seq<LoadSnapshot>

    ghost predicate Valid()
      reads this, snapshots, errors, window, window.buf
    {
      && window.Valid()
      && snapshots.capacity == errors.capacity
      && snapshots.closed == errors.closed
      && (snapshots.closed ==> !looping)
    }

    /** The abstract pipeline; everything the window was ever pushed has been delivered. */
    ghost function View(): Pipe
      reads this, snapshots, errors, window
    {
      Pipe(snapshots.capacity, looping, contextDone, done, snapshots.closed, snapshots.queue,
           inHand, errors.queue, droppedSnapshots, observed, window.history)
    }

    constructor (window: Window)
      requires window.Valid() && window.history == []
      ensures Valid() && View() == Initial(64)
      ensures fresh(snapshots) && fresh(errors) && this.window == window
    {
      this.window := window;
      snapshots := new Channel<LoadSnapshot>(SNAPSHOT_BUFFER);
      errors := new Channel<string>(SNAPSHOT_BUFFER);
      droppedSnapshots, observed, inHand := 0, [], None;
      done, contextDone, looping := false, false, true;
    }

    /** One poll cycle of the loop goroutine, ending in a send that never blocks. */
    method PollOnce(result: PollResult)
      requires Valid() && Enabled(View(), Poll(result))
      modifies this, snapshots, errors
      ensures Valid() && View() == Next(old(View()), Poll(result))
    {
      match result
      case PatroniFailed(message) =>
        var _ := errors.TrySend(message);
      case PgFailed(message) =>
        var _ := errors.TrySend(message);
      case Complete(snapshot) =>
        var sent := snapshots.TrySend(snapshot);
        if !sent {
          droppedSnapshots := droppedSnapshots + 1;
        }
        observed := observed + [snapshot];
    }

    /** The drain goroutine's range over the channel takes the next snapshot. */
    method ReceiveOnce()
      requires Valid() && Enabled(View(), Receive)
      modifies this, snapshots
      ensures Valid() && View() == Next(old(View()), Receive)
    {
      var snapshot := snapshots.Receive();
      inHand := Some(snapshot);
    }

    /** The body of that loop. */
    method DeliverOnce()
      requires Valid() && Enabled(View(), Deliver)
      modifies this, window, window.buf
      ensures Valid() && View() == Next(old(View()), Deliver)
      ensures window.Contents() == Newest(old(View().delivered) + [old(inHand).value], window.size)
    {
      window.Push(inHand.value);
      inHand := None;
    }

    /** One whole iteration of the drain goroutine, if nothing else happens meanwhile. */
    method DrainOnce()
      requires Valid() && Enabled(View(), Receive)
      modifies this, snapshots, window, window.buf
      ensures Valid() && View() == Next(Next(old(View()), Receive), Deliver)
      ensures window.Contents() == Newest(old(View().delivered) + [old(View().queue)[0]], window.size)
    {
      ReceiveOnce();
      DeliverOnce();
    }

    method DrainErrorOnce()
      requires Valid() && Enabled(View(), DrainError)
      modifies errors
      ensures Valid() && View() == Next(old(View()), DrainError)
    {
      var _ := errors.Receive();
    }

    /** The agent's context ends. */
    method Cancel()
      requires Valid()
      modifies this
      ensures Valid() && View() == Next(old(View()), CancelContext)
    {
      contextDone := true;
    }

    /** The loop's select picks the done or the context branch. */
    method LeaveLoopOnce()
      requires Valid() && Enabled(View(), LeaveLoop)
      modifies this
      ensures Valid() && View() == Next(old(View()), LeaveLoop)
    {
      looping := false;
    }

    /** Shutdown up to the wait: signal the loop. */
    method BeginShutdown()
      requires Valid() && Enabled(View(), RequestStop)
      modifies this
      ensures Valid() && View() == Next(old(View()), RequestStop)
    {
      done := true;
    }

    /** Shutdown after the wait: the loop has left, so nobody sends any more. */
    method FinishShutdown()
      requires Valid() && Enabled(View(), CloseChannels)
      modifies snapshots, errors
      ensures Valid() && View() == Next(old(View()), CloseChannels)
    {
      snapshots.Close();
      errors.Close();
    }
  }
}
