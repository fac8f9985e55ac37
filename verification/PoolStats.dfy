/** The pooler statistics pipeline (internal/agent/pool.go): a poller that never blocks, a
    bounded channel, and a shipper that writes to a log through a buffered writer, over one
    session from Start to Stop. */
module PoolStats {
  import opened Common
  import opened Channels

  /** The shipper's sink. A buffered writer that has failed once fails for ever. */
  datatype Sink = Opening | NoSink | Writer(broken: bool)

  /** What the writer does with one line while it is healthy. */
  datatype WriteResult = Written | WriteFailed | FlushFailed

  /** One session at one moment. `polled` are the samples fetched and `shipped` those the
      shipper took from the channel, oldest first; `log` is what reached the file. */
  datatype Session = Session(
    capacity: nat,
    polling: bool,
    stopping: bool,
    closed: bool,
    queue: seq<string>,
    shipping: bool,
    sink: Sink,
    inHand: Option<string>,
    log: seq<string>,
    writeFailed: nat,
    flushFailed: nat,
    dropped: nat,
    polled: seq<string>,
    shipped: seq<string>)

  datatype Step =
    | Poll(line: string)
    | PollError
    | RequestStop
    | LeavePoller
    | OpenSink(ok: bool)
    | Take
    | Ship(result: WriteResult)
    | LeaveShipper

  function Initial(capacity: nat): Session {
    Session(capacity, true, false, false, [], true, Opening, None, [], 0, 0, 0, [], [])
  }

  predicate Enabled(s: Session, step: Step) {
    match step
    case Poll(_) => s.polling
    case PollError => s.polling
    case RequestStop => !s.stopping
    case LeavePoller => s.polling && s.stopping
    case OpenSink(_) => s.shipping && s.sink.Opening?
    case Take => s.shipping && !s.sink.Opening? && s.inHand.None? && s.queue != []
    case Ship(_) => s.shipping && s.inHand.Some?
    case LeaveShipper => s.shipping && !s.sink.Opening? && s.inHand.None? && s.queue == [] && s.closed
  }

  function Next(s: Session, step: Step): Session
    requires Enabled(s, step)
  {
    match step
    case Poll(line) =>
      var t := s.(polled := s.polled + [line]);
      if |s.queue| < s.capacity then t.(queue := s.queue + [line]) else t.(dropped := s.dropped + 1)
    case PollError => s
    case RequestStop => s.(stopping := true)
    case LeavePoller => s.(polling := false, closed := true)
    case OpenSink(ok) => s.(sink := if ok then Writer(false) else NoSink)
    case Take => s.(queue := s.queue[1..], inHand := Some(s.queue[0]), shipped := s.shipped + [s.queue[0]])
    case Ship(result) => Shipped(s.(inHand := None), s.inHand.value, result)
    case LeaveShipper => s.(shipping := false)
  }

  function Shipped(s: Session, line: string, result: WriteResult): Session {
    match s.sink
    case Opening => s
    case NoSink => s.(dropped := s.dropped + 1)
    case Writer(true) => s.(writeFailed := s.writeFailed + 1)
    case Writer(false) =>
      match result
      case Written => s.(log := s.log + [line])
      case WriteFailed => s.(writeFailed := s.writeFailed + 1, sink := Writer(true))
      case FlushFailed => s.(flushFailed := s.flushFailed + 1, sink := Writer(true))
  }

  /** The session after an interleaving of steps; None if the code does not allow it. */
  function Run(s: Session, steps: seq<Step>): Option<Session> {
    if steps == [] then Some(s)
    else
      var n := |steps| - 1;
      match Run(s, steps[..n])
      case None => None
      case Some(mid) => if Enabled(mid, steps[n]) then Some(Next(mid, steps[n])) else None
  }

  function InHand(s: Session): nat {
    if s.inHand.Some? then 1 else 0
  }

  /** The shipped lines the shipper has finished with. */
  function Finished(s: Session): seq<string>
    requires InHand(s) <= |s.shipped|
  {
    s.shipped[..|s.shipped| - InHand(s)]
  }

  /** Every sample is somewhere, in order and within the bound. */
  ghost predicate Conserved(s: Session) {
    && |s.queue| <= s.capacity
    && |s.polled| == |s.log| + s.writeFailed + s.flushFailed + s.dropped + |s.queue| + InHand(s)
    && InOrder(s.shipped + s.queue, s.polled)
  }

  /** The log is a prefix of what the shipper has finished with; all of it while nothing failed. */
  ghost predicate Logged(s: Session) {
    && InHand(s) <= |s.shipped|
    && (s.inHand.Some? ==> s.inHand.value == s.shipped[|s.shipped| - 1])
    && s.log <= Finished(s)
    && s.flushFailed <= 1
    && (s.sink.Opening? ==> s.shipped == [])
    && (s.sink == Writer(false) ==> s.log == Finished(s) && s.writeFailed == s.flushFailed == 0)
    && (!s.sink.Writer? ==> s.log == [] && s.writeFailed == s.flushFailed == 0)
  }

  ghost predicate Inv(s: Session) {
    && Conserved(s)
    && Logged(s)
    && (s.closed <==> !s.polling)
    && (!s.shipping ==> s.closed && s.queue == [] && s.inHand.None? && !s.sink.Opening?)
  }

  lemma StepKeepsInv(s: Session, step: Step)
    requires Inv(s) && Enabled(s, step)
    ensures Inv(Next(s, step))
  {
    match step
    case Poll(line) =>
      PollKeepsInv(s, line);
    case Take =>
      TakeKeepsInv(s);
    case Ship(result) =>
      ShipKeepsInv(s, result);
    case _ =>
  }

  lemma PollKeepsInv(s: Session, line: string)
    requires Inv(s) && Enabled(s, Poll(line))
    ensures Inv(Next(s, Poll(line)))
  {
    if |s.queue| < s.capacity {
      InOrderKeep(s.shipped + s.queue, s.polled, line);
      assert s.shipped + (s.queue + [line]) == s.shipped + s.queue + [line];
    } else {
      InOrderSkip(s.shipped + s.queue, s.polled, line);
    }
  }

  lemma TakeKeepsInv(s: Session)
    requires Inv(s) && Enabled(s, Take)
    ensures Inv(Next(s, Take))
  {
    var t := Next(s, Take);
    assert t.shipped + t.queue == s.shipped + s.queue;
    assert Finished(t) == Finished(s);
  }

  lemma ShipKeepsInv(s: Session, result: WriteResult)
    requires Inv(s) && Enabled(s, Ship(result))
    ensures Inv(Next(s, Ship(result)))
  {
    ShipKeepsConserved(s, result);
    ShipKeepsLogged(s, result);
  }

  lemma ShipKeepsConserved(s: Session, result: WriteResult)
    requires Conserved(s) && Enabled(s, Ship(result)) && !s.sink.Opening?
    ensures Conserved(Next(s, Ship(result)))
  {
    ShipMovesOne(s.(inHand := None), s.inHand.value, result);
  }

  /** A line handed over is counted in one place, and only there. */
  lemma ShipMovesOne(s: Session, line: string, result: WriteResult)
    requires !s.sink.Opening?
    ensures var t := Shipped(s, line, result);
            && |t.log| + t.writeFailed + t.flushFailed + t.dropped
               == |s.log| + s.writeFailed + s.flushFailed + s.dropped + 1
            && t.shipped == s.shipped && t.queue == s.queue && t.polled == s.polled
            && t.inHand == s.inHand && t.capacity == s.capacity
  {
    if s.sink == Writer(false) && result.Written? {
      assert |s.log + [line]| == |s.log| + 1;
    } else {
      assert Shipped(s, line, result).log == s.log;
    }
  }

  lemma ShipKeepsLogged(s: Session, result: WriteResult)
    requires Logged(s) && Enabled(s, Ship(result))
    ensures Logged(Next(s, Ship(result)))
  {
    ShipFinishes(s, result);
  }

  /** Handing a line over finishes it, and touches neither what was shipped nor the queue. */
  lemma ShipFinishes(s: Session, result: WriteResult)
    requires s.shipping && s.inHand.Some? && s.shipped != [] && s.inHand.value == s.shipped[|s.shipped| - 1]
    ensures var t := Next(s, Ship(result));
            && t.shipped == s.shipped && t.queue == s.queue && InHand(t) == 0
            && Finished(t) == s.shipped == Finished(s) + [s.inHand.value]
  {
    SplitLast(s.shipped);
  }

  lemma SplitLast(lines: seq<string>)
    requires lines != []
    ensures lines == lines[..|lines| - 1] + [lines[|lines| - 1]] && lines[..|lines|] == lines
  {
  }

  /** In every interleaving of one session every sample polled is accounted for exactly once:
      in the log, failed, dropped, buffered, or in the shipper's hand. The log is a prefix of
      what was shipped, so once a line is missing from it no later line is in it, and at most
      one line is lost to a failing flush. */
  lemma {:induction false} SessionConserves(capacity: nat, steps: seq<Step>)
    requires Run(Initial(capacity), steps).Some?
    ensures var s := Run(Initial(capacity), steps).value;
            Inv(s)
  {
    if steps == [] {
      EmptyInOrder<string>([]);
      assert Initial(capacity).shipped + Initial(capacity).queue == [];
    } else {
      var n := |steps| - 1;
      SessionConserves(capacity, steps[..n]);
      StepKeepsInv(Run(Initial(capacity), steps[..n]).value, steps[n]);
    }
  }

  /** The log never reorders or invents a sample. */
  lemma LogIsInOrder(s: Session)
    requires Inv(s)
    ensures InOrder(s.log, s.polled)
  {
    var rest := s.shipped[|s.log|..] + s.queue;
    assert s.shipped + s.queue == s.log + rest;
    InOrderPrefix(s.log, rest, s.polled);
  }

  /** When the shipper has exited the books are closed: nothing is left in the buffer, and
      every sample is in the log, failed or dropped. Without a sink all were dropped; with a
      writer that never failed and no drops the log is exactly what was polled. */
  lemma ShipperExitSettles(capacity: nat, steps: seq<Step>)
    requires Run(Initial(capacity), steps).Some?
    requires !Run(Initial(capacity), steps).value.shipping
    ensures var s := Run(Initial(capacity), steps).value;
            && s.queue == [] && s.inHand.None?
            && |s.polled| == |s.log| + s.writeFailed + s.flushFailed + s.dropped
            && (s.sink.NoSink? ==> s.dropped == |s.polled|)
            && (s.sink == Writer(false) && s.dropped == 0 ==> s.log == s.polled)
            && forall line :: !Enabled(s, Poll(line))
  {
    SessionConserves(capacity, steps);
    var s := Run(Initial(capacity), steps).value;
    LogIsInOrder(s);
    if s.sink == Writer(false) && s.dropped == 0 {
      FullSelection(s.log, s.polled);
    }
  }

  // ----- Every field, from the steps -------------------------------------------------------

  /** What the steps so far come to: the samples polled, those among them that met a channel with
      room, how many the shipper took and finished with, how many of these went well before the
      first that did not, and how that one failed. */
  datatype Ledger = Ledger(
    polled: seq<string>,
    accepted: seq<string>,
    takes: nat,
    ships: nat,
    healthy: nat,
    failure: Option<WriteResult>)

  function Booked(capacity: nat, b: Ledger, step: Step): Ledger {
    match step
    case Poll(line) =>
      b.(polled := b.polled + [line],
         accepted := if |b.accepted| < capacity + b.takes then b.accepted + [line] else b.accepted)
    case Take => b.(takes := b.takes + 1)
    case Ship(result) =>
      var c := b.(ships := b.ships + 1);
      if b.failure.Some? then c
      else if result.Written? then c.(healthy := b.healthy + 1)
      else c.(failure := Some(result))
    case _ => b
  }

  function Book(capacity: nat, steps: seq<Step>): Ledger {
    if steps == [] then Ledger([], [], 0, 0, 0, None)
    else Booked(capacity, Book(capacity, steps[..|steps| - 1]), steps[|steps| - 1])
  }

  /** The channel and the shipper's hand. */
  ghost predicate Queued(s: Session, b: Ledger) {
    && s.polled == b.polled
    && s.shipped + s.queue == b.accepted
    && |s.shipped| == b.takes
    && b.takes == b.ships + InHand(s)
    && (s.inHand.Some? ==> s.inHand.value == s.shipped[b.ships])
  }

  /** What became of the lines handed over. Without a sink every one was dropped. With one, the
      lines before the first that failed are in the log, that one is lost as a failed write or
      a failed flush, and every later one as a failed write. What is dropped besides is what
      the poller found no room for. */
  ghost predicate Settled(s: Session, b: Ledger) {
    && b.healthy <= b.ships <= |s.shipped|
    && s.flushFailed == (if s.sink.Writer? && b.failure == Some(FlushFailed) then 1 else 0)
    && (if s.sink.Writer? then
          && s.log == s.shipped[..b.healthy]
          && s.writeFailed + s.flushFailed == b.ships - b.healthy
          && s.sink.broken == b.failure.Some?
        else s.log == [] && s.writeFailed == 0)
    && s.dropped + |b.accepted| == |b.polled| + (if s.sink.Writer? then 0 else b.ships)
  }

  /** The ledger itself: nothing is lost before the first failure. */
  predicate Sensible(s: Session, b: Ledger) {
    && (b.failure.None? ==> b.healthy == b.ships)
    && (b.failure.Some? ==> b.healthy < b.ships && !b.failure.value.Written?)
    && (s.sink.Opening? ==> b.ships == b.takes == 0)
  }

  lemma PollKeepsQueued(s: Session, b: Ledger, line: string)
    requires Queued(s, b) && s.polling
    ensures Queued(Next(s, Poll(line)), Booked(s.capacity, b, Poll(line)))
  {
    QueuedAppend(s.shipped, s.queue, line);
    assert |b.accepted| < s.capacity + b.takes <==> |s.queue| < s.capacity;
  }

  lemma QueuedAppend(a: seq<string>, b: seq<string>, line: string)
    ensures a + (b + [line]) == a + b + [line]
  {
  }

  lemma PollKeepsSettled(s: Session, b: Ledger, line: string)
    requires Settled(s, b) && s.polling && (|b.accepted| < s.capacity + b.takes <==> |s.queue| < s.capacity)
    ensures Settled(Next(s, Poll(line)), Booked(s.capacity, b, Poll(line)))
  {
  }

  lemma TakeKeepsBooks(s: Session, b: Ledger)
    requires Queued(s, b) && Settled(s, b) && Enabled(s, Take)
    ensures var t, c := Next(s, Take), Booked(s.capacity, b, Take);
            Queued(t, c) && Settled(t, c)
  {
    assert s.shipped + [s.queue[0]] + s.queue[1..] == s.shipped + s.queue;
    assert (s.shipped + [s.queue[0]])[..b.healthy] == s.shipped[..b.healthy];
  }

  lemma StepKeepsSensible(s: Session, b: Ledger, step: Step)
    requires Sensible(s, b) && Enabled(s, step) && b.takes == b.ships + InHand(s)
    ensures Sensible(Next(s, step), Booked(s.capacity, b, step))
  {
  }

  lemma ShipKeepsBooks(s: Session, b: Ledger, result: WriteResult)
    requires Queued(s, b) && Settled(s, b) && Sensible(s, b) && Enabled(s, Ship(result))
    ensures var t, c := Next(s, Ship(result)), Booked(s.capacity, b, Ship(result));
            Queued(t, c) && Settled(t, c)
  {
    assert s.shipped[..b.ships + 1] == s.shipped[..b.ships] + [s.inHand.value];
  }

  lemma OpenKeepsBooks(s: Session, b: Ledger, ok: bool)
    requires Queued(s, b) && Settled(s, b) && Sensible(s, b) && Enabled(s, OpenSink(ok))
    ensures var t, c := Next(s, OpenSink(ok)), Booked(s.capacity, b, OpenSink(ok));
            Queued(t, c) && Settled(t, c)
  {
  }

  lemma StepKeepsCapacity(s: Session, step: Step)
    requires Enabled(s, step)
    ensures Next(s, step).capacity == s.capacity
  {
  }

  ghost predicate Explained(s: Session, b: Ledger) {
    Queued(s, b) && Settled(s, b) && Sensible(s, b)
  }

  lemma StepKeepsExplained(s: Session, b: Ledger, step: Step)
    requires Explained(s, b) && Enabled(s, step)
    ensures Explained(Next(s, step), Booked(s.capacity, b, step))
  {
    StepKeepsSensible(s, b, step);
    match step
    case Poll(line) =>
      PollKeepsQueued(s, b, line);
      PollKeepsSettled(s, b, line);
    case Take => TakeKeepsBooks(s, b);
    case Ship(result) => ShipKeepsBooks(s, b, result);
    case OpenSink(ok) => OpenKeepsBooks(s, b, ok);
    case _ =>
  }

  lemma InitiallyExplained(capacity: nat)
    ensures Explained(Initial(capacity), Book(capacity, []))
  {
  }

  /** Every field of a session is determined by the steps taken: a sample is dropped by the
      poller exactly if the channel was at its bound, and what became of every other one
      follows from the sink and the first line that was not written. */
  lemma {:induction false} SessionExactly(capacity: nat, steps: seq<Step>)
    requires Run(Initial(capacity), steps).Some?
    ensures var s := Run(Initial(capacity), steps).value;
            s.capacity == capacity && Explained(s, Book(capacity, steps))
  {
    if steps == [] {
      InitiallyExplained(capacity);
    } else {
      var n := |steps| - 1;
      var mid := Run(Initial(capacity), steps[..n]).value;
      SessionExactly(capacity, steps[..n]);
      StepKeepsExplained(mid, Book(capacity, steps[..n]), steps[n]);
      StepKeepsCapacity(mid, steps[n]);
    }
  }

  /** The polls at whose moment the channel was at its bound. */
  function Overflows(capacity: nat, steps: seq<Step>): nat {
    if steps == [] then 0
    else
      var n := |steps| - 1;
      var before := Run(Initial(capacity), steps[..n]);
      Overflows(capacity, steps[..n])
      + (if steps[n].Poll? && before.Some? && |before.value.queue| == capacity then 1 else 0)
  }

  /** The lines handed to the shipper while it had no sink. */
  function Sinkless(capacity: nat, steps: seq<Step>): nat {
    if steps == [] then 0
    else
      var n := |steps| - 1;
      var before := Run(Initial(capacity), steps[..n]);
      Sinkless(capacity, steps[..n])
      + (if steps[n].Ship? && before.Some? && before.value.sink.NoSink? then 1 else 0)
  }

  lemma StepDrops(s: Session, step: Step)
    requires Enabled(s, step) && |s.queue| <= s.capacity
    ensures var t := Next(s, step);
            && t.capacity == s.capacity && |t.queue| <= t.capacity
            && t.dropped == s.dropped
               + if (step.Poll? && |s.queue| == s.capacity) || (step.Ship? && s.sink.NoSink?) then 1 else 0
  {
  }

  /** A sample is dropped when the channel is full or there is no sink, and at no other time. */
  lemma {:induction false} DropsOnlyWhenFull(capacity: nat, steps: seq<Step>)
    requires Run(Initial(capacity), steps).Some?
    ensures var s := Run(Initial(capacity), steps).value;
            && s.capacity == capacity && |s.queue| <= capacity
            && s.dropped == Overflows(capacity, steps) + Sinkless(capacity, steps)
  {
    if steps != [] {
      var n := |steps| - 1;
      DropsOnlyWhenFull(capacity, steps[..n]);
      StepDrops(Run(Initial(capacity), steps[..n]).value, steps[n]);
    }
  }

  // ----- The life of the two goroutines -----------------------------------------------------

  predicate LifeIs(s: Session, stopRequested: bool, pollerLeft: bool, shipperLeft: bool, hasSink: bool, noSink: bool) {
    && s.stopping == stopRequested && s.polling == !pollerLeft && s.closed == pollerLeft
    && s.shipping == !shipperLeft
    && s.sink.Writer? == hasSink && s.sink.NoSink? == noSink && !(hasSink && noSink)
  }

  lemma StepChangesLife(s: Session, step: Step)
    requires Enabled(s, step)
    requires LifeIs(s, s.stopping, !s.polling, !s.shipping, s.sink.Writer?, s.sink.NoSink?)
    ensures LifeIs(Next(s, step), s.stopping || step == RequestStop, !s.polling || step == LeavePoller,
                   !s.shipping || step == LeaveShipper,
                   s.sink.Writer? || step == OpenSink(true), s.sink.NoSink? || step == OpenSink(false))
  {
  }

  /** Stop, exits, close and sink, from the steps. */
  lemma {:induction false} LifeExactly(capacity: nat, steps: seq<Step>)
    requires Run(Initial(capacity), steps).Some?
    ensures LifeIs(Run(Initial(capacity), steps).value, RequestStop in steps, LeavePoller in steps,
                   LeaveShipper in steps, OpenSink(true) in steps, OpenSink(false) in steps)
  {
    if steps != [] {
      var n := |steps| - 1;
      LifeExactly(capacity, steps[..n]);
      StepChangesLife(Run(Initial(capacity), steps[..n]).value, steps[n]);
      assert steps == steps[..n] + [steps[n]];
      InExtended(steps[..n], steps[n], RequestStop);
      InExtended(steps[..n], steps[n], LeavePoller);
      InExtended(steps[..n], steps[n], LeaveShipper);
      InExtended(steps[..n], steps[n], OpenSink(true));
      InExtended(steps[..n], steps[n], OpenSink(false));
    }
  }

  lemma RunExtends(s: Session, steps: seq<Step>, next: Step)
    requires Run(s, steps).Some?
    ensures var t := Run(s, steps).value;
            Run(s, steps + [next]) == if Enabled(t, next) then Some(Next(t, next)) else None
  {
    assert (steps + [next])[..|steps|] == steps;
  }

  /** The poller is never blocked, by the channel or by the sink, and can exit exactly from when
      a stop was requested. */
  lemma PollerNeverBlocks(capacity: nat, steps: seq<Step>, line: string)
    requires Run(Initial(capacity), steps).Some?
    ensures Run(Initial(capacity), steps + [Poll(line)]).Some? <==> LeavePoller !in steps
    ensures Run(Initial(capacity), steps + [LeavePoller]).Some? <==> LeavePoller !in steps && RequestStop in steps
  {
    LifeExactly(capacity, steps);
    RunExtends(Initial(capacity), steps, Poll(line));
    RunExtends(Initial(capacity), steps, LeavePoller);
  }

  /** The shipper has tried its sink and not exited. */
  ghost predicate Ready(steps: seq<Step>) {
    LeaveShipper !in steps && (OpenSink(true) in steps || OpenSink(false) in steps)
  }

  /** A shipper that has tried its sink goes on with whatever is queued, also after the close,
      and exits exactly when the channel is closed and empty. */
  lemma ShipperGoesOn(capacity: nat, steps: seq<Step>)
    requires Run(Initial(capacity), steps).Some?
    ensures var s := Run(Initial(capacity), steps).value;
            && (Run(Initial(capacity), steps + [Take]).Some? <==> Ready(steps) && s.queue != [] && s.inHand.None?)
            && (Run(Initial(capacity), steps + [LeaveShipper]).Some?
                <==> Ready(steps) && s.queue == [] && s.inHand.None? && LeavePoller in steps)
  {
    LifeExactly(capacity, steps);
    RunExtends(Initial(capacity), steps, Take);
    RunExtends(Initial(capacity), steps, LeaveShipper);
  }

  /** What it has in hand it can always hand over, whatever the writer makes of it. */
  lemma ShipperHandsOver(capacity: nat, steps: seq<Step>, result: WriteResult)
    requires Run(Initial(capacity), steps).Some?
    ensures Run(Initial(capacity), steps + [Ship(result)]).Some?
            <==> Run(Initial(capacity), steps).value.inHand.Some?
  {
    SessionConserves(capacity, steps);
    RunExtends(Initial(capacity), steps, Ship(result));
  }

  /** The pool manager's fields that the pipeline uses, with both goroutines' steps. */
  class PoolManager {
    const statsCh: Channel<string>
    var droppedStats: nat
    var statsDone: bool
    var polling: bool
    var shipping: bool
    var sink: Sink
    var inHand: Option<string>
    var statsLog: seq<string>
    ghost var writeFailed: nat
    ghost var flushFailed: nat
    ghost var polled: seq<string>
    ghost var shipped: seq<string>

    ghost function View(): Session
      reads this, statsCh
    {
      Session(statsCh.capacity, polling, statsDone, statsCh.closed, statsCh.queue, shipping, sink, inHand,
              statsLog, writeFailed, flushFailed, droppedStats, polled, shipped)
    }

    ghost predicate Valid()
      reads this, statsCh
    {
      statsCh.closed ==> !polling
    }

    /** startStatsPipeline. */
    constructor (bufferSize: nat)
      ensures Valid() && View() == Initial(bufferSize) && fresh(statsCh)
    {
      statsCh := new Channel<string>(bufferSize);
      droppedStats, statsDone := 0, false;
      polling, shipping, sink, inHand := true, true, Opening, None;
      statsLog, writeFailed, flushFailed, polled, shipped := [], 0, 0, [], [];
    }

    /** The poller's ticker branch after a successful query. */
    method PollSample(line: string)
      requires Valid() && Enabled(View(), Poll(line))
      modifies this, statsCh
      ensures Valid() && View() == Next(old(View()), Poll(line))
    {
      var sent := statsCh.TrySend(line);
      if !sent {
        droppedStats := droppedStats + 1;
      }
      polled := polled + [line];
    }

    /** stopStatsPipeline up to the wait. */
    method BeginStop()
      requires Valid() && Enabled(View(), RequestStop)
      modifies this
      ensures Valid() && View() == Next(old(View()), RequestStop)
    {
      statsDone := true;
    }

    /** The poller's done branch. */
    method PollerExit()
      requires Valid() && Enabled(View(), LeavePoller)
      modifies this, statsCh
      ensures Valid() && View() == Next(old(View()), LeavePoller)
    {
      statsCh.Close();
      polling := false;
    }

    method OpenLog(ok: bool)
      requires Valid() && Enabled(View(), OpenSink(ok))
      modifies this
      ensures Valid() && View() == Next(old(View()), OpenSink(ok))
    {
      if ok {
        sink := Writer(false);
      } else {
        sink := NoSink;
      }
    }

    /** The shipper's range over the channel. */
    method TakeSample()
      requires Valid() && Enabled(View(), Take)
      modifies this, statsCh
      ensures Valid() && View() == Next(old(View()), Take)
    {
      var line := statsCh.Receive();
      inHand := Some(line);
      shipped := shipped + [line];
    }

    /** WriteString and Flush on the buffered writer. */
    method WriteLine(line: string, result: WriteResult)
      requires sink.Writer?
      modifies this
      ensures View() == Shipped(old(View()), line, result)
    {
      if sink.broken || result.WriteFailed? {
        sink := Writer(true);
        writeFailed := writeFailed + 1;
      } else if result.FlushFailed? {
        sink := Writer(true);
        flushFailed := flushFailed + 1;
      } else {
        statsLog := statsLog + [line];
      }
    }

    /** The body of either of the shipper's loops. */
    method ShipSample(result: WriteResult)
      requires Valid() && Enabled(View(), Ship(result))
      modifies this
      ensures Valid() && View() == Next(old(View()), Ship(result))
    {
      var line := inHand.value;
      inHand := None;
      if sink.Writer? {
        WriteLine(line, result);
      } else if sink.NoSink? {
        droppedStats := droppedStats + 1;
      }
    }

    method ShipperExit()
      requires Valid() && Enabled(View(), LeaveShipper)
      modifies this
      ensures Valid() && View() == Next(old(View()), LeaveShipper)
    {
      shipping := false;
    }
  }
}
