/** What a receiver process is bound to do: the forwarder takes what waits and flushes it, and
    the reader drops a good packet only for lack of room. */
module ReceiverProgress {
  import opened Basics
  import opened Receiving
  import opened ReceiverSafety

  // ----- turns of the forwarder

  /** The state after a turn of the forwarder. */
  function Turned<O>(c: Config, s: State<O>, tick: bool, ok: bool): State<O> {
    var e := Due(s, tick, ok);
    if e.Some? then Step(c, s, e.value) else s
  }

  /** A turn without a tick takes the first packet of the queue into the batch. */
  lemma TakesWhatWaits<O>(c: Config, s: State<O>, ok: bool)
    requires s.forwarder.Collecting? && s.queue != []
    ensures var t := Turned(c, s, false, ok);
            && t.queue == s.queue[1..]
            && (t.forwarder.Collecting? || t.forwarder.Sending?)
            && t.forwarder.batch == s.forwarder.batch + [s.queue[0]]
            && (t.forwarder.Sending? <==> |s.forwarder.batch| + 1 >= c.batchSize)
  {
  }

  /** A tick sends off what has been collected, and leaves an empty batch alone. */
  lemma TickSendsOff<O>(c: Config, s: State<O>, ok: bool)
    requires s.forwarder.Collecting?
    ensures var t := Turned(c, s, true, ok);
            && t.queue == s.queue
            && t.forwarder == if s.forwarder.batch == [] then s.forwarder else Sending(s.forwarder.batch)
  {
  }

  /** A batch being sent or put back is never more done than it is long. */
  predicate Orderly<O>(s: State<O>) {
    s.forwarder.Counting? || s.forwarder.Releasing? ==> s.forwarder.done <= |s.forwarder.batch|
  }

  /** A bound on the turns the forwarder needs for everything that waits. */
  function Work<O>(s: State<O>): int {
    7 * |s.queue|
    + match s.forwarder
      case Collecting(batch) => 6 * |batch| + 1
      case Sending(batch) => 2 * |batch| + 4
      case Counting(batch, done) => 2 * |batch| - done + 3
      case Releasing(batch, done) => |batch| - done + 2
      case Stopped => 0
  }

  /** A turn never adds work, and one without a tick gets some done, unless the forwarder has
      stopped or waits with nothing in the queue, which is not closed. */
  lemma TurnWorks<O>(c: Config, s: State<O>, tick: bool, ok: bool)
    requires Orderly(s)
    ensures var t := Turned(c, s, tick, ok);
            && Orderly(t) && t.closed == s.closed && 0 <= Work(t) <= Work(s)
            && (Work(t) == Work(s) ==>
                  tick || s.forwarder.Stopped? || (s.forwarder.Collecting? && s.queue == [] && !s.closed))
  {
    match s.forwarder
    case Collecting(_) => CollectingWorks(c, s, tick, ok);
    case Sending(_) =>
    case Counting(_, _) =>
    case Releasing(_, _) =>
    case Stopped =>
  }

  lemma CollectingWorks<O>(c: Config, s: State<O>, tick: bool, ok: bool)
    requires s.forwarder.Collecting?
    ensures var t := Turned(c, s, tick, ok);
            && Orderly(t) && t.closed == s.closed && 0 <= Work(t) <= Work(s)
            && (Work(t) == Work(s) ==> tick || (s.queue == [] && !s.closed))
  {
  }

  /** Several turns, each with what the ticker and the session manager do. */
  function Turns<O>(c: Config, s: State<O>, turns: seq<(bool, bool)>): State<O>
    decreases |turns|
  {
    if turns == [] then s else Turns(c, Turned(c, s, turns[0].0, turns[0].1), turns[1..])
  }

  /** The forwarder stops only when nothing waits, and then stays where it is. */
  lemma StopsEmpty<O>(c: Config, s: State<O>, tick: bool, ok: bool)
    requires s.forwarder.Stopped? ==> s.queue == []
    ensures var t := Turned(c, s, tick, ok);
            (t.forwarder.Stopped? ==> t.queue == []) && (s.forwarder.Stopped? ==> t == s)
  {
  }

  function WithoutTick(turns: seq<(bool, bool)>): nat {
    if turns == [] then 0 else (if turns[0].0 then 0 else 1) + WithoutTick(turns[1..])
  }

  /** Once the queue is closed, as many turns without a tick as there is work, among any number
      of ticks, stop the forwarder; and then nothing waits any more. */
  lemma {:induction false} ClosedStops<O>(c: Config, s: State<O>, turns: seq<(bool, bool)>)
    requires Orderly(s) && s.closed && WithoutTick(turns) >= Work(s)
    requires s.forwarder.Stopped? ==> s.queue == []
    ensures var t := Turns(c, s, turns);
            t.forwarder.Stopped? && t.queue == []
    decreases |turns|
  {
    if turns == [] {
      assert s.forwarder.Stopped?;
    } else {
      var t := Turned(c, s, turns[0].0, turns[0].1);
      TurnWorks(c, s, turns[0].0, turns[0].1);
      StopsEmpty(c, s, turns[0].0, turns[0].1);
      ClosedStops(c, t, turns[1..]);
    }
  }

  /** While it is open and no tick comes, as many turns as there is work empty the queue. */
  lemma {:induction false} OpenEmpties<O>(c: Config, s: State<O>, turns: seq<(bool, bool)>)
    requires Orderly(s) && !s.closed && !s.forwarder.Stopped?
    requires |turns| >= Work(s) && WithoutTick(turns) == |turns|
    ensures var t := Turns(c, s, turns);
            t.forwarder.Collecting? && t.queue == []
    decreases |turns|
  {
    if turns == [] {
    } else {
      var t := Turned(c, s, turns[0].0, turns[0].1);
      TickCount(turns[1..]);
      TurnWorks(c, s, turns[0].0, turns[0].1);
      if Work(t) < Work(s) {
        OpenEmpties(c, t, turns[1..]);
      } else {
        Waits(c, s, turns);
      }
    }
  }

  lemma TickCount(turns: seq<(bool, bool)>)
    ensures WithoutTick(turns) <= |turns|
  {
  }

  lemma {:induction false} Waits<O>(c: Config, s: State<O>, turns: seq<(bool, bool)>)
    requires s.forwarder.Collecting? && s.queue == [] && !s.closed && WithoutTick(turns) == |turns|
    ensures Turns(c, s, turns) == s
    decreases |turns|
  {
    if turns == [] {
    } else {
      TickCount(turns[1..]);
      Waits(c, s, turns[1..]);
    }
  }

  // ----- as runs

  /** Turns of the forwarder extend a run, and accept nothing. */
  lemma {:induction false} TurnsAreRun<O(!new)>(c: Config, events: seq<Event<O>>, turns: seq<(bool, bool)>)
      returns (longer: seq<Event<O>>)
    requires Possible(c, Start<O>(), events)
    ensures Possible(c, Start<O>(), longer)
    ensures var y, z := Run(c, Start<O>(), events), Run(c, Start<O>(), longer);
            z.s == Turns(c, y.s, turns) && z.accepted == y.accepted && z.read == y.read
    decreases |turns|
  {
    longer := events;
    if turns == [] {
    } else {
      var e := Due(Run(c, Start<O>(), events).s, turns[0].0, turns[0].1);
      if e.Some? {
        RunSnoc(c, Start<O>(), events, e.value);
        longer := TurnsAreRun(c, events + [e.value], turns[1..]);
      } else {
        longer := TurnsAreRun(c, events, turns[1..]);
      }
    }
  }

  /** Closing loses nothing that was accepted: however far the run had come when the queue was
      closed, enough turns of the forwarder stop it with every accepted packet flushed. */
  lemma ShutdownFlushesAll<O(!new)>(c: Config, events: seq<Event<O>>, turns: seq<(bool, bool)>)
      returns (longer: seq<Event<O>>)
    requires Possible(c, Start<O>(), events)
    requires var s := Run(c, Start<O>(), events).s;
             s.closed && WithoutTick(turns) >= Work(s)
    ensures Possible(c, Start<O>(), longer)
    ensures var y, z := Run(c, Start<O>(), events), Run(c, Start<O>(), longer);
            z.s == Turns(c, y.s, turns) && z.s.forwarder.Stopped? && Concat(z.flushed) == y.accepted
  {
    var y := Run(c, Start<O>(), events);
    StartInv<O>(c);
    RunInv(c, Start<O>(), events);
    ClosedStops(c, y.s, turns);
    longer := TurnsAreRun(c, events, turns);
    StoppedDrained(c, longer);
  }

  // ----- full batches

  /** Every batch so far was sent off because it was full. */
  ghost predicate AllFull<O>(c: Config, y: System<O>) {
    && (forall i :: 0 <= i < |y.flushed| ==> |y.flushed[i]| == BatchLimit(c))
    && (y.s.forwarder.Sending? ==> |y.s.forwarder.batch| == BatchLimit(c))
  }

  lemma {:induction false} RunFull<O(!new)>(c: Config, y: System<O>, events: seq<Event<O>>)
    requires Possible(c, y, events) && Bounded(c, y) && AllFull(c, y)
    requires forall e :: e in events ==> !e.Tick? && !e.Drained?
    ensures AllFull(c, Run(c, y, events))
    decreases |events|
  {
    if events == [] {
    } else {
      var e := events[0];
      assert e in events;
      StepBounded(c, y, e);
      StepFull(c, y, e);
      assert forall x :: x in events[1..] ==> x in events;
      RunFull(c, Next(c, y, e), events[1..]);
    }
  }

  lemma StepFull<O(!new)>(c: Config, y: System<O>, e: Event<O>)
    requires Enabled(c, y.s, e) && Bounded(c, y) && AllFull(c, y) && !e.Tick? && !e.Drained?
    ensures AllFull(c, Next(c, y, e))
  {
  }

  /** Only the ticker and the end of the queue send a batch off before it is full: in every
      interleaving without them each batch has exactly the size asked for. */
  lemma OnlyFullBatches<O(!new)>(c: Config, events: seq<Event<O>>)
    requires Possible(c, Start<O>(), events) && forall e :: e in events ==> !e.Tick? && !e.Drained?
    ensures var y := Run(c, Start<O>(), events);
            forall i :: 0 <= i < |y.flushed| ==> |y.flushed[i]| == BatchLimit(c)
  {
    StartInv<O>(c);
    RunFull(c, Start<O>(), events);
  }

  // ----- room in the queue

  /** How many good packets met a full queue. */
  ghost function MetFull<O>(c: Config, y: System<O>, events: seq<Event<O>>): nat
    requires Possible(c, y, events)
    decreases |events|
  {
    if events == [] then 0
    else
      (if events[0].Offer? && |y.s.queue| >= c.queueDepth then 1 else 0) + MetFull(c, Next(c, y, events[0]), events[1..])
  }

  lemma {:induction false} RunDrops<O(!new)>(c: Config, y: System<O>, events: seq<Event<O>>)
    requires Possible(c, y, events)
    ensures Run(c, y, events).s.counters.intakeDropped == y.s.counters.intakeDropped + MetFull(c, y, events)
    decreases |events|
  {
    if events == [] {
    } else {
      StepDrops(c, y, events[0]);
      RunDrops(c, Next(c, y, events[0]), events[1..]);
    }
  }

  lemma StepDrops<O(!new)>(c: Config, y: System<O>, e: Event<O>)
    requires Enabled(c, y.s, e)
    ensures Next(c, y, e).s.counters.intakeDropped ==
            y.s.counters.intakeDropped + if e.Offer? && |y.s.queue| >= c.queueDepth then 1 else 0
  {
  }

  /** A good packet is dropped exactly when it meets a full queue. */
  lemma DroppedOnlyWhenFull<O(!new)>(c: Config, events: seq<Event<O>>)
    requires Possible(c, Start<O>(), events)
    ensures Run(c, Start<O>(), events).s.counters.intakeDropped == MetFull(c, Start<O>(), events)
  {
    RunDrops(c, Start<O>(), events);
  }

  // ----- what goes back to the pool

  /** Every pooled packet, and one on its way back, is blank. */
  ghost predicate CleanPool<O>(s: State<O>) {
    && (forall o :: o in s.pool ==> Look(s.heap, o) == BLANK)
    && (s.reader.Discarding? ==> Look(s.heap, s.reader.o) == BLANK)
  }

  /** The datagram fits, but is undecodable or damaged. */
  predicate Spoiled(c: Config, d: Bytes) {
    |d| <= 2048 && !Judge(c, d).Good?
  }

  /** The reader writes only to the packet in its hand, which is not in the pool. */
  lemma StepClean<O(!new)>(c: Config, s: State<O>, e: Event<O>)
    requires Enabled(c, s, e) && CleanPool(s)
    requires e.Decode? ==> Judge(c, s.reader.datagram).Good?
    requires s.reader.Decoding? || s.reader.Checked? ==> s.reader.o !in s.pool
    requires forall o :: o in s.pool ==> o !in InBatch(s.forwarder)
    ensures CleanPool(Step(c, s, e))
  {
  }

  lemma HandNotPooled<O(!new)>(s: State<O>)
    requires Owned(s)
    ensures s.reader.Decoding? || s.reader.Checked? ==> s.reader.o !in s.pool
    ensures forall o :: o in s.pool ==> o !in InBatch(s.forwarder)
  {
    if s.reader.Decoding? || s.reader.Checked? {
      assert s.reader.o == Places(s)[0];
    }
  }

  lemma NextClean<O(!new)>(c: Config, y: System<O>, e: Event<O>)
    requires Enabled(c, y.s, e) && Owned(y.s) && TrueHand(c, y) && CleanPool(y.s)
    requires forall d :: d in y.read ==> !Spoiled(c, d)
    ensures CleanPool(Next(c, y, e).s)
  {
    HandNotPooled(y.s);
    if e.Decode? {
      assert InHand(y.s.reader) == 1;
      assert y.s.reader.datagram == y.read[|y.read| - 1];
      assert !Spoiled(c, y.s.reader.datagram);
    }
    StepClean(c, y.s, e);
    assert Next(c, y, e).s == Step(c, y.s, e);
  }

  /** What has been read stays read. */
  lemma {:induction false} ReadGrows<O(!new)>(c: Config, y: System<O>, events: seq<Event<O>>)
    requires Possible(c, y, events)
    ensures y.read <= Run(c, y, events).read
    decreases |events|
  {
    if events == [] {
    } else {
      ReadGrows(c, Next(c, y, events[0]), events[1..]);
    }
  }

  lemma {:induction false} RunClean<O(!new)>(c: Config, y: System<O>, events: seq<Event<O>>)
    requires Possible(c, y, events) && Inv(c, y) && CleanPool(y.s)
    requires forall d :: d in Run(c, y, events).read ==> !Spoiled(c, d)
    ensures CleanPool(Run(c, y, events).s)
    decreases |events|
  {
    if events == [] {
    } else {
      var e := events[0];
      ReadGrows(c, y, events);
      NextClean(c, y, e);
      StepInv(c, y, e);
      RunClean(c, Next(c, y, e), events[1..]);
    }
  }

  /** Sent, lost and surplus packets all go back blank: as long as no datagram was undecodable or
      damaged, the pool holds nothing but blank packets. */
  lemma PoolStaysClean<O(!new)>(c: Config, events: seq<Event<O>>)
    requires Possible(c, Start<O>(), events)
    requires forall d :: d in Run(c, Start<O>(), events).read ==> !Spoiled(c, d)
    ensures forall o :: o in Run(c, Start<O>(), events).s.pool ==> Look(Run(c, Start<O>(), events).s.heap, o) == BLANK
  {
    StartInv<O>(c);
    RunClean(c, Start<O>(), events);
  }
}
