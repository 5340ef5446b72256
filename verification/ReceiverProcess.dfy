/** The receiver process with packet objects that are really shared and overwritten: the same
    object is decoded into, queued, sent, reset and used again. */
module ReceiverProcess {
  import opened Basics
  import opened Receiving
  import opened ReceiverSafety

  class PacketObject {
    ghost const id: nat
    var message: Message

    constructor (ghost id: nat)
      ensures this.id == id && message == BLANK
    {
      this.id := id;
      message := BLANK;
    }
  }

  ghost function Ids(list: seq<PacketObject>): seq<nat> {
    seq(|list|, i requires 0 <= i < |list| => list[i].id)
  }

  ghost function IdSet(objects: set<PacketObject>): set<nat> {
    set o | o in objects :: o.id
  }

  ghost function ReaderIds(r: Reader<PacketObject>): Reader<nat> {
    match r
    case Ready => Ready
    case Read(d) => Read(d)
    case Decoding(d, o) => Decoding(d, o.id)
    case Checked(o) => Checked(o.id)
    case Discarding(o) => Discarding(o.id)
    case Finished => Finished
  }

  ghost function ForwarderIds(f: Forwarder<PacketObject>): Forwarder<nat> {
    match f
    case Collecting(batch) => Collecting(Ids(batch))
    case Sending(batch) => Sending(Ids(batch))
    case Counting(batch, done) => Counting(Ids(batch), done)
    case Releasing(batch, done) => Releasing(Ids(batch), done)
    case Stopped => Stopped
  }

  class Process {
    const config: Config
    var pool: set<PacketObject>
    var queue: seq<PacketObject>
    var closed: bool
    var counters: Counters
    var reader: Reader<PacketObject>
    var forwarder: Forwarder<PacketObject>
    /** Every packet object allocated so far, by number. */
    ghost var objects: seq<PacketObject>

    ghost predicate Known(o: PacketObject)
      reads this
    {
      o.id < |objects| && objects[o.id] == o
    }

    ghost predicate Valid()
      reads this
    {
      && (forall i :: 0 <= i < |objects| ==> objects[i].id == i)
      && (forall o :: o in pool ==> Known(o))
      && (forall o :: o in queue ==> Known(o))
      && (forall o :: o in InReader(reader) ==> Known(o))
      && (!forwarder.Stopped? ==> forall o :: o in forwarder.batch ==> Known(o))
    }

    ghost function Heap(): map<nat, Message>
      reads this, objects
    {
      map i: nat | i < |objects| :: objects[i].message
    }

    ghost function View(): State<nat>
      reads this, objects
    {
      State(Heap(), IdSet(pool), Ids(queue), closed, ReaderIds(reader), ForwarderIds(forwarder), counters)
    }

    constructor (config: Config)
      ensures Valid() && this.config == config && objects == [] && View() == Start<nat>().s
    {
      this.config := config;
      pool, queue, closed, counters := {}, [], false, ZERO;
      reader, forwarder := Ready, Collecting([]);
      objects := [];
    }

    /** A packet from the pool, or a new one. */
    method TakeObject() returns (o: PacketObject)
      requires Valid()
      modifies this`pool, this`objects
      ensures Valid() && Known(o) && old(objects) <= objects && fresh(objects[|old(objects)|..])
      ensures o in objects && (o in old(objects) || fresh(o))
      ensures IdSet(pool) == old(IdSet(pool)) - {o.id}
      ensures o.id in old(IdSet(pool)) || o.id !in old(Heap())
      ensures Heap()[o.id := BLANK] == old(Heap())[o.id := BLANK]
    {
      if pool == {} {
        o := new PacketObject(|objects|);
        objects := objects + [o];
      } else {
        o :| o in pool;
        pool := pool - {o};
      }
    }

    method Overwrite(o: PacketObject, m: Message)
      requires Valid() && Known(o)
      modifies o`message
      ensures o in objects && Heap() == old(Heap())[o.id := m]
    {
      o.message := m;
    }

    // ----- the reader

    /** Counts and keeps the next datagram, or notices that the socket was closed. */
    method Listen(d: Bytes, more: bool) returns (ghost e: Event<nat>)
      requires Valid() && reader.Ready?
      modifies this`counters, this`reader
      ensures Valid() && e == if more then Receive(d) else StopReading
      ensures View() == Step(config, old(View()), e)
    {
      if more {
        e := Receive(d);
        counters := counters.(received := counters.received + 1);
        reader := Read(d);
      } else {
        e := StopReading;
        reader := Finished;
      }
    }

    method StartPacket() returns (ghost e: Event<nat>)
      requires Valid() && reader.Read? && |reader.datagram| <= MAX_DATAGRAM
      modifies this, objects
      ensures Valid() && old(objects) <= objects && fresh(objects[|old(objects)|..])
      ensures e.TakePacket? && Enabled(config, old(View()), e) && View() == Step(config, old(View()), e)
    {
      var o := TakeObject();
      Overwrite(o, BLANK);
      reader := Decoding(reader.datagram, o);
      e := TakePacket(o.id);
    }

    method DecodePacket() returns (ghost junk: Message)
      requires Valid() && reader.Decoding?
      modifies this, objects
      ensures Valid() && objects == old(objects)
      ensures View() == DecodeStep(config, old(View()), junk)
    {
      var left: Message := *;
      junk := left;
      var result := config.decode(reader.datagram);
      if result == None {
        Discard(left, counters.(malformed := counters.malformed + 1));
      } else if config.intact(result.value) {
        Keep(result.value);
      } else {
        Discard(result.value, counters.(crcDropped := counters.crcDropped + 1));
      }
    }

    /** The packet holds m and is on its way back to the pool; the drop is counted. */
    method Discard(m: Message, counted: Counters)
      requires Valid() && reader.Decoding?
      modifies this, objects
      ensures Valid() && objects == old(objects)
      ensures View() == old(View()).(heap := old(Heap())[old(reader.o.id) := m],
                                     reader := Discarding(old(reader.o.id)), counters := counted)
    {
      var o := reader.o;
      assert o in InReader(reader);
      Overwrite(o, m);
      counters := counted;
      reader := Discarding(o);
    }

    /** The packet holds m and is ready to be queued. */
    method Keep(m: Message)
      requires Valid() && reader.Decoding?
      modifies this, objects
      ensures Valid() && objects == old(objects)
      ensures View() == old(View()).(heap := old(Heap())[old(reader.o.id) := m], reader := Checked(old(reader.o.id)))
    {
      var o := reader.o;
      assert o in InReader(reader);
      Overwrite(o, m);
      reader := Checked(o);
    }

    method DropPacket()
      requires Valid() && reader.Checked? && |queue| >= config.queueDepth
      modifies this, objects
      ensures Valid() && objects == old(objects)
      ensures View() == OfferStep(config, old(View()))
    {
      var o := reader.o;
      assert o in InReader(reader);
      Overwrite(o, BLANK);
      counters := counters.(intakeDropped := counters.intakeDropped + 1);
      reader := Discarding(o);
    }

    method QueuePacket()
      requires Valid() && reader.Checked? && |queue| < config.queueDepth
      modifies this
      ensures Valid() && objects == old(objects)
      ensures View() == OfferStep(config, old(View()))
    {
      var o := reader.o;
      assert o in InReader(reader);
      assert Ids(queue + [o]) == Ids(queue) + [o.id];
      queue := queue + [o];
      reader := Ready;
    }

    method GiveBackPacket()
      requires Valid() && reader.Discarding?
      modifies this
      ensures Valid() && objects == old(objects)
      ensures View() == Step(config, old(View()), GiveBack)
    {
      var o := reader.o;
      assert o in InReader(reader);
      pool := pool + {o};
      reader := Ready;
    }

    // ----- the forwarder

    method FetchPacket()
      requires Valid() && forwarder.Collecting? && queue != []
      modifies this
      ensures Valid() && objects == old(objects) && queue == old(queue)[1..]
      ensures View() == FetchStep(config, old(View()))
    {
      var batch := forwarder.batch + [queue[0]];
      assert Ids(batch) == Ids(forwarder.batch) + [queue[0].id];
      assert Ids(queue[1..]) == Ids(queue)[1..];
      assert forall o :: o in queue[1..] || o == queue[0] ==> o in queue;
      queue := queue[1..];
      forwarder := if |batch| >= config.batchSize then Sending(batch) else Collecting(batch);
    }

    /** Marshals the batch as it stands and hands it to the session client. */
    method SendBatch(ok: bool) returns (payload: seq<Message>)
      requires Valid() && forwarder.Sending?
      modifies this
      ensures Valid() && objects == old(objects)
      ensures payload == Contents(old(Heap()), old(View()).forwarder.batch)
      ensures View() == Step(config, old(View()), Send(ok))
    {
      var batch := forwarder.batch;
      payload := [];
      for i := 0 to |batch|
        invariant payload == Contents(Heap(), Ids(batch)[..i])
      {
        assert batch[i] in batch && Known(batch[i]);
        payload := payload + [batch[i].message];
      }
      assert Ids(batch)[..|batch|] == Ids(batch);
      if ok {
        forwarder := Counting(batch, 0);
      } else {
        counters := counters.(ipcDropped := counters.ipcDropped + 1);
        forwarder := Releasing(batch, 0);
      }
    }

    method CountPacket()
      requires Valid() && forwarder.Counting?
      modifies this
      ensures Valid() && objects == old(objects)
      ensures View() == CountStep(old(View()))
    {
      if forwarder.done < |forwarder.batch| {
        counters := counters.(forwarded := counters.forwarded + 1);
        forwarder := Counting(forwarder.batch, forwarder.done + 1);
      } else {
        counters := counters.(batchesSent := counters.batchesSent + 1);
        forwarder := Releasing(forwarder.batch, 0);
      }
    }

    method ReleasePacket()
      requires Valid() && forwarder.Releasing? && forwarder.done < |forwarder.batch|
      modifies this, objects
      ensures Valid() && objects == old(objects)
      ensures View() == ReleaseStep(old(View()))
    {
      var o := forwarder.batch[forwarder.done];
      assert o in forwarder.batch && Known(o);
      assert Ids(forwarder.batch)[forwarder.done] == o.id && IdSet(pool + {o}) == IdSet(pool) + {o.id};
      Overwrite(o, BLANK);
      pool := pool + {o};
      forwarder := Releasing(forwarder.batch, forwarder.done + 1);
    }

    // ----- both

    /** The reader does what comes next: `more` says whether the socket has another datagram. */
    method ReaderTurn(d: Bytes, more: bool) returns (ghost e: Event<nat>)
      requires Valid()
      modifies this, objects
      ensures Valid() && old(objects) <= objects && fresh(objects[|old(objects)|..])
      ensures Enabled(config, old(View()), e) && View() == Step(config, old(View()), e)
      ensures Answers(d, more, e)
    {
      match reader {
        case Ready =>
          e := Listen(d, more);
        case Read(datagram) =>
          if |datagram| > MAX_DATAGRAM {
            e := RejectSize;
            counters := counters.(malformed := counters.malformed + 1);
            reader := Ready;
          } else {
            e := StartPacket();
          }
        case Decoding(_, _) =>
          ghost var junk := DecodePacket();
          e := Decode(junk);
        case Checked(_) =>
          e := Offer;
          if |queue| < config.queueDepth {
            QueuePacket();
          } else {
            DropPacket();
          }
        case Discarding(_) =>
          e := GiveBack;
          GiveBackPacket();
        case Finished =>
          e := Close;
          closed := true;
      }
    }

    /** A forwarder that is collecting looks at the ticker, the queue and its end. */
    method Collect(tick: bool)
      requires Valid() && forwarder.Collecting?
      modifies this
      ensures Valid() && objects == old(objects)
      ensures View() == Done(old(View()), Due(old(View()), tick, true))
      ensures !tick && old(queue) != [] ==> queue == old(queue)[1..]
      ensures tick && old(forwarder).batch != [] ==> forwarder == Sending(old(forwarder).batch)
    {
      if tick {
        forwarder := Flush(forwarder.batch, forwarder);
      } else if queue != [] {
        FetchPacket();
      } else if closed {
        forwarder := Flush(forwarder.batch, Stopped);
      }
    }

    ghost function Done(s: State<nat>, e: Option<Event<nat>>): State<nat>
      requires e.Some? ==> Enabled(config, s, e.value)
    {
      if e.Some? then Step(config, s, e.value) else s
    }

    /** The forwarder does what is due, or waits.  A step that sends yields the payload, which
        is the batch as it stands. */
    method ForwarderTurn(tick: bool, ok: bool) returns (payload: Option<seq<Message>>)
      requires Valid()
      modifies this, objects
      ensures Valid() && objects == old(objects)
      ensures View() == Done(old(View()), Due(old(View()), tick, ok))
      ensures payload == Payload(old(View()), Due(old(View()), tick, ok))
      ensures old(forwarder.Collecting?) && !tick && old(queue) != [] ==> queue == old(queue)[1..]
      ensures old(forwarder.Collecting?) && tick && old(forwarder).batch != [] ==>
                forwarder == Sending(old(forwarder).batch)
    {
      payload := None;
      match forwarder {
        case Collecting(_) =>
          Collect(tick);
        case Sending(_) =>
          var message := SendBatch(ok);
          payload := Some(message);
        case Counting(_, _) =>
          CountPacket();
        case Releasing(batch, done) =>
          if done < |batch| {
            ReleasePacket();
          } else {
            StartBatch();
          }
        case Stopped =>
      }
    }

    method StartBatch()
      requires Valid() && forwarder.Releasing? && forwarder.done >= |forwarder.batch|
      modifies this`forwarder
      ensures Valid() && View() == ReleaseStep(old(View()))
    {
      forwarder := Collecting([]);
    }
  }

  /** Whose turn it is, and what the outside world has for it. */
  datatype Turn =
    | ReaderMoves(datagram: Bytes, more: bool)
    | ForwarderMoves(tick: bool, ok: bool)

  /** A step of the reader that takes what its turn offers. */
  ghost predicate Answers(d: Bytes, more: bool, e: Event<nat>) {
    ReaderEvent(e) && (e.Receive? ==> more && e.datagram == d) && (e.StopReading? ==> !more)
  }

  /** What a turn leads to in a state: a step of the reader, or what is due of the forwarder. */
  ghost predicate Answered(s: State<nat>, turn: Turn, e: Option<Event<nat>>) {
    match turn
    case ReaderMoves(d, more) => e.Some? && Answers(d, more, e.value)
    case ForwarderMoves(tick, ok) => e == Due(s, tick, ok)
  }

  /** What a step hands to the session client. */
  ghost function Payload(s: State<nat>, e: Option<Event<nat>>): Option<seq<Message>> {
    if e.Some? && e.value.Send? && s.forwarder.Sending? then Some(Contents(s.heap, s.forwarder.batch)) else None
  }

  method TakeTurn(p: Process, turn: Turn) returns (payload: Option<seq<Message>>, ghost e: Option<Event<nat>>)
    requires p.Valid()
    modifies p, p.objects
    ensures p.Valid() && old(p.objects) <= p.objects && fresh(p.objects[|old(p.objects)|..])
    ensures e.Some? ==> Enabled(p.config, old(p.View()), e.value)
    ensures Answered(old(p.View()), turn, e) && p.View() == p.Done(old(p.View()), e)
    ensures payload == Payload(old(p.View()), e)
  {
    match turn {
      case ReaderMoves(d, more) =>
        ghost var step := p.ReaderTurn(d, more);
        payload, e := None, Some(step);
      case ForwarderMoves(tick, ok) =>
        e := Due(p.View(), tick, ok);
        payload := p.ForwarderTurn(tick, ok);
    }
  }

  /** The steps that were taken: a turn in which the forwarder waited gives none. */
  ghost function Taken(steps: seq<Option<Event<nat>>>): seq<Event<nat>> {
    if steps == [] then []
    else
      var n := |steps| - 1;
      Taken(steps[..n]) + if steps[n].Some? then [steps[n].value] else []
  }

  /** A run of the steps leads to this state and flushes these batches. */
  ghost predicate Reached(c: Config, steps: seq<Option<Event<nat>>>, s: State<nat>, payloads: seq<seq<Message>>) {
    && Possible(c, Start<nat>(), Taken(steps))
    && var y := Run(c, Start<nat>(), Taken(steps));
       y.s == s && y.flushed == payloads
  }

  /** One more turn extends the run by its step, and the batches by its payload. */
  lemma TakeStep(c: Config, steps: seq<Option<Event<nat>>>, s: State<nat>, payloads: seq<seq<Message>>,
                 e: Option<Event<nat>>)
    requires Reached(c, steps, s, payloads) && (e.Some? ==> Enabled(c, s, e.value))
    ensures var t, payload := if e.Some? then Step(c, s, e.value) else s, Payload(s, e);
            Reached(c, steps + [e], t, if payload.Some? then payloads + [payload.value] else payloads)
  {
    assert (steps + [e])[..|steps|] == steps;
    if e.Some? {
      RunSnoc(c, Start<nat>(), Taken(steps), e.value);
    } else {
      assert Taken(steps + [e]) == Taken(steps);
    }
  }

  /** Each step is what its turn leads to in the state that the steps before it lead to. */
  ghost predicate Follow(c: Config, steps: seq<Option<Event<nat>>>, turns: seq<Turn>) {
    && |steps| <= |turns|
    && forall i :: 0 <= i < |steps| ==> FollowAt(c, steps[..i], turns[i], steps[i])
  }

  ghost predicate FollowAt(c: Config, before: seq<Option<Event<nat>>>, turn: Turn, e: Option<Event<nat>>) {
    Possible(c, Start<nat>(), Taken(before)) && Answered(Run(c, Start<nat>(), Taken(before)).s, turn, e)
  }

  lemma FollowNext(c: Config, steps: seq<Option<Event<nat>>>, turns: seq<Turn>, e: Option<Event<nat>>)
    requires Follow(c, steps, turns) && |steps| < |turns| && FollowAt(c, steps, turns[|steps|], e)
    ensures Follow(c, steps + [e], turns)
  {
    var steps' := steps + [e];
    forall i | 0 <= i < |steps'|
      ensures FollowAt(c, steps'[..i], turns[i], steps'[i])
    {
      assert steps'[..i] == steps[..i];
      assert i == |steps| ==> steps[..i] == steps;
    }
  }

  method OneTurn(p: Process, turns: seq<Turn>, i: nat, payloads: seq<seq<Message>>,
                 ghost steps: seq<Option<Event<nat>>>)
      returns (payloads': seq<seq<Message>>, ghost steps': seq<Option<Event<nat>>>)
    requires p.Valid() && i == |steps| < |turns|
    requires Follow(p.config, steps, turns) && Reached(p.config, steps, p.View(), payloads)
    modifies p, p.objects
    ensures p.Valid()
    ensures forall j :: 0 <= j < |p.objects| ==>
              (j < |old(p.objects)| && p.objects[j] == old(p.objects)[j]) || fresh(p.objects[j])
    ensures |steps'| == i + 1 && Follow(p.config, steps', turns) && Reached(p.config, steps', p.View(), payloads')
  {
    ghost var s := p.View();
    ghost var e;
    var payload;
    payload, e := TakeTurn(p, turns[i]);
    assert forall j :: |old(p.objects)| <= j < |p.objects| ==>
                         p.objects[j] == p.objects[|old(p.objects)|..][j - |old(p.objects)|];
    TakeStep(p.config, steps, s, payloads, e);
    FollowNext(p.config, steps, turns, e);
    steps' := steps + [e];
    payloads' := if payload.Some? then payloads + [payload.value] else payloads;
  }

  /** The turns, one after the other. */
  method TakeTurns(p: Process, turns: seq<Turn>)
      returns (payloads: seq<seq<Message>>, ghost steps: seq<Option<Event<nat>>>)
    requires p.Valid() && p.objects == [] && Reached(p.config, [], p.View(), [])
    modifies p
    ensures p.Valid() && |steps| == |turns|
    ensures Follow(p.config, steps, turns) && Reached(p.config, steps, p.View(), payloads)
  {
    payloads, steps := [], [];
    for i := 0 to |turns|
      invariant p.Valid() && fresh(p.objects) && i == |steps|
      invariant Follow(p.config, steps, turns) && Reached(p.config, steps, p.View(), payloads)
    {
      payloads, steps := OneTurn(p, turns, i, payloads, steps);
    }
  }

  /** However the turns of the two loops are interleaved, the process is in the state that a
      run of their steps leads to, and it has handed on exactly that run's batches. */
  method Interleave(p: Process, turns: seq<Turn>)
      returns (payloads: seq<seq<Message>>, ghost steps: seq<Option<Event<nat>>>)
    requires p.Valid() && p.objects == [] && p.View() == Start<nat>().s
    modifies p
    ensures p.Valid() && |steps| == |turns| && Follow(p.config, steps, turns)
    ensures Possible(p.config, Start<nat>(), Taken(steps))
    ensures var y := Run(p.config, Start<nat>(), Taken(steps));
            p.View() == y.s && payloads == y.flushed && Inv(p.config, y)
  {
    NothingTaken(p.config);
    payloads, steps := TakeTurns(p, turns);
    ReachedInv(p.config, steps, p.View(), payloads);
  }

  lemma NothingTaken(c: Config)
    ensures Reached(c, [], Start<nat>().s, [])
  {
  }

  lemma ReachedInv(c: Config, steps: seq<Option<Event<nat>>>, s: State<nat>, payloads: seq<seq<Message>>)
    requires Reached(c, steps, s, payloads)
    ensures Possible(c, Start<nat>(), Taken(steps))
    ensures var y := Run(c, Start<nat>(), Taken(steps));
            s == y.s && payloads == y.flushed && Inv(c, y)
  {
    StartInv<nat>(c);
    RunInv(c, Start<nat>(), Taken(steps));
  }
}
