/** One receiver process: a reader that turns datagrams into checked packets and a forwarder
    that sends them on in batches.  The two run concurrently and share a bounded queue, a
    pool of reusable packet objects and the counters.  This module gives the atomic steps of
    both; a run interleaves them in any way. */
module Receiving {
  import opened Basics
  import opened Wire

  /** A decoded packet with the checksum it carried. */
  datatype Message = Message(packet: Packet, crc: u32)

  const BLANK := Message(Packet(0, 0, 0, 0, 0, 0, 0, []), 0)

  const MAX_DATAGRAM := 2048

  /** The protobuf decoder, the checksum test, and the sizes given on the command line. */
  datatype Config = Config(
    decode: Bytes -> Option<Message>,
    intact: Message -> bool,
    queueDepth: nat,
    batchSize: nat
  )

  datatype Reader<O> =
    | Ready                             // waiting for a datagram
    | Read(datagram: Bytes)             // a datagram was read and counted
    | Decoding(datagram: Bytes, o: O)   // a blank packet was taken for it
    | Checked(o: O)                     // the packet was decoded and its checksum holds
    | Discarding(o: O)                  // the packet was dropped and goes back to the pool
    | Finished                          // the socket was closed

  datatype Forwarder<O> =
    | Collecting(batch: seq<O>)             // waiting for packets or the ticker
    | Sending(batch: seq<O>)                // a batch is about to be marshalled and sent
    | Counting(batch: seq<O>, done: nat)    // it was sent and its packets are being counted
    | Releasing(batch: seq<O>, done: nat)   // its packets are going back to the pool
    | Stopped

  datatype Counters = Counters(
    received: nat,
    forwarded: nat,
    crcDropped: nat,
    malformed: nat,
    intakeDropped: nat,
    ipcDropped: nat,
    batchesSent: nat
  )

  const ZERO := Counters(0, 0, 0, 0, 0, 0, 0)

  /** The process, with the contents of every packet object allocated so far. */
  datatype State<O> = State(
    heap: map<O, Message>,
    pool: set<O>,
    queue: seq<O>,
    closed: bool,
    reader: Reader<O>,
    forwarder: Forwarder<O>,
    counters: Counters
  )

  datatype Event<O> =
    | Receive(datagram: Bytes)   // a datagram is read from the socket
    | RejectSize                 // it is over the size limit
    | TakePacket(o: O)           // a packet object is taken from the pool, or a new one
    | Decode(junk: Message)      // decoding and checking; a failed decode may leave anything behind
    | Offer                      // the packet is put in the queue, if there is room
    | GiveBack                   // a dropped packet is put back
    | StopReading                // the socket was closed
    | Close                      // the queue is closed, after the reader has returned
    | Fetch                      // the forwarder takes a packet from the queue
    | Tick                       // the flush ticker fires
    | Drained                    // the queue is closed and empty
    | Send(ok: bool)             // the batch is marshalled and sent, or lost
    | CountOne                   // a packet of a sent batch is counted
    | Release                    // a packet of a finished batch is put back

  predicate Enabled<O(==)>(c: Config, s: State<O>, e: Event<O>) {
    match e
    case Receive(_) => s.reader.Ready?
    case RejectSize => s.reader.Read? && |s.reader.datagram| > MAX_DATAGRAM
    case TakePacket(o) => s.reader.Read? && |s.reader.datagram| <= MAX_DATAGRAM && (o in s.pool || o !in s.heap)
    case Decode(_) => s.reader.Decoding?
    case Offer => s.reader.Checked?
    case GiveBack => s.reader.Discarding?
    case StopReading => s.reader.Ready?
    case Close => s.reader.Finished?
    case Fetch => s.forwarder.Collecting? && s.queue != []
    case Tick => s.forwarder.Collecting?
    case Drained => s.forwarder.Collecting? && s.closed && s.queue == []
    case Send(_) => s.forwarder.Sending?
    case CountOne => s.forwarder.Counting?
    case Release => s.forwarder.Releasing?
  }

  /** The forwarder flushes its batch unless it is empty. */
  function Flush<O>(batch: seq<O>, otherwise: Forwarder<O>): Forwarder<O> {
    if batch == [] then otherwise else Sending(batch)
  }

  function DecodeStep<O>(c: Config, s: State<O>, junk: Message): State<O>
    requires s.reader.Decoding?
  {
    var o := s.reader.o;
    match c.decode(s.reader.datagram)
    case None =>
      s.(heap := s.heap[o := junk], reader := Discarding(o),
         counters := s.counters.(malformed := s.counters.malformed + 1))
    case Some(m) =>
      if c.intact(m) then s.(heap := s.heap[o := m], reader := Checked(o))
      else s.(heap := s.heap[o := m], reader := Discarding(o),
              counters := s.counters.(crcDropped := s.counters.crcDropped + 1))
  }

  function OfferStep<O>(c: Config, s: State<O>): State<O>
    requires s.reader.Checked?
  {
    var o := s.reader.o;
    if |s.queue| < c.queueDepth then s.(queue := s.queue + [o], reader := Ready)
    else s.(heap := s.heap[o := BLANK], reader := Discarding(o),
            counters := s.counters.(intakeDropped := s.counters.intakeDropped + 1))
  }

  function FetchStep<O>(c: Config, s: State<O>): State<O>
    requires s.forwarder.Collecting? && s.queue != []
  {
    var batch := s.forwarder.batch + [s.queue[0]];
    s.(queue := s.queue[1..], forwarder := if |batch| >= c.batchSize then Sending(batch) else Collecting(batch))
  }

  function CountStep<O>(s: State<O>): State<O>
    requires s.forwarder.Counting?
  {
    var f := s.forwarder;
    if f.done < |f.batch| then
      s.(forwarder := Counting(f.batch, f.done + 1), counters := s.counters.(forwarded := s.counters.forwarded + 1))
    else
      s.(forwarder := Releasing(f.batch, 0), counters := s.counters.(batchesSent := s.counters.batchesSent + 1))
  }

  function ReleaseStep<O>(s: State<O>): State<O>
    requires s.forwarder.Releasing?
  {
    var f := s.forwarder;
    if f.done < |f.batch| then
      var o := f.batch[f.done];
      s.(heap := s.heap[o := BLANK], pool := s.pool + {o}, forwarder := Releasing(f.batch, f.done + 1))
    else
      s.(forwarder := Collecting([]))
  }

  function Step<O>(c: Config, s: State<O>, e: Event<O>): State<O>
    requires Enabled(c, s, e)
  {
    match e
    case Receive(d) => s.(reader := Read(d), counters := s.counters.(received := s.counters.received + 1))
    case RejectSize => s.(reader := Ready, counters := s.counters.(malformed := s.counters.malformed + 1))
    case TakePacket(o) =>
      s.(heap := s.heap[o := BLANK], pool := s.pool - {o}, reader := Decoding(s.reader.datagram, o))
    case Decode(junk) => DecodeStep(c, s, junk)
    case Offer => OfferStep(c, s)
    case GiveBack => s.(pool := s.pool + {s.reader.o}, reader := Ready)
    case StopReading => s.(reader := Finished)
    case Close => s.(closed := true)
    case Fetch => FetchStep(c, s)
    case Tick => s.(forwarder := Flush(s.forwarder.batch, s.forwarder))
    case Drained => s.(forwarder := Flush(s.forwarder.batch, Stopped))
    case Send(ok) =>
      if ok then s.(forwarder := Counting(s.forwarder.batch, 0))
      else s.(forwarder := Releasing(s.forwarder.batch, 0),
              counters := s.counters.(ipcDropped := s.counters.ipcDropped + 1))
    case CountOne => CountStep(s)
    case Release => ReleaseStep(s)
  }

  /** What the forwarder does next; None when it waits or has stopped.  `tick` says that the
      ticker is what its select takes up, `ok` that the session manager can be reached. */
  function Due<O(==)>(s: State<O>, tick: bool, ok: bool): (e: Option<Event<O>>)
    ensures e.Some? ==> forall c :: Enabled(c, s, e.value)
  {
    match s.forwarder
    case Collecting(_) =>
      if tick then Some(Tick) else if s.queue != [] then Some(Fetch) else if s.closed then Some(Drained) else None
    case Sending(_) => Some(Send(ok))
    case Counting(_, _) => Some(CountOne)
    case Releasing(_, _) => Some(Release)
    case Stopped => None
  }
}
