/** What a receiver process keeps over every interleaving of its reader and its forwarder. */
module ReceiverSafety {
  import opened Basics
  import opened Receiving

  /** A process with its history: the datagrams read, the packets put in the queue, the batches
      marshalled, and those of them that were sent and that were lost. */
  datatype System<O> = System(
    s: State<O>,
    read: seq<Bytes>,
    accepted: seq<Message>,
    flushed: seq<seq<Message>>,
    sent: seq<seq<Message>>,
    lost: seq<seq<Message>>
  )

  function Look<O>(heap: map<O, Message>, o: O): Message {
    if o in heap then heap[o] else BLANK
  }

  function Contents<O>(heap: map<O, Message>, list: seq<O>): seq<Message> {
    seq(|list|, i requires 0 <= i < |list| => Look(heap, list[i]))
  }

  function Next<O(==)>(c: Config, y: System<O>, e: Event<O>): System<O>
    requires Enabled(c, y.s, e)
  {
    var z := y.(s := Step(c, y.s, e));
    if e.Receive? then
      z.(read := y.read + [e.datagram])
    else if e.Offer? && |y.s.queue| < c.queueDepth then
      z.(accepted := y.accepted + [Look(y.s.heap, y.s.reader.o)])
    else if e.Send? then
      var payload := Contents(y.s.heap, y.s.forwarder.batch);
      var w := z.(flushed := y.flushed + [payload]);
      if e.ok then w.(sent := y.sent + [payload]) else w.(lost := y.lost + [payload])
    else
      z
  }

  // ----- where packets are

  function InReader<O>(r: Reader<O>): seq<O> {
    if r.Decoding? || r.Checked? || r.Discarding? then [r.o] else []
  }

  /** The objects a batch still holds: those already put back are out of it. */
  function InBatch<O>(f: Forwarder<O>): seq<O> {
    match f
    case Releasing(batch, done) => if done <= |batch| then batch[done..] else []
    case Stopped => []
    case _ => f.batch
  }

  /** The objects that still wait to be marshalled, in the order they were accepted. */
  function Waiting<O>(s: State<O>): seq<O> {
    (if s.forwarder.Collecting? || s.forwarder.Sending? then s.forwarder.batch else []) + s.queue
  }

  function Places<O>(s: State<O>): seq<O> {
    InReader(s.reader) + (InBatch(s.forwarder) + s.queue)
  }

  /** Every object is in exactly one place: the pool, the reader, the batch or the queue. */
  ghost predicate Owned<O(!new)>(s: State<O>) {
    && Distinct(Places(s))
    && (forall o :: o in Places(s) ==> o in s.heap && o !in s.pool)
    && (forall o :: o in s.heap <==> o in s.pool || o in Places(s))
  }

  /** Flushed batches, then what waits, are the accepted packets in order and unchanged. */
  ghost predicate Ordered<O>(y: System<O>) {
    y.accepted == Concat(y.flushed) + Contents(y.s.heap, Waiting(y.s))
  }

  /** Packets in the open batch that no counter has seen yet. */
  function Open<O>(f: Forwarder<O>): int {
    match f
    case Counting(batch, done) => |batch| - done
    case Releasing(_, _) => 0
    case Stopped => 0
    case _ => |f.batch|
  }

  function InHand<O>(r: Reader<O>): nat {
    if r.Read? || r.Decoding? || r.Checked? then 1 else 0
  }

  ghost predicate Accounted<O>(y: System<O>) {
    var n := y.s.counters;
    && n.received == n.forwarded + n.crcDropped + n.malformed + n.intakeDropped + |Concat(y.lost)|
                     + |y.s.queue| + Open(y.s.forwarder) + InHand(y.s.reader)
    && n.ipcDropped == |y.lost|
    && n.batchesSent == |y.sent| - (if y.s.forwarder.Counting? then 1 else 0)
    && n.forwarded == |Concat(y.sent)| - (if y.s.forwarder.Counting? then Open(y.s.forwarder) else 0)
  }

  /** The largest batch: a size of zero flushes every packet by itself, like a size of one. */
  function BatchLimit(c: Config): nat {
    if c.batchSize == 0 then 1 else c.batchSize
  }

  ghost predicate Bounded<O>(c: Config, y: System<O>) {
    && |y.s.queue| <= c.queueDepth
    && (forall i :: 0 <= i < |y.flushed| ==> 0 < |y.flushed[i]| <= BatchLimit(c))
    && (match y.s.forwarder
        case Collecting(batch) => |batch| < BatchLimit(c)
        case Sending(batch) => 0 < |batch| <= BatchLimit(c)
        case Counting(batch, done) => done <= |batch|
        case Releasing(batch, done) => done <= |batch|
        case Stopped => y.s.closed && y.s.queue == [])
    && (y.s.closed ==> y.s.reader.Finished?)
  }

  /** Only packets whose checksum holds get through. */
  ghost predicate Sound<O>(c: Config, y: System<O>) {
    && (y.s.reader.Checked? ==> c.intact(Look(y.s.heap, y.s.reader.o)))
    && (forall m :: m in y.accepted ==> c.intact(m))
  }

  // ----- what becomes of a datagram

  datatype Verdict = Malformed | Damaged | Good(message: Message)

  /** What the reader makes of a datagram: too long or undecodable, wrong checksum, or good. */
  function Judge(c: Config, d: Bytes): Verdict {
    if |d| > 2048 then Malformed
    else
      match c.decode(d)
      case None => Malformed
      case Some(m) => if c.intact(m) then Good(m) else Damaged
  }

  /** The good packets among the datagrams, in the order they were read. */
  function Goods(c: Config, read: seq<Bytes>): seq<Message> {
    if read == [] then []
    else
      var n := |read| - 1;
      var front, last := Goods(c, read[..n]), Judge(c, read[n]);
      if last.Good? then front + [last.message] else front
  }

  function Tally(c: Config, read: seq<Bytes>, verdict: Verdict): nat {
    if read == [] then 0
    else
      var n := |read| - 1;
      Tally(c, read[..n], verdict) + if Judge(c, read[n]) == verdict then 1 else 0
  }

  /** a is b with some of its elements left out. */
  ghost predicate Subsequence<T(!new)>(a: seq<T>, b: seq<T>)
    decreases |b|
  {
    if b == [] then a == []
    else
      var n := |b| - 1;
      Subsequence(a, b[..n]) || (a != [] && a[|a| - 1] == b[n] && Subsequence(a[..|a| - 1], b[..n]))
  }

  /** The datagrams the reader is done with: all but the one in its hand. */
  function Settled<O>(y: System<O>): seq<Bytes> {
    if InHand(y.s.reader) <= |y.read| then y.read[..|y.read| - InHand(y.s.reader)] else []
  }

  /** The datagram in the reader's hand is the last one read; it is decoded into a blank packet;
      and a packet that is decoded and checked is what that datagram says. */
  ghost predicate TrueHand<O>(c: Config, y: System<O>) {
    InHand(y.s.reader) == 1 ==>
      && y.read != []
      && var d := y.read[|y.read| - 1];
         match y.s.reader
         case Read(datagram) => datagram == d
         case Decoding(datagram, o) => datagram == d && |d| <= MAX_DATAGRAM && Look(y.s.heap, o) == BLANK
         case Checked(o) => Judge(c, d) == Good(Look(y.s.heap, o))
         case _ => true
  }

  /** Every datagram the reader is done with was counted by its verdict, and the good ones,
      in order, were accepted except as many as were dropped for lack of room. */
  ghost predicate Sorted<O>(c: Config, y: System<O>) {
    && y.s.counters.received == |y.read|
    && SortedOut(c, Settled(y), y.accepted, y.s.counters)
  }

  ghost predicate SortedOut(c: Config, settled: seq<Bytes>, accepted: seq<Message>, n: Counters) {
    && n.malformed == Tally(c, settled, Malformed) && n.crcDropped == Tally(c, settled, Damaged)
    && Subsequence(accepted, Goods(c, settled))
    && |Goods(c, settled)| == |accepted| + n.intakeDropped
  }

  ghost predicate Inv<O(!new)>(c: Config, y: System<O>) {
    Owned(y.s) && Ordered(y) && Accounted(y) && Bounded(c, y) && Sound(c, y) && TrueHand(c, y) && Sorted(c, y)
  }

  // ----- ownership

  lemma CommonRepeats<T(!new)>(a: seq<T>, b: seq<T>, x: T)
    requires x in a && x in b
    ensures !Distinct(a + b)
  {
    var i :| 0 <= i < |a| && a[i] == x;
    var j :| 0 <= j < |b| && b[j] == x;
    assert (a + b)[i] == (a + b)[|a| + j];
  }

  lemma PartsDistinct<T(!new)>(a: seq<T>, b: seq<T>)
    requires Distinct(a + b)
    ensures Distinct(a) && Distinct(b) && forall x :: x in a ==> x !in b
  {
    forall x | x in a
      ensures x !in b
    {
      if x in b {
        CommonRepeats(a, b, x);
      }
    }
    assert forall i :: 0 <= i < |a| ==> (a + b)[i] == a[i];
    assert forall i :: 0 <= i < |b| ==> (a + b)[|a| + i] == b[i];
    assert forall i :: |a| <= i < |a + b| ==> (a + b)[i] == b[i - |a|];
  }

  lemma WholeDistinct<T(!new)>(a: seq<T>, b: seq<T>)
    requires Distinct(a) && Distinct(b) && forall x :: x in a ==> x !in b
    ensures Distinct(a + b)
  {
    var c := a + b;
    forall i, j | 0 <= i < j < |c|
      ensures c[i] != c[j]
    {
      if i < |a| <= j {
        assert c[i] in a && c[j] in b;
      }
    }
  }

  /** Taking an object, moving one from the front to the back, and giving one up. */
  lemma Moves<O(!new)>(o: O, rest: seq<O>)
    ensures Distinct([o] + rest) <==> Distinct(rest) && o !in rest
    ensures Distinct([o] + rest) ==> Distinct(rest + [o])
  {
    if Distinct([o] + rest) {
      PartsDistinct([o], rest);
      WholeDistinct(rest, [o]);
    } else if Distinct(rest) && o !in rest {
      WholeDistinct([o], rest);
    }
  }

  lemma TakeOwned<O(!new)>(c: Config, s: State<O>, o: O)
    requires Enabled(c, s, TakePacket(o)) && Owned(s)
    ensures Owned(Step(c, s, TakePacket(o)))
  {
    var rest := InBatch(s.forwarder) + s.queue;
    Moves(o, rest);
    assert Places(s) == rest && Places(Step(c, s, TakePacket(o))) == [o] + rest;
  }

  lemma OfferOwned<O(!new)>(c: Config, s: State<O>)
    requires s.reader.Checked? && Owned(s)
    ensures Owned(OfferStep(c, s))
  {
    var o, rest := s.reader.o, InBatch(s.forwarder) + s.queue;
    Moves(o, rest);
    assert Places(s) == [o] + rest;
    assert |s.queue| < c.queueDepth ==> Places(OfferStep(c, s)) == rest + [o];
  }

  lemma GiveBackOwned<O(!new)>(c: Config, s: State<O>)
    requires s.reader.Discarding? && Owned(s)
    ensures Owned(Step(c, s, GiveBack))
  {
    var rest := InBatch(s.forwarder) + s.queue;
    Moves(s.reader.o, rest);
    assert Places(s) == [s.reader.o] + rest && Places(Step(c, s, GiveBack)) == rest;
  }

  lemma DecodeOwned<O(!new)>(c: Config, s: State<O>, junk: Message)
    requires s.reader.Decoding? && Owned(s)
    ensures Owned(DecodeStep(c, s, junk))
  {
    assert Places(DecodeStep(c, s, junk)) == Places(s);
  }

  lemma FetchOwned<O(!new)>(c: Config, s: State<O>)
    requires s.forwarder.Collecting? && s.queue != [] && Owned(s)
    ensures Owned(FetchStep(c, s))
  {
    assert InBatch(FetchStep(c, s).forwarder) + FetchStep(c, s).queue == InBatch(s.forwarder) + s.queue;
  }

  lemma StepOwned<O(!new)>(c: Config, s: State<O>, e: Event<O>)
    requires Enabled(c, s, e) && Owned(s) && (s.forwarder.Releasing? ==> s.forwarder.done <= |s.forwarder.batch|)
    ensures Owned(Step(c, s, e))
  {
    match e
    case TakePacket(o) => TakeOwned(c, s, o);
    case Decode(junk) => DecodeOwned(c, s, junk);
    case Offer => OfferOwned(c, s);
    case GiveBack => GiveBackOwned(c, s);
    case Fetch => FetchOwned(c, s);
    case Release => ReleaseOwned(s);
    case _ => assert Places(Step(c, s, e)) == Places(s);
  }

  lemma TakenOut<O(!new)>(hand: seq<O>, o: O, left: seq<O>)
    requires Distinct(hand + ([o] + left))
    ensures Distinct(hand + left)
    ensures forall x :: x in hand + ([o] + left) <==> x == o || x in hand + left
    ensures o !in hand + left
  {
    PartsDistinct(hand, [o] + left);
    PartsDistinct([o], left);
    WholeDistinct(hand, left);
  }

  lemma ReleaseOwned<O(!new)>(s: State<O>)
    requires s.forwarder.Releasing? && s.forwarder.done <= |s.forwarder.batch| && Owned(s)
    ensures Owned(ReleaseStep(s))
  {
    var f, t := s.forwarder, ReleaseStep(s);
    if f.done < |f.batch| {
      var o, left := f.batch[f.done], f.batch[f.done + 1..] + s.queue;
      var hand := InReader(s.reader);
      assert InBatch(f) + s.queue == [o] + left;
      assert Places(s) == hand + ([o] + left) && Places(t) == hand + left;
      TakenOut(hand, o, left);
    } else {
      assert Places(t) == Places(s);
    }
  }

  // ----- order and contents

  lemma ContentsConcat<O>(heap: map<O, Message>, a: seq<O>, b: seq<O>)
    ensures Contents(heap, a + b) == Contents(heap, a) + Contents(heap, b)
  {
  }

  /** Overwriting an object changes nothing that waits elsewhere. */
  lemma ContentsFrame<O>(heap: map<O, Message>, list: seq<O>, o: O, m: Message)
    requires o !in list
    ensures Contents(heap[o := m], list) == Contents(heap, list)
  {
  }

  lemma WaitingPlaces<O(!new)>(s: State<O>)
    requires Owned(s)
    ensures forall o :: o in Waiting(s) ==> o in Places(s) && o !in InReader(s.reader)
    ensures s.forwarder.Releasing? && s.forwarder.done < |s.forwarder.batch| ==>
              s.forwarder.batch[s.forwarder.done] !in Waiting(s)
  {
    var rest := InBatch(s.forwarder) + s.queue;
    PartsDistinct(InReader(s.reader), rest);
    PartsDistinct(InBatch(s.forwarder), s.queue);
    assert forall o :: o in Waiting(s) ==> o in rest;
    if s.forwarder.Releasing? && s.forwarder.done < |s.forwarder.batch| {
      assert InBatch(s.forwarder)[0] == s.forwarder.batch[s.forwarder.done];
    }
  }

  /** The object a step overwrites, if any. */
  function Touched<O>(s: State<O>, e: Event<O>): Option<O> {
    match e
    case TakePacket(o) => Some(o)
    case Decode(_) => if s.reader.Decoding? then Some(s.reader.o) else None
    case Offer => if s.reader.Checked? then Some(s.reader.o) else None
    case Release =>
      if s.forwarder.Releasing? && s.forwarder.done < |s.forwarder.batch| then Some(s.forwarder.batch[s.forwarder.done])
      else None
    case _ => None
  }

  /** A step overwrites at most one object, and never one that still waits to be sent. */
  lemma StepTouches<O(!new)>(c: Config, s: State<O>, e: Event<O>)
    requires Enabled(c, s, e) && Owned(s)
    ensures Contents(Step(c, s, e).heap, Waiting(s)) == Contents(s.heap, Waiting(s))
  {
    WaitingPlaces(s);
    var t := Step(c, s, e);
    var o := Touched(s, e);
    if o.Some? {
      assert o.value !in Waiting(s);
      assert t.heap == s.heap || t.heap == s.heap[o.value := Look(t.heap, o.value)];
      ContentsFrame(s.heap, Waiting(s), o.value, Look(t.heap, o.value));
    } else {
      assert t.heap == s.heap;
    }
  }

  /** The list of waiting packets changes only when one is accepted or a batch is flushed. */
  lemma StepWaiting<O(!new)>(c: Config, s: State<O>, e: Event<O>)
    requires Enabled(c, s, e)
    ensures !e.Offer? && !e.Send? ==> Waiting(Step(c, s, e)) == Waiting(s)
    ensures e.Offer? ==>
              Waiting(Step(c, s, e)) == if |s.queue| < c.queueDepth then Waiting(s) + [s.reader.o] else Waiting(s)
    ensures e.Send? ==> Waiting(s) == s.forwarder.batch + s.queue && Waiting(Step(c, s, e)) == s.queue
  {
  }

  /** A flushed batch moves from what waits to what was flushed. */
  lemma FlushMoves<O>(heap: map<O, Message>, flushed: seq<seq<Message>>, batch: seq<O>, queue: seq<O>)
    ensures Concat(flushed) + Contents(heap, batch + queue)
            == Concat(flushed + [Contents(heap, batch)]) + Contents(heap, queue)
  {
    ConcatSnoc(flushed, Contents(heap, batch));
    ContentsConcat(heap, batch, queue);
  }

  lemma SendOrdered<O(!new)>(c: Config, y: System<O>, ok: bool)
    requires y.s.forwarder.Sending? && Ordered(y)
    ensures Ordered(Next(c, y, Send(ok)))
  {
    StepWaiting(c, y.s, Send(ok));
    FlushMoves(y.s.heap, y.flushed, y.s.forwarder.batch, y.s.queue);
  }

  lemma OfferOrdered<O(!new)>(c: Config, y: System<O>)
    requires y.s.reader.Checked? && Owned(y.s) && Ordered(y)
    ensures Ordered(Next(c, y, Offer))
  {
    var s := y.s;
    StepTouches(c, s, Offer);
    StepWaiting(c, s, Offer);
    AcceptMoves(s.heap, y.flushed, Waiting(s), s.reader.o);
    var z := Next(c, y, Offer);
    assert z.flushed == y.flushed && (|s.queue| < c.queueDepth ==> z.s.heap == s.heap);
  }

  /** An accepted packet comes last among those that wait. */
  lemma AcceptMoves<O>(heap: map<O, Message>, flushed: seq<seq<Message>>, waiting: seq<O>, o: O)
    ensures Concat(flushed) + Contents(heap, waiting + [o]) == Concat(flushed) + Contents(heap, waiting) + [Look(heap, o)]
  {
    ContentsConcat(heap, waiting, [o]);
  }

  lemma StepOrdered<O(!new)>(c: Config, y: System<O>, e: Event<O>)
    requires Enabled(c, y.s, e) && Owned(y.s) && Ordered(y)
    ensures Ordered(Next(c, y, e))
  {
    if e.Offer? {
      OfferOrdered(c, y);
    } else if e.Send? {
      SendOrdered(c, y, e.ok);
    } else {
      StepTouches(c, y.s, e);
      StepWaiting(c, y.s, e);
    }
  }

  // ----- counters and bounds

  lemma SendAccounted<O(!new)>(c: Config, y: System<O>, ok: bool)
    requires y.s.forwarder.Sending? && Accounted(y)
    ensures Accounted(Next(c, y, Send(ok)))
  {
    var payload := Contents(y.s.heap, y.s.forwarder.batch);
    ConcatSnoc(y.sent, payload);
    ConcatSnoc(y.lost, payload);
  }

  predicate ReaderEvent<O>(e: Event<O>) {
    e.Receive? || e.RejectSize? || e.TakePacket? || e.Decode? || e.Offer? || e.GiveBack? || e.StopReading? || e.Close?
  }

  lemma ReaderAccounted<O(!new)>(c: Config, y: System<O>, e: Event<O>)
    requires Enabled(c, y.s, e) && Accounted(y) && ReaderEvent(e)
    ensures Accounted(Next(c, y, e))
  {
    var z := Next(c, y, e);
    assert z.lost == y.lost && z.sent == y.sent && z.s.forwarder == y.s.forwarder;
  }

  lemma ForwarderAccounted<O(!new)>(c: Config, y: System<O>, e: Event<O>)
    requires Enabled(c, y.s, e) && Accounted(y) && Bounded(c, y) && !ReaderEvent(e) && !e.Send?
    ensures Accounted(Next(c, y, e))
  {
    var z := Next(c, y, e);
    assert z.lost == y.lost && z.sent == y.sent && z.s.reader == y.s.reader;
  }

  lemma StepAccounted<O(!new)>(c: Config, y: System<O>, e: Event<O>)
    requires Enabled(c, y.s, e) && Accounted(y) && Bounded(c, y)
    ensures Accounted(Next(c, y, e))
  {
    if e.Send? {
      SendAccounted(c, y, e.ok);
    } else if ReaderEvent(e) {
      ReaderAccounted(c, y, e);
    } else {
      ForwarderAccounted(c, y, e);
    }
  }

  lemma StepBounded<O(!new)>(c: Config, y: System<O>, e: Event<O>)
    requires Enabled(c, y.s, e) && Bounded(c, y)
    ensures Bounded(c, Next(c, y, e))
  {
  }

  lemma StepSound<O(!new)>(c: Config, y: System<O>, e: Event<O>)
    requires Enabled(c, y.s, e) && Sound(c, y) && Owned(y.s)
    ensures Sound(c, Next(c, y, e))
  {
    if y.s.reader.Checked? && !ReaderEvent(e) {
      HandUntouched(c, y.s, e);
    }
  }

  // ----- datagrams and packets

  lemma SubsequenceKeeps<T(!new)>(a: seq<T>, b: seq<T>, x: T)
    requires Subsequence(a, b)
    ensures Subsequence(a + [x], b + [x]) && Subsequence(a, b + [x])
  {
    assert (a + [x])[..|a|] == a && (b + [x])[..|b|] == b;
  }

  lemma {:induction false} SubsequenceMember<T(!new)>(a: seq<T>, b: seq<T>, x: T)
    requires Subsequence(a, b) && x in a
    ensures x in b
    decreases |b|
  {
    if b == [] {
    } else {
      var n := |b| - 1;
      if Subsequence(a, b[..n]) {
        SubsequenceMember(a, b[..n], x);
      } else if x != b[n] {
        assert x in a[..|a| - 1];
        SubsequenceMember(a[..|a| - 1], b[..n], x);
      }
    }
  }

  /** The forwarder leaves the packet in the reader's hand alone. */
  lemma HandUntouched<O(!new)>(c: Config, s: State<O>, e: Event<O>)
    requires Enabled(c, s, e) && Owned(s) && (s.reader.Checked? || s.reader.Decoding?) && !ReaderEvent(e)
    ensures Step(c, s, e).reader == s.reader && Look(Step(c, s, e).heap, s.reader.o) == Look(s.heap, s.reader.o)
  {
    if e.Release? {
      var f := s.forwarder;
      PartsDistinct(InReader(s.reader), InBatch(f) + s.queue);
      assert f.done < |f.batch| ==> InBatch(f)[0] == f.batch[f.done];
    }
  }

  lemma ReaderTrueHand<O(!new)>(c: Config, y: System<O>, e: Event<O>)
    requires Enabled(c, y.s, e) && TrueHand(c, y) && ReaderEvent(e)
    ensures TrueHand(c, Next(c, y, e))
  {
    assert !e.Receive? ==> Next(c, y, e).read == y.read;
  }

  lemma StepTrueHand<O(!new)>(c: Config, y: System<O>, e: Event<O>)
    requires Enabled(c, y.s, e) && TrueHand(c, y) && Owned(y.s)
    ensures TrueHand(c, Next(c, y, e))
  {
    var z := Next(c, y, e);
    if ReaderEvent(e) {
      ReaderTrueHand(c, y, e);
    } else {
      assert z.read == y.read && z.s.reader == y.s.reader;
      if y.s.reader.Checked? || y.s.reader.Decoding? {
        HandUntouched(c, y.s, e);
      }
    }
  }

  lemma SameSettled<O(!new)>(c: Config, y: System<O>, e: Event<O>)
    requires Enabled(c, y.s, e) && TrueHand(c, y)
    requires !e.RejectSize? && !e.Offer? && (e.Decode? ==> Next(c, y, e).s.reader.Checked?)
    ensures Settled(Next(c, y, e)) == Settled(y)
  {
    var z := Next(c, y, e);
    assert if e.Receive? then z.read[..|y.read|] == y.read else z.read == y.read;
  }

  /** A step that settles no datagram keeps the tallies. */
  lemma UnsettledSorted<O(!new)>(c: Config, y: System<O>, e: Event<O>)
    requires Enabled(c, y.s, e) && TrueHand(c, y) && Sorted(c, y)
    requires !e.RejectSize? && !e.Offer? && (e.Decode? ==> Next(c, y, e).s.reader.Checked?)
    ensures Sorted(c, Next(c, y, e))
  {
    var z := Next(c, y, e);
    SameSettled(c, y, e);
    assert z.accepted == y.accepted && z.s.counters.(received := 0, forwarded := 0, ipcDropped := 0, batchesSent := 0)
           == y.s.counters.(received := 0, forwarded := 0, ipcDropped := 0, batchesSent := 0);
  }

  lemma GoodsNext(c: Config, read: seq<Bytes>, d: Bytes)
    ensures Goods(c, read + [d]) == if Judge(c, d).Good? then Goods(c, read) + [Judge(c, d).message] else Goods(c, read)
  {
    assert (read + [d])[..|read|] == read;
  }

  lemma TallyNext(c: Config, read: seq<Bytes>, d: Bytes, v: Verdict)
    ensures Tally(c, read + [d], v) == Tally(c, read, v) + if Judge(c, d) == v then 1 else 0
  {
    assert (read + [d])[..|read|] == read;
  }

  /** Settling the datagram in hand moves it to the tallies. */
  lemma SettleOne(c: Config, settled: seq<Bytes>, read: seq<Bytes>, d: Bytes)
    requires read == settled + [d]
    ensures Goods(c, read) == if Judge(c, d).Good? then Goods(c, settled) + [Judge(c, d).message] else Goods(c, settled)
    ensures Tally(c, read, Malformed) == Tally(c, settled, Malformed) + if Judge(c, d) == Malformed then 1 else 0
    ensures Tally(c, read, Damaged) == Tally(c, settled, Damaged) + if Judge(c, d) == Damaged then 1 else 0
  {
    GoodsNext(c, settled, d);
    TallyNext(c, settled, d, Malformed);
    TallyNext(c, settled, d, Damaged);
  }

  lemma RejectSorted<O(!new)>(c: Config, y: System<O>)
    requires Enabled(c, y.s, RejectSize) && TrueHand(c, y) && Sorted(c, y)
    ensures Sorted(c, Next(c, y, RejectSize))
  {
    RejectEffect(c, y);
    SettleBad(c, Settled(y), y.s.reader.datagram, y.accepted, y.s.counters);
  }

  lemma RejectEffect<O(!new)>(c: Config, y: System<O>)
    requires Enabled(c, y.s, RejectSize) && TrueHand(c, y)
    ensures var z, d, n := Next(c, y, RejectSize), y.s.reader.datagram, y.s.counters;
            && z.read == y.read == Settled(y) + [d] && Settled(z) == y.read && z.accepted == y.accepted
            && Judge(c, d) == Malformed && z.s.counters == n.(malformed := n.malformed + 1)
  {
    assert y.read[..|y.read|] == y.read;
  }

  /** A datagram that is not good is counted by its verdict. */
  lemma SettleBad(c: Config, settled: seq<Bytes>, d: Bytes, accepted: seq<Message>, n: Counters)
    requires SortedOut(c, settled, accepted, n) && !Judge(c, d).Good?
    ensures SortedOut(c, settled + [d], accepted,
                      if Judge(c, d) == Malformed then n.(malformed := n.malformed + 1)
                      else n.(crcDropped := n.crcDropped + 1))
  {
    SettleOne(c, settled, settled + [d], d);
  }

  lemma DecodeSorted<O(!new)>(c: Config, y: System<O>, junk: Message)
    requires y.s.reader.Decoding? && TrueHand(c, y) && Sorted(c, y)
    ensures Sorted(c, Next(c, y, Decode(junk)))
  {
    var z := Next(c, y, Decode(junk));
    if z.s.reader.Checked? {
      UnsettledSorted(c, y, Decode(junk));
    } else {
      DecodeFails(c, y, junk);
      SettleBad(c, Settled(y), y.s.reader.datagram, y.accepted, y.s.counters);
    }
  }

  lemma DecodeFails<O(!new)>(c: Config, y: System<O>, junk: Message)
    requires y.s.reader.Decoding? && TrueHand(c, y) && !Next(c, y, Decode(junk)).s.reader.Checked?
    ensures var z, d, n := Next(c, y, Decode(junk)), y.s.reader.datagram, y.s.counters;
            && z.read == y.read == Settled(y) + [d] && Settled(z) == y.read && z.accepted == y.accepted
            && !Judge(c, d).Good?
            && z.s.counters == if Judge(c, d) == Malformed then n.(malformed := n.malformed + 1)
                               else n.(crcDropped := n.crcDropped + 1)
  {
    assert y.read[..|y.read|] == y.read;
  }

  lemma OfferSorted<O(!new)>(c: Config, y: System<O>)
    requires y.s.reader.Checked? && TrueHand(c, y) && Sorted(c, y)
    ensures Sorted(c, Next(c, y, Offer))
  {
    OfferEffect(c, y);
    var n := |y.read| - 1;
    assert y.read == Settled(y) + [y.read[n]];
    SettleGood(c, Settled(y), y.read[n], y.accepted, y.s.counters, |y.s.queue| < c.queueDepth);
  }

  /** A good datagram is accepted, or dropped and counted. */
  lemma SettleGood(c: Config, settled: seq<Bytes>, d: Bytes, accepted: seq<Message>, n: Counters, room: bool)
    requires SortedOut(c, settled, accepted, n) && Judge(c, d).Good?
    ensures SortedOut(c, settled + [d], if room then accepted + [Judge(c, d).message] else accepted,
                      n.(intakeDropped := n.intakeDropped + if room then 0 else 1))
  {
    SettleOne(c, settled, settled + [d], d);
    SubsequenceKeeps(accepted, Goods(c, settled), Judge(c, d).message);
  }

  lemma OfferEffect<O(!new)>(c: Config, y: System<O>)
    requires y.s.reader.Checked?
    ensures var z, m, room := Next(c, y, Offer), Look(y.s.heap, y.s.reader.o), |y.s.queue| < c.queueDepth;
            && z.read == y.read && Settled(z) == y.read
            && z.accepted == (if room then y.accepted + [m] else y.accepted)
            && z.s.counters == y.s.counters.(intakeDropped := y.s.counters.intakeDropped + if room then 0 else 1)
  {
    assert y.read[..|y.read|] == y.read;
  }

  lemma StepSorted<O(!new)>(c: Config, y: System<O>, e: Event<O>)
    requires Enabled(c, y.s, e) && TrueHand(c, y) && Sorted(c, y)
    ensures Sorted(c, Next(c, y, e))
  {
    match e
    case RejectSize => RejectSorted(c, y);
    case Decode(junk) => DecodeSorted(c, y, junk);
    case Offer => OfferSorted(c, y);
    case _ => UnsettledSorted(c, y, e);
  }

  // ----- whole runs

  lemma StepInv<O(!new)>(c: Config, y: System<O>, e: Event<O>)
    requires Enabled(c, y.s, e) && Inv(c, y)
    ensures Inv(c, Next(c, y, e))
  {
    StepOwned(c, y.s, e);
    StepOrdered(c, y, e);
    StepAccounted(c, y, e);
    StepBounded(c, y, e);
    StepSound(c, y, e);
    StepTrueHand(c, y, e);
    StepSorted(c, y, e);
  }

  function Start<O>(): System<O> {
    System(State(map[], {}, [], false, Ready, Collecting([]), ZERO), [], [], [], [], [])
  }

  /** Every event of a run is possible where it happens. */
  ghost predicate Possible<O>(c: Config, y: System<O>, events: seq<Event<O>>)
    decreases |events|
  {
    events == [] || (Enabled(c, y.s, events[0]) && Possible(c, Next(c, y, events[0]), events[1..]))
  }

  ghost function Run<O>(c: Config, y: System<O>, events: seq<Event<O>>): System<O>
    requires Possible(c, y, events)
    decreases |events|
  {
    if events == [] then y else Run(c, Next(c, y, events[0]), events[1..])
  }

  lemma {:induction false} RunSnoc<O>(c: Config, y: System<O>, events: seq<Event<O>>, e: Event<O>)
    requires Possible(c, y, events) && Enabled(c, Run(c, y, events).s, e)
    ensures Possible(c, y, events + [e])
    ensures Run(c, y, events + [e]) == Next(c, Run(c, y, events), e)
    decreases |events|
  {
    var longer := events + [e];
    if events == [] {
      assert longer[1..] == [];
    } else {
      assert longer[1..] == events[1..] + [e];
      RunSnoc(c, Next(c, y, events[0]), events[1..], e);
    }
  }

  lemma {:induction false} RunInv<O(!new)>(c: Config, y: System<O>, events: seq<Event<O>>)
    requires Possible(c, y, events) && Inv(c, y)
    ensures Inv(c, Run(c, y, events))
    decreases |events|
  {
    if events == [] {
    } else {
      var e := events[0];
      StepInv(c, y, e);
      RunInv(c, Next(c, y, e), events[1..]);
    }
  }

  lemma StartOwned<O(!new)>(y: System<O>)
    requires y == Start<O>()
    ensures Owned(y.s) && Ordered(y)
  {
    assert Places(y.s) == [] && Waiting(y.s) == [];
  }

  lemma StartCounted<O(!new)>(c: Config, y: System<O>)
    requires y == Start<O>()
    ensures Accounted(y) && Bounded(c, y) && Sound(c, y) && TrueHand(c, y)
  {
  }

  lemma StartSorted<O(!new)>(c: Config, y: System<O>)
    requires y == Start<O>()
    ensures Sorted(c, y)
  {
    assert Settled(y) == [];
  }

  lemma StartInv<O(!new)>(c: Config)
    ensures Inv(c, Start<O>())
  {
    StartOwned(Start<O>());
    StartCounted(c, Start<O>());
    StartSorted(c, Start<O>());
  }

  /** In every interleaving, every datagram read is in exactly one count or one place; when
      the process is at rest this is the identity the counters promise. */
  lemma Conservation<O(!new)>(c: Config, events: seq<Event<O>>)
    requires Possible(c, Start<O>(), events)
    ensures var y := Run(c, Start<O>(), events);
            var n := y.s.counters;
            && n.received == n.forwarded + n.crcDropped + n.malformed + n.intakeDropped + |Concat(y.lost)|
                             + |y.s.queue| + Open(y.s.forwarder) + InHand(y.s.reader)
            && n.ipcDropped == |y.lost|
            && (y.s.queue == [] && Open(y.s.forwarder) == 0 && InHand(y.s.reader) == 0 ==>
                  && n.received == n.forwarded + n.crcDropped + n.malformed + n.intakeDropped + |Concat(y.lost)|
                  && n.forwarded == |Concat(y.sent)|)
  {
    StartInv<O>(c);
    RunInv(c, Start<O>(), events);
  }

  /** In every interleaving, the batches flushed so far, the open batch and the queue are
      exactly the accepted packets, in order and with the contents they were accepted with. */
  lemma OrderKept<O(!new)>(c: Config, events: seq<Event<O>>)
    requires Possible(c, Start<O>(), events)
    ensures var y := Run(c, Start<O>(), events);
            && y.accepted == Concat(y.flushed) + Contents(y.s.heap, Waiting(y.s))
            && (forall i :: 0 <= i < |y.flushed| ==> 1 <= |y.flushed[i]| <= BatchLimit(c))
            && (forall m :: m in y.accepted ==> c.intact(m))
            && |y.s.queue| <= c.queueDepth
  {
    StartInv<O>(c);
    RunInv(c, Start<O>(), events);
  }

  /** In every interleaving, each counter counts the datagrams with its verdict, among those the
      reader is done with; and the accepted packets are, in order, what the good ones say, less
      exactly as many as were dropped for lack of room. */
  lemma TrueToDatagrams<O(!new)>(c: Config, events: seq<Event<O>>)
    requires Possible(c, Start<O>(), events)
    ensures var y := Run(c, Start<O>(), events);
            var settled, n := Settled(y), y.s.counters;
            && n.received == |y.read| && settled <= y.read && |y.read| == |settled| + InHand(y.s.reader)
            && n.malformed == Tally(c, settled, Malformed) && n.crcDropped == Tally(c, settled, Damaged)
            && Subsequence(y.accepted, Goods(c, settled))
            && |Goods(c, settled)| == |y.accepted| + n.intakeDropped
  {
    StartInv<O>(c);
    RunInv(c, Start<O>(), events);
  }

  lemma {:induction false} GoodComesFrom(c: Config, read: seq<Bytes>, m: Message)
    requires m in Goods(c, read)
    ensures exists d :: d in read && c.decode(d) == Some(m) && c.intact(m)
  {
    var n := |read| - 1;
    var d := read[n];
    if Judge(c, d) == Good(m) {
      assert d in read && c.decode(d) == Some(m);
    } else {
      GoodComesFrom(c, read[..n], m);
      var e :| e in read[..n] && c.decode(e) == Some(m) && c.intact(m);
      assert e in read;
    }
  }

  /** In every interleaving, whatever is in a flushed batch is the decoding of a datagram that
      was read. */
  lemma FlushedWasRead<O(!new)>(c: Config, events: seq<Event<O>>, m: Message) returns (d: Bytes)
    requires Possible(c, Start<O>(), events) && m in Concat(Run(c, Start<O>(), events).flushed)
    ensures d in Run(c, Start<O>(), events).read && c.decode(d) == Some(m) && c.intact(m)
  {
    var y := Run(c, Start<O>(), events);
    OrderKept(c, events);
    TrueToDatagrams(c, events);
    SubsequenceMember(y.accepted, Goods(c, Settled(y)), m);
    GoodComesFrom(c, Settled(y), m);
    d :| d in Settled(y) && c.decode(d) == Some(m) && c.intact(m);
  }

  /** In every interleaving, each packet object is in exactly one of the pool, the reader, the
      batch and the queue, and there once. */
  lemma SingleOwner<O(!new)>(c: Config, events: seq<Event<O>>)
    requires Possible(c, Start<O>(), events)
    ensures var s := Run(c, Start<O>(), events).s;
            && Distinct(InReader(s.reader)) && Distinct(InBatch(s.forwarder)) && Distinct(s.queue)
            && (forall o :: o in s.heap <==>
                  o in s.pool || o in InReader(s.reader) || o in InBatch(s.forwarder) || o in s.queue)
            && (forall o :: o in s.pool ==>
                  o !in InReader(s.reader) && o !in InBatch(s.forwarder) && o !in s.queue)
            && (forall o :: o in InReader(s.reader) ==> o !in InBatch(s.forwarder) && o !in s.queue)
            && (forall o :: o in InBatch(s.forwarder) ==> o !in s.queue)
  {
    var s := Run(c, Start<O>(), events).s;
    StartInv<O>(c);
    RunInv(c, Start<O>(), events);
    PartsDistinct(InReader(s.reader), InBatch(s.forwarder) + s.queue);
    PartsDistinct(InBatch(s.forwarder), s.queue);
    assert forall o :: o in Places(s) <==> o in InReader(s.reader) || o in InBatch(s.forwarder) || o in s.queue;
  }

  /** A process that has stopped has sent on or lost every packet it accepted, in order. */
  lemma StoppedDrained<O(!new)>(c: Config, events: seq<Event<O>>)
    requires Possible(c, Start<O>(), events)
    ensures var y := Run(c, Start<O>(), events);
            y.s.forwarder.Stopped? ==>
              && y.accepted == Concat(y.flushed)
              && y.s.counters.received ==
                 y.s.counters.forwarded + y.s.counters.crcDropped + y.s.counters.malformed
                 + y.s.counters.intakeDropped + |Concat(y.lost)|
  {
    StartInv<O>(c);
    RunInv(c, Start<O>(), events);
  }
}

/** The receiver with the checksum test it is built with. */
module IntakeIntegrity {
  import opened Basics
  import opened CyclicCode
  import opened BitStrings
  import opened PacketChecksum
  import opened Receiving
  import R = ReceiverSafety

  predicate Stamped(m: Message) {
    m.crc == Sum(m.packet)
  }

  ghost predicate ChecksSums(c: Config) {
    forall m :: c.intact(m) <==> Stamped(m)
  }

  /** In every interleaving, nothing reaches a batch unless its checksum is right. */
  lemma OnlyStampedForwarded<O(!new)>(c: Config, events: seq<Event<O>>, m: Message)
    requires ChecksSums(c) && R.Possible(c, R.Start<O>(), events)
    requires m in Concat(R.Run(c, R.Start<O>(), events).flushed)
    ensures Stamped(m)
  {
    R.OrderKept(c, events);
    assert m in R.Run(c, R.Start<O>(), events).accepted;
  }

  /** So a packet damaged on the way within 32 consecutive bits never reaches a batch, however
      often it arrives and whatever arrives beside it. */
  lemma DamagedNeverForwarded<O(!new)>(c: Config, events: seq<Event<O>>, sent: Message, got: Message, at: nat, n: nat)
    requires ChecksSums(c) && R.Possible(c, R.Start<O>(), events)
    requires Stamped(sent) && got.crc == sent.crc && got.packet != sent.packet && n <= 32
    requires ApartIn(DataBits(PacketChecksum.Checked(sent.packet)), DataBits(PacketChecksum.Checked(got.packet)), at, n)
    ensures got !in Concat(R.Run(c, R.Start<O>(), events).flushed)
  {
    if got in Concat(R.Run(c, R.Start<O>(), events).flushed) {
      OnlyStampedForwarded(c, events, got);
      BurstRejected(sent.packet, got.packet, at, n);
    }
  }
}
