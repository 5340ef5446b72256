/** The reassembly pipeline as a step machine with any number of threads: a packet is
    filed under the aggregator's lock; the thread that completes a block reconstructs
    and trims it on its own; the block is handed to the file tracker under the tracker's
    lock; the thread that completes a file joins and delivers it. */
module Reassembly {
  import opened Basics
  import opened Wire
  import opened ErasureCode
  import opened Partition
  import opened BlockCodec
  import opened Aggregation
  import FT = FileTracking

  /** The library, the code dimensions, and the file registered under each hash. */
  datatype Env = Env(lib: Library, p: Params, files: map<nat, Bytes>)

  /** What a busy thread is in the middle of. */
  datatype Job =
    | Assembling(ready: HandOff)
    | Tracking(a: FT.Assembled)
    | Joining(c: FT.Completion)

  datatype Delivery = Delivery(hash: nat, bytes: Bytes, receivers: set<nat>)

  datatype State = State(
    agg: Pools,
    trk: FT.Tracker,
    jobs: map<nat, Job>,
    failed: set<Key>,
    delivered: seq<Delivery>,
    log: seq<Report>
  )

  const INIT := State(EMPTY, FT.EMPTY, map[], {}, [], [])

  /** Reconstruct is told whether the helper process could be reached at all. */
  datatype Event =
    | Arrive(tid: nat, receiver: nat, packet: Packet)
    | Reconstruct(tid: nat, reachable: bool)
    | Track(tid: nat)
    | Deliver(tid: nat)

  ghost predicate Enabled(s: State, e: Event) {
    match e
    case Arrive(tid, _, _) => tid !in s.jobs && Consistent(s.agg)
    case Reconstruct(tid, _) => tid in s.jobs && s.jobs[tid].Assembling?
    case Track(tid) => tid in s.jobs && s.jobs[tid].Tracking?
    case Deliver(tid) => tid in s.jobs && s.jobs[tid].Joining?
  }

  /** Asks the helper for the data shards, joins them and trims the last block. */
  function Assemble(lib: Library, blockSize: nat, h: HandOff): Option<FT.Assembled> {
    var answer := Answer(lib, h.meta.kSymbols, h.meta.nSymbols, h.shards);
    if answer.Err? then None
    else
      var bytes := TrimBlock(Concat(answer.value), h.key.block, h.meta.totalBlocks, h.meta.fileSize, blockSize);
      Some(FT.Assembled(h.key.hash, h.key.block, h.meta.totalBlocks, bytes, h.receivers))
  }

  ghost function Next(env: Env, s: State, e: Event): State
    requires Enabled(s, e)
  {
    match e
    case Arrive(tid, receiver, packet) =>
      var (agg, ready) := Add(s.agg, receiver, packet);
      s.(agg := agg,
         log := s.log + [Report(receiver, packet)],
         jobs := if ready.Some? then s.jobs[tid := Assembling(ready.value)] else s.jobs)
    case Reconstruct(tid, reachable) =>
      var ready := s.jobs[tid].ready;
      var assembled := if reachable then Assemble(env.lib, env.p.BlockSize(), ready) else None;
      if assembled.Some? then s.(jobs := s.jobs[tid := Tracking(assembled.value)])
      else s.(jobs := s.jobs - {tid}, failed := s.failed + {ready.key})
    case Track(tid) =>
      var (trk, complete) := FT.Handle(s.trk, s.jobs[tid].a);
      s.(trk := trk,
         jobs := if complete.Some? then s.jobs[tid := Joining(complete.value)] else s.jobs - {tid})
    case Deliver(tid) =>
      var c := s.jobs[tid].c;
      var joined := FT.Join(c.blocks, c.total);
      s.(jobs := s.jobs - {tid},
         delivered := if joined.Some? then s.delivered + [Delivery(c.hash, joined.value, c.receivers)] else s.delivered)
  }

  // ----- honest packets

  ghost predicate Registered(env: Env, hash: nat, block: nat) {
    && env.p.Valid()
    && hash in env.files
    && block < Total(env, hash)
  }

  ghost function Total(env: Env, hash: nat): nat
    requires env.p.Valid() && hash in env.files
  {
    SizePositive(env.p);
    BlockCount(|env.files[hash]|, env.p.BlockSize())
  }

  lemma SizePositive(p: Params)
    requires p.Valid()
    ensures p.BlockSize() > 0
  {
    MulMono(1, p.k, p.s);
  }

  /** Block b of the file registered under a hash. */
  ghost function Truth(env: Env, hash: nat, block: nat): (r: Bytes)
    requires Registered(env, hash, block)
    ensures |r| <= env.p.BlockSize()
  {
    SizePositive(env.p);
    Block(env.files[hash], env.p.BlockSize(), block)
  }

  ghost function TrueSymbols(env: Env, hash: nat, block: nat): seq<Bytes>
    requires Registered(env, hash, block)
  {
    Symbols(env.lib, env.p, Truth(env, hash, block))
  }

  ghost function TrueMeta(env: Env, hash: nat): Meta
    requires env.p.Valid() && hash in env.files
  {
    Meta(env.p.k, env.p.N(), |env.files[hash]|, Total(env, hash))
  }

  /** The packet is a symbol of the file registered under its hash, with that file's metadata. */
  ghost predicate Honest(env: Env, packet: Packet) {
    && Registered(env, packet.fileHash, packet.blockId)
    && MetaOf(packet) == TrueMeta(env, packet.fileHash)
    && var symbols := TrueSymbols(env, packet.fileHash, packet.blockId);
       packet.symbolId < |symbols| == env.p.N() && packet.content == symbols[packet.symbolId]
  }

  ghost predicate HonestLog(env: Env, log: seq<Report>) {
    forall i :: 0 <= i < |log| ==> Honest(env, log[i].packet)
  }

  /** Every entry is a true symbol of the block. */
  ghost predicate TrueShards(env: Env, key: Key, shards: map<nat, Bytes>) {
    && Registered(env, key.hash, key.block)
    && var symbols := TrueSymbols(env, key.hash, key.block);
       |symbols| == env.p.N() && forall id :: id in shards ==> id < env.p.N() && shards[id] == symbols[id]
  }

  lemma {:induction false} ReceivedHonest(env: Env, log: seq<Report>, key: Key)
    requires HonestLog(env, log) && Received(log, key) != map[]
    ensures TrueShards(env, key, Received(log, key))
    ensures LatestMeta(log, key) == Some(TrueMeta(env, key.hash))
  {
    var front, p := log[..|log| - 1], log[|log| - 1].packet;
    assert Honest(env, p);
    if Received(front, key) != map[] {
      ReceivedHonest(env, front, key);
    }
  }

  /** An honest block is handed off as soon as K distinct symbols of it have arrived. */
  lemma {:induction false} HandedOffByCount(env: Env, log: seq<Report>, key: Key)
    requires HonestLog(env, log) && env.p.Valid()
    ensures HandedOff(log, key) <==> |Received(log, key)| >= env.p.k
  {
    if log == [] {
    } else {
      var front, p := log[..|log| - 1], log[|log| - 1].packet;
      assert Honest(env, p);
      HandedOffByCount(env, front, key);
    }
  }

  // ----- safety

  ghost predicate GoodJob(env: Env, job: Job) {
    match job
    case Assembling(h) =>
      TrueShards(env, h.key, h.shards) && h.meta == TrueMeta(env, h.key.hash) && |h.shards| == env.p.k
    case Tracking(a) =>
      && Registered(env, a.hash, a.block)
      && a.total == Total(env, a.hash) && a.bytes == Truth(env, a.hash, a.block)
    case Joining(c) =>
      && Registered(env, c.hash, 0)
      && c.total == Total(env, c.hash)
      && forall b: nat :: b < c.total ==> b in c.blocks && c.blocks[b] == Truth(env, c.hash, b)
  }

  /** The tracker holds true blocks of an unfinished file, fewer than the file has. */
  ghost predicate GoodFile(env: Env, trk: FT.Tracker, hash: nat)
    requires hash in trk.blocks
  {
    && env.p.Valid() && hash in env.files
    && hash !in trk.completed
    && |trk.blocks[hash]| < Total(env, hash)
    && forall b :: b in trk.blocks[hash] ==> b < Total(env, hash) && trk.blocks[hash][b] == Truth(env, hash, b)
  }

  ghost predicate GoodDelivery(env: Env, d: Delivery) {
    d.hash in env.files && d.bytes == env.files[d.hash]
  }

  ghost predicate Safe(env: Env, s: State) {
    && env.p.Valid() && AnyKOfN(env.lib, env.p.k, env.p.m)
    && Represents(s.agg, s.log) && HonestLog(env, s.log)
    && (forall tid :: tid in s.jobs ==> GoodJob(env, s.jobs[tid]))
    && (forall hash :: hash in s.trk.blocks ==> GoodFile(env, s.trk, hash))
    && (forall i :: 0 <= i < |s.delivered| ==> GoodDelivery(env, s.delivered[i]))
  }

  lemma ArriveSafe(env: Env, s: State, tid: nat, receiver: nat, packet: Packet)
    requires Safe(env, s) && tid !in s.jobs && Honest(env, packet)
    ensures Safe(env, Next(env, s, Arrive(tid, receiver, packet)))
  {
    var s' := Next(env, s, Arrive(tid, receiver, packet));
    AddRepresents(s.agg, s.log, receiver, packet);
    var ready := Add(s.agg, receiver, packet).1;
    if ready.Some? {
      HandOffGood(env, s.log, receiver, packet, ready.value);
    }
  }

  /** A hand-off carries exactly K distinct true symbols and the file's metadata. */
  lemma HandOffGood(env: Env, log: seq<Report>, receiver: nat, packet: Packet, h: HandOff)
    requires HonestLog(env, log) && Honest(env, packet)
    requires !HandedOff(log, KeyOf(packet)) && HandedOff(log + [Report(receiver, packet)], KeyOf(packet))
    requires CarriesLog(h, log + [Report(receiver, packet)], KeyOf(packet))
    ensures GoodJob(env, Assembling(h))
  {
    var log' := log + [Report(receiver, packet)];
    var key := KeyOf(packet);
    Append(log, receiver, packet, key);
    HandedOffByCount(env, log, key);
    HandedOffByCount(env, log', key);
    ReceivedHonest(env, log', key);
  }

  /** Reconstructing and trimming a hand-off gives back the block that was cut from the file. */
  lemma AssembleRestores(env: Env, h: HandOff)
    requires AnyKOfN(env.lib, env.p.k, env.p.m) && GoodJob(env, Assembling(h))
    ensures Assemble(env.lib, env.p.BlockSize(), h) ==
            Some(FT.Assembled(h.key.hash, h.key.block, Total(env, h.key.hash),
                              Truth(env, h.key.hash, h.key.block), h.receivers))
  {
    var block := Truth(env, h.key.hash, h.key.block);
    AnswerRecovers(env.lib, env.p, block, h.shards);
    ShardsConcat(block, env.p.k, env.p.s);
    SizePositive(env.p);
    TrimUndoesPad(env.files[h.key.hash], env.p.BlockSize(), h.key.block);
  }

  lemma ReconstructSafe(env: Env, s: State, tid: nat, reachable: bool)
    requires Safe(env, s) && tid in s.jobs && s.jobs[tid].Assembling?
    ensures Safe(env, Next(env, s, Reconstruct(tid, reachable)))
  {
    assert GoodJob(env, s.jobs[tid]);
    AssembleRestores(env, s.jobs[tid].ready);
  }

  /** The count test closes a file only when every block 0..T-1 is there. */
  lemma CompletionGood(env: Env, trk: FT.Tracker, a: FT.Assembled)
    requires GoodJob(env, Tracking(a)) && a.hash !in trk.completed
    requires a.hash in trk.blocks ==> GoodFile(env, trk, a.hash)
    ensures var blocks := FT.BlocksOf(trk, a.hash)[a.block := a.bytes];
            && (forall b :: b in blocks ==> b < a.total && blocks[b] == Truth(env, a.hash, b))
            && |blocks| <= a.total
            && (|blocks| == a.total ==> blocks.Keys == Range(a.total))
  {
    var blocks := FT.BlocksOf(trk, a.hash)[a.block := a.bytes];
    FullRange(blocks.Keys, a.total);
  }

  lemma TrackSafe(env: Env, s: State, tid: nat)
    requires Safe(env, s) && tid in s.jobs && s.jobs[tid].Tracking?
    ensures Safe(env, Next(env, s, Track(tid)))
  {
    var a := s.jobs[tid].a;
    var s' := Next(env, s, Track(tid));
    assert GoodJob(env, s.jobs[tid]);
    assert s'.agg == s.agg && s'.log == s.log && s'.delivered == s.delivered;
    if a.hash in s.trk.completed {
      assert s'.trk == s.trk;
    } else {
      HandleSafe(env, s.trk, a);
    }
  }

  lemma HandleSafe(env: Env, trk: FT.Tracker, a: FT.Assembled)
    requires GoodJob(env, Tracking(a)) && a.hash !in trk.completed
    requires forall hash :: hash in trk.blocks ==> GoodFile(env, trk, hash)
    ensures var (trk', complete) := FT.Handle(trk, a);
            && (forall hash :: hash in trk'.blocks ==> GoodFile(env, trk', hash))
            && (complete.Some? ==> GoodJob(env, Joining(complete.value)))
  {
    var trk' := FT.Handle(trk, a).0;
    ThisFileGood(env, trk, a);
    forall hash | hash in trk'.blocks
      ensures GoodFile(env, trk', hash)
    {
      if hash != a.hash {
        OtherFileGood(env, trk, a, hash);
      }
    }
  }

  lemma ThisFileGood(env: Env, trk: FT.Tracker, a: FT.Assembled)
    requires GoodJob(env, Tracking(a)) && a.hash !in trk.completed
    requires a.hash in trk.blocks ==> GoodFile(env, trk, a.hash)
    ensures var (trk', complete) := FT.Handle(trk, a);
            && (a.hash in trk'.blocks ==> GoodFile(env, trk', a.hash))
            && (complete.Some? ==> GoodJob(env, Joining(complete.value)))
  {
    CompletionGood(env, trk, a);
    var blocks := FT.BlocksOf(trk, a.hash)[a.block := a.bytes];
    var (trk', complete) := FT.Handle(trk, a);
    if |blocks| < a.total {
      assert trk'.blocks[a.hash] == blocks && complete == None;
      assert GoodFile(env, trk', a.hash);
    } else {
      assert complete.value.blocks == blocks && complete.value.total == a.total && a.hash !in trk'.blocks;
      FullFileGood(env, a, complete.value);
    }
  }

  lemma FullFileGood(env: Env, a: FT.Assembled, c: FT.Completion)
    requires GoodJob(env, Tracking(a)) && c.hash == a.hash && c.total == a.total
    requires c.blocks.Keys == Range(a.total)
    requires forall b :: b in c.blocks ==> b < a.total && c.blocks[b] == Truth(env, a.hash, b)
    ensures GoodJob(env, Joining(c))
  {
    forall b: nat | b < c.total
      ensures b in c.blocks && c.blocks[b] == Truth(env, c.hash, b)
    {
      assert b in c.blocks.Keys;
    }
  }

  lemma OtherFileGood(env: Env, trk: FT.Tracker, a: FT.Assembled, hash: nat)
    requires hash in trk.blocks && GoodFile(env, trk, hash) && hash != a.hash
    ensures hash in FT.Handle(trk, a).0.blocks && GoodFile(env, FT.Handle(trk, a).0, hash)
  {
  }

  lemma DeliverSafe(env: Env, s: State, tid: nat)
    requires Safe(env, s) && tid in s.jobs && s.jobs[tid].Joining?
    ensures Safe(env, Next(env, s, Deliver(tid)))
  {
    var c := s.jobs[tid].c;
    assert GoodJob(env, s.jobs[tid]);
    JoinRestores(env, c);
  }

  lemma JoinRestores(env: Env, c: FT.Completion)
    requires GoodJob(env, Joining(c))
    ensures FT.Join(c.blocks, c.total) == Some(env.files[c.hash])
  {
    SizePositive(env.p);
    var file, size := env.files[c.hash], env.p.BlockSize();
    forall b | 0 <= b < c.total
      ensures b in c.blocks && c.blocks[b] == Blocks(file, size)[b]
    {
      assert c.blocks[b] == Truth(env, c.hash, b);
    }
    FT.JoinConcat(c.blocks, Blocks(file, size));
    BlocksConcat(file, size);
  }

  // ----- runs

  /** A step of the machine fed with honest packets. */
  ghost predicate HonestStep(env: Env, s: State, e: Event, s': State) {
    && Enabled(s, e)
    && (e.Arrive? ==> Honest(env, e.packet))
    && s' == Next(env, s, e)
  }

  /** Any interleaving of any number of threads, from the empty state. */
  ghost predicate HonestRun(env: Env, events: seq<Event>, states: seq<State>) {
    && env.p.Valid() && AnyKOfN(env.lib, env.p.k, env.p.m)
    && |states| == |events| + 1
    && states[0] == INIT
    && forall i :: 0 <= i < |events| ==> HonestStep(env, states[i], events[i], states[i + 1])
  }

  lemma StepSafe(env: Env, s: State, e: Event, s': State)
    requires Safe(env, s) && HonestStep(env, s, e, s')
    ensures Safe(env, s')
  {
    match e
    case Arrive(tid, receiver, packet) => ArriveSafe(env, s, tid, receiver, packet);
    case Reconstruct(tid, reachable) => ReconstructSafe(env, s, tid, reachable);
    case Track(tid) => TrackSafe(env, s, tid);
    case Deliver(tid) => DeliverSafe(env, s, tid);
  }

  lemma {:induction false} RunSafe(env: Env, events: seq<Event>, states: seq<State>, i: nat)
    requires HonestRun(env, events, states) && i < |states|
    ensures Safe(env, states[i])
  {
    if i == 0 {
      EmptyRepresents();
    } else {
      RunSafe(env, events, states, i - 1);
      StepSafe(env, states[i - 1], events[i - 1], states[i]);
    }
  }

  /** End-to-end safety: whatever is lost, repeated or reordered and however the threads
      interleave, every file delivered is the registered file, byte for byte. */
  lemma DeliveredFilesAreExact(env: Env, events: seq<Event>, states: seq<State>, i: nat, d: Delivery)
    requires HonestRun(env, events, states) && i < |states| && d in states[i].delivered
    ensures d.hash in env.files && d.bytes == env.files[d.hash]
  {
    RunSafe(env, events, states, i);
    assert GoodDelivery(env, d);
  }
}
