/** Who holds each block in every reachable state of the reassembly pipeline, and when
    exactly a file completes. */
module Completion {
  import opened Basics
  import opened Wire
  import opened Partition
  import opened Aggregation
  import opened Reassembly
  import FT = FileTracking

  /** The block a thread is carrying between the aggregator and the tracker. */
  function Carried(job: Job): Option<Key> {
    match job
    case Assembling(h) => Some(h.key)
    case Tracking(a) => Some(Key(a.hash, a.block))
    case Joining(_) => None
  }

  ghost predicate HeldBy(s: State, tid: nat, key: Key) {
    tid in s.jobs && Carried(s.jobs[tid]) == Some(key)
  }

  ghost predicate Held(s: State, key: Key) {
    exists tid :: HeldBy(s, tid, key)
  }

  ghost predicate Tracked(s: State, key: Key) {
    FT.Holds(s.trk, key.hash, key.block)
  }

  ghost predicate JoiningBy(s: State, tid: nat, hash: nat) {
    tid in s.jobs && s.jobs[tid].Joining? && s.jobs[tid].c.hash == hash
  }

  ghost predicate Delivered(s: State, hash: nat) {
    exists i :: 0 <= i < |s.delivered| && s.delivered[i].hash == hash
  }

  /** A block in flight has left the aggregator and reached nobody else. */
  ghost predicate InFlight(s: State, key: Key) {
    && key in s.agg.completed && key !in s.failed
    && !Tracked(s, key) && key.hash !in s.trk.completed
  }

  /** A block that left the aggregator is somewhere. */
  ghost predicate Accounted(s: State, key: Key) {
    Held(s, key) || key in s.failed || Tracked(s, key) || key.hash in s.trk.completed
  }

  /** A finished file had all its blocks and is on its way out or delivered. */
  ghost predicate Finished(env: Env, s: State, hash: nat) {
    && Registered(env, hash, 0)
    && (forall b: nat :: b < Total(env, hash) ==> Key(hash, b) in s.agg.completed)
    && (Delivered(s, hash) || exists tid :: JoiningBy(s, tid, hash))
  }

  ghost predicate HeldApart(s: State) {
    && (forall tid, key :: HeldBy(s, tid, key) ==> InFlight(s, key))
    && (forall t, u, key :: HeldBy(s, t, key) && HeldBy(s, u, key) ==> t == u)
  }

  ghost predicate FailedApart(s: State) {
    forall key :: key in s.failed ==>
      key in s.agg.completed && !Tracked(s, key) && key.hash !in s.trk.completed
  }

  ghost predicate AllAccounted(s: State) {
    && (forall key :: Tracked(s, key) ==> key in s.agg.completed)
    && (forall key :: key in s.agg.completed ==> Accounted(s, key))
  }

  ghost predicate AllFinished(env: Env, s: State) {
    forall hash :: hash in s.trk.completed ==> Finished(env, s, hash)
  }

  ghost predicate DeliveredOnce(s: State) {
    && (forall tid, hash :: JoiningBy(s, tid, hash) ==> hash in s.trk.completed && !Delivered(s, hash))
    && (forall t, u, hash :: JoiningBy(s, t, hash) && JoiningBy(s, u, hash) ==> t == u)
    && (forall i :: 0 <= i < |s.delivered| ==> s.delivered[i].hash in s.trk.completed)
    && (forall i, j :: 0 <= i < j < |s.delivered| ==> s.delivered[i].hash != s.delivered[j].hash)
  }

  ghost predicate Owned(env: Env, s: State) {
    HeldApart(s) && FailedApart(s) && AllAccounted(s) && AllFinished(env, s) && DeliveredOnce(s)
  }

  // ----- the kinds of change a step makes to ownership

  /** A block leaves the aggregator in the hands of an idle thread. */
  lemma HandOffOwned(env: Env, s: State, s': State, tid: nat, job: Job, key: Key)
    requires Owned(env, s)
    requires tid !in s.jobs && Carried(job) == Some(key) && key !in s.agg.completed
    requires s'.agg.completed == s.agg.completed + {key} && s'.jobs == s.jobs[tid := job]
    requires s'.trk == s.trk && s'.failed == s.failed && s'.delivered == s.delivered
    requires key.hash !in s.trk.completed
    ensures Owned(env, s')
  {
    assert forall t, k :: HeldBy(s', t, k) <==> HeldBy(s, t, k) || (t == tid && k == key);
    assert forall t, hash :: JoiningBy(s', t, hash) <==> JoiningBy(s, t, hash);
    assert forall k :: Tracked(s', k) <==> Tracked(s, k);
    assert HeldApart(s');
    assert HeldBy(s', tid, key);
    assert AllAccounted(s');
    assert AllFinished(env, s');
    assert DeliveredOnce(s');
  }

  /** The thread moves on with the same block. */
  lemma CarryOwned(env: Env, s: State, s': State, tid: nat, job: Job, key: Key)
    requires Owned(env, s) && HeldBy(s, tid, key) && Carried(job) == Some(key)
    requires s' == s.(jobs := s.jobs[tid := job])
    ensures Owned(env, s')
  {
    assert forall t, k :: HeldBy(s', t, k) <==> HeldBy(s, t, k);
    assert forall t, hash :: JoiningBy(s', t, hash) <==> JoiningBy(s, t, hash);
    assert forall k :: Tracked(s', k) <==> Tracked(s, k);
    assert HeldApart(s') && AllAccounted(s') && AllFinished(env, s') && DeliveredOnce(s');
  }

  /** The thread gives its block up after a failed reconstruction. */
  lemma FailOwned(env: Env, s: State, s': State, tid: nat, key: Key)
    requires Owned(env, s) && HeldBy(s, tid, key)
    requires s' == s.(jobs := s.jobs - {tid}, failed := s.failed + {key})
    ensures Owned(env, s')
  {
    assert forall t, k :: HeldBy(s', t, k) <==> HeldBy(s, t, k) && t != tid;
    assert forall t, hash :: JoiningBy(s', t, hash) <==> JoiningBy(s, t, hash);
    assert forall k :: Tracked(s', k) <==> Tracked(s, k);
    assert HeldApart(s') && FailedApart(s') && AllFinished(env, s') && DeliveredOnce(s');
    forall k | k in s'.agg.completed
      ensures Accounted(s', k)
    {
      HeldElsewhere(s, s', tid, key, k);
    }
  }

  /** When a thread puts its block down, every other block stays in its holder's hands. */
  lemma HeldElsewhere(s: State, s': State, tid: nat, key: Key, other: Key)
    requires HeldBy(s, tid, key)
    requires forall t, k :: HeldBy(s', t, k) <==> HeldBy(s, t, k) && t != tid
    ensures other != key && Held(s, other) ==> Held(s', other)
  {
    if other != key && Held(s, other) {
      var t :| HeldBy(s, t, other);
      assert HeldBy(s', t, other);
    }
  }

  /** The thread leaves its block with the tracker; the file is not complete yet. */
  lemma FileOwned(env: Env, s: State, s': State, tid: nat, key: Key)
    requires Owned(env, s) && HeldBy(s, tid, key)
    requires s'.agg == s.agg && s'.jobs == s.jobs - {tid} && s'.failed == s.failed && s'.delivered == s.delivered
    requires s'.trk.completed == s.trk.completed
    requires forall k :: Tracked(s', k) <==> Tracked(s, k) || k == key
    ensures Owned(env, s')
  {
    assert forall t, k :: HeldBy(s', t, k) <==> HeldBy(s, t, k) && t != tid;
    assert forall t, hash :: JoiningBy(s', t, hash) <==> JoiningBy(s, t, hash);
    assert InFlight(s, key);
    assert HeldApart(s') && FailedApart(s') && AllFinished(env, s') && DeliveredOnce(s');
    forall k | k in s'.agg.completed
      ensures Accounted(s', k)
    {
      HeldElsewhere(s, s', tid, key, k);
    }
  }

  /** The thread's block is the last one missing: the file leaves the tracker with it. */
  lemma CompleteOwned(env: Env, s: State, s': State, tid: nat, key: Key, job: Job)
    requires Owned(env, s) && HeldBy(s, tid, key) && job.Joining? && job.c.hash == key.hash
    requires s'.agg == s.agg && s'.jobs == s.jobs[tid := job] && s'.failed == s.failed && s'.delivered == s.delivered
    requires s'.trk.completed == s.trk.completed + {key.hash}
    requires forall k :: Tracked(s', k) <==> Tracked(s, k) && k.hash != key.hash
    requires Registered(env, key.hash, 0)
    requires forall b: nat :: b < Total(env, key.hash) && b != key.block ==> Tracked(s, Key(key.hash, b))
    requires forall k :: k in s.agg.completed && k.hash == key.hash ==> k.block < Total(env, key.hash)
    ensures Owned(env, s')
  {
    assert InFlight(s, key);
    assert forall t, k :: HeldBy(s', t, k) <==> HeldBy(s, t, k) && t != tid;
    assert forall t, hash :: JoiningBy(s', t, hash) <==> JoiningBy(s, t, hash) || (t == tid && hash == key.hash);
    forall t, k | HeldBy(s', t, k)
      ensures InFlight(s', k)
    {
      assert InFlight(s, k);
      SiblingsTracked(env, s, key, k);
    }
    forall k | k in s'.failed
      ensures k in s'.agg.completed && !Tracked(s', k) && k.hash !in s'.trk.completed
    {
      SiblingsTracked(env, s, key, k);
    }
    forall k | k in s'.agg.completed
      ensures Accounted(s', k)
    {
      HeldElsewhere(s, s', tid, key, k);
    }
    forall b: nat | b < Total(env, key.hash)
      ensures Key(key.hash, b) in s'.agg.completed
    {
      assert b != key.block ==> Tracked(s, Key(key.hash, b));
    }
    assert JoiningBy(s', tid, key.hash);
    FinishedLater(env, s, s');
  }

  /** A block of the completing file that is neither tracked nor the last one does not exist. */
  lemma SiblingsTracked(env: Env, s: State, key: Key, other: Key)
    requires Registered(env, key.hash, 0)
    requires forall b: nat :: b < Total(env, key.hash) && b != key.block ==> Tracked(s, Key(key.hash, b))
    requires forall k :: k in s.agg.completed && k.hash == key.hash ==> k.block < Total(env, key.hash)
    requires other in s.agg.completed && !Tracked(s, other) && other != key
    ensures other.hash != key.hash
  {
    assert other == Key(other.hash, other.block);
  }

  /** Files already finished stay finished while no thread that joins them moves. */
  lemma FinishedLater(env: Env, s: State, s': State)
    requires AllFinished(env, s) && s'.agg.completed == s.agg.completed && s'.delivered == s.delivered
    requires forall t, hash :: JoiningBy(s, t, hash) ==> JoiningBy(s', t, hash)
    ensures forall hash :: hash in s.trk.completed ==> Finished(env, s', hash)
  {
    forall hash | hash in s.trk.completed
      ensures Finished(env, s', hash)
    {
      assert Finished(env, s, hash);
      if !Delivered(s, hash) {
        var t :| JoiningBy(s, t, hash);
        assert JoiningBy(s', t, hash);
      }
    }
  }

  /** The thread delivers the file it joined. */
  lemma DeliverOwned(env: Env, s: State, s': State, tid: nat, d: Delivery)
    requires Owned(env, s) && JoiningBy(s, tid, d.hash)
    requires s' == s.(jobs := s.jobs - {tid}, delivered := s.delivered + [d])
    ensures Owned(env, s')
  {
    assert forall t, k :: HeldBy(s', t, k) <==> HeldBy(s, t, k);
    assert forall t, hash :: JoiningBy(s', t, hash) <==> JoiningBy(s, t, hash) && t != tid;
    assert forall k :: Tracked(s', k) <==> Tracked(s, k);
    assert HeldApart(s') && FailedApart(s') && AllAccounted(s');
    assert s'.delivered[|s.delivered|] == d;
    forall hash
      ensures Delivered(s', hash) <==> Delivered(s, hash) || hash == d.hash
    {
      if Delivered(s, hash) {
        var i :| 0 <= i < |s.delivered| && s.delivered[i].hash == hash;
        assert s'.delivered[i].hash == hash;
      }
    }
    forall hash | hash in s'.trk.completed
      ensures Finished(env, s', hash)
    {
      assert Finished(env, s, hash);
      if !Delivered(s', hash) {
        var t :| JoiningBy(s, t, hash);
        assert JoiningBy(s', t, hash);
      }
    }
    assert DeliveredOnce(s');
  }

  // ----- every step keeps ownership

  /** A handed-off block is a block of a registered file. */
  lemma CompletedRegistered(env: Env, s: State, key: Key)
    requires Safe(env, s) && key in s.agg.completed
    ensures Registered(env, key.hash, key.block)
  {
    assert RepresentsAt(s.agg, s.log, key);
    HandedOffByCount(env, s.log, key);
    ReceivedHonest(env, s.log, key);
  }

  lemma ArriveOwned(env: Env, s: State, tid: nat, receiver: nat, packet: Packet)
    requires Safe(env, s) && Owned(env, s) && tid !in s.jobs && Honest(env, packet)
    ensures Owned(env, Next(env, s, Arrive(tid, receiver, packet)))
  {
    var s' := Next(env, s, Arrive(tid, receiver, packet));
    var key := KeyOf(packet);
    assert s'.trk == s.trk && s'.failed == s.failed && s'.delivered == s.delivered;
    if Add(s.agg, receiver, packet).1.Some? {
      assert key.hash in s.trk.completed ==> Finished(env, s, key.hash);
      HandOffOwned(env, s, s', tid, s'.jobs[tid], key);
    } else {
      QuietOwned(env, s, s');
    }
  }

  /** A packet that completes nothing changes no ownership. */
  lemma QuietOwned(env: Env, s: State, s': State)
    requires Owned(env, s) && s'.agg.completed == s.agg.completed
    requires s'.trk == s.trk && s'.jobs == s.jobs && s'.failed == s.failed && s'.delivered == s.delivered
    ensures Owned(env, s')
  {
    assert forall t, k :: HeldBy(s', t, k) <==> HeldBy(s, t, k);
    assert forall t, hash :: JoiningBy(s', t, hash) <==> JoiningBy(s, t, hash);
    assert forall k :: Tracked(s', k) <==> Tracked(s, k);
    assert HeldApart(s') && AllAccounted(s') && AllFinished(env, s') && DeliveredOnce(s');
  }

  lemma ReconstructOwned(env: Env, s: State, tid: nat, reachable: bool)
    requires Safe(env, s) && Owned(env, s) && tid in s.jobs && s.jobs[tid].Assembling?
    ensures Owned(env, Next(env, s, Reconstruct(tid, reachable)))
  {
    var s' := Next(env, s, Reconstruct(tid, reachable));
    var ready := s.jobs[tid].ready;
    assert HeldBy(s, tid, ready.key);
    if tid in s'.jobs {
      CarryOwned(env, s, s', tid, s'.jobs[tid], ready.key);
    } else {
      FailOwned(env, s, s', tid, ready.key);
    }
  }

  /** A block of an unfinished file that reaches the tracker is added to it, or takes the
      whole file out. */
  lemma TrackEffect(env: Env, s: State, s': State, tid: nat, a: FT.Assembled)
    requires tid in s.jobs && s.jobs[tid] == Tracking(a) && a.hash !in s.trk.completed
    requires s' == Next(env, s, Track(tid))
    ensures tid in s'.jobs <==> |FT.BlocksOf(s.trk, a.hash)[a.block := a.bytes]| >= a.total
    ensures tid in s'.jobs ==>
              && s'.jobs[tid].Joining? && s'.jobs[tid].c.hash == a.hash && s'.jobs == s.jobs[tid := s'.jobs[tid]]
              && s'.trk.completed == s.trk.completed + {a.hash}
              && forall k :: Tracked(s', k) <==> Tracked(s, k) && k.hash != a.hash
    ensures tid !in s'.jobs ==>
              && s'.jobs == s.jobs - {tid} && s'.trk.completed == s.trk.completed
              && forall k :: Tracked(s', k) <==> Tracked(s, k) || k == Key(a.hash, a.block)
  {
    TrackStep(env, s, s', tid, a);
    forall k
      ensures if tid in s'.jobs then Tracked(s', k) <==> Tracked(s, k) && k.hash != a.hash
              else Tracked(s', k) <==> Tracked(s, k) || k == Key(a.hash, a.block)
    {
      TrackedAfter(s, s', a, k);
    }
  }

  lemma TrackedAfter(s: State, s': State, a: FT.Assembled, k: Key)
    requires a.hash !in s.trk.completed && s'.trk == FT.Handle(s.trk, a).0
    ensures if FT.Handle(s.trk, a).1.Some? then Tracked(s', k) <==> Tracked(s, k) && k.hash != a.hash
            else Tracked(s', k) <==> Tracked(s, k) || k == Key(a.hash, a.block)
  {
    FT.HandleEffect(s.trk, a);
    assert FT.Holds(s.trk, k.hash, k.block) == Tracked(s, k) && FT.Holds(s'.trk, k.hash, k.block) == Tracked(s', k);
  }

  lemma TrackStep(env: Env, s: State, s': State, tid: nat, a: FT.Assembled)
    requires tid in s.jobs && s.jobs[tid] == Tracking(a) && a.hash !in s.trk.completed
    requires s' == Next(env, s, Track(tid))
    ensures var (trk, complete) := FT.Handle(s.trk, a);
            && s'.trk == trk
            && s'.jobs == (if complete.Some? then s.jobs[tid := Joining(complete.value)] else s.jobs - {tid})
            && (complete.Some? <==> |FT.BlocksOf(s.trk, a.hash)[a.block := a.bytes]| >= a.total)
            && (complete.Some? ==> complete.value.hash == a.hash && trk.completed == s.trk.completed + {a.hash})
            && (complete.None? ==> trk.completed == s.trk.completed)
  {
    FT.HandleEffect(s.trk, a);
  }

  lemma TrackOwned(env: Env, s: State, tid: nat)
    requires Safe(env, s) && Owned(env, s) && tid in s.jobs && s.jobs[tid].Tracking?
    ensures Owned(env, Next(env, s, Track(tid)))
  {
    var s' := Next(env, s, Track(tid));
    var a := s.jobs[tid].a;
    var key := Key(a.hash, a.block);
    assert HeldBy(s, tid, key) && InFlight(s, key) && GoodJob(env, s.jobs[tid]);
    TrackEffect(env, s, s', tid, a);
    if tid in s'.jobs {
      CompletingSiblings(env, s, a);
      forall k | k in s.agg.completed
        ensures Registered(env, k.hash, k.block)
      {
        CompletedRegistered(env, s, k);
      }
      CompleteOwned(env, s, s', tid, key, s'.jobs[tid]);
    } else {
      FileOwned(env, s, s', tid, key);
    }
  }

  lemma CompletingSiblings(env: Env, s: State, a: FT.Assembled)
    requires GoodJob(env, Tracking(a)) && a.hash !in s.trk.completed
    requires a.hash in s.trk.blocks ==> GoodFile(env, s.trk, a.hash)
    requires |FT.BlocksOf(s.trk, a.hash)[a.block := a.bytes]| >= a.total
    ensures forall b: nat :: b < Total(env, a.hash) && b != a.block ==> Tracked(s, Key(a.hash, b))
  {
    CompletionGood(env, s.trk, a);
    var blocks := FT.BlocksOf(s.trk, a.hash)[a.block := a.bytes];
    forall b: nat | b < Total(env, a.hash) && b != a.block
      ensures Tracked(s, Key(a.hash, b))
    {
      assert b in blocks.Keys;
    }
  }

  lemma DeliverStepOwned(env: Env, s: State, tid: nat)
    requires Safe(env, s) && Owned(env, s) && tid in s.jobs && s.jobs[tid].Joining?
    ensures Owned(env, Next(env, s, Deliver(tid)))
  {
    var s' := Next(env, s, Deliver(tid));
    var c := s.jobs[tid].c;
    assert GoodJob(env, s.jobs[tid]) && JoiningBy(s, tid, c.hash);
    JoinRestores(env, c);
    DeliverOwned(env, s, s', tid, Delivery(c.hash, env.files[c.hash], c.receivers));
  }

  lemma StepOwned(env: Env, s: State, e: Event, s': State)
    requires Safe(env, s) && Owned(env, s) && HonestStep(env, s, e, s')
    ensures Owned(env, s')
  {
    match e
    case Arrive(tid, receiver, packet) => ArriveOwned(env, s, tid, receiver, packet);
    case Reconstruct(tid, reachable) => ReconstructOwned(env, s, tid, reachable);
    case Track(tid) => TrackOwned(env, s, tid);
    case Deliver(tid) => DeliverStepOwned(env, s, tid);
  }

  lemma InitOwned(env: Env)
    ensures Owned(env, INIT)
  {
  }

  lemma NextOwned(env: Env, events: seq<Event>, states: seq<State>, i: nat)
    requires HonestRun(env, events, states) && i < |events| && Owned(env, states[i])
    ensures Owned(env, states[i + 1])
  {
    RunSafe(env, events, states, i);
    StepOwned(env, states[i], events[i], states[i + 1]);
  }

  lemma {:induction false} RunOwned(env: Env, events: seq<Event>, states: seq<State>, i: nat)
    requires HonestRun(env, events, states) && i < |states|
    ensures Owned(env, states[i])
  {
    if i == 0 {
      InitOwned(env);
    } else {
      RunOwned(env, events, states, i - 1);
      NextOwned(env, events, states, i - 1);
    }
  }

  // ----- single ownership

  /** Where a block can be. */
  datatype Place = Nowhere | Pending | InHand(tid: nat) | AtTracker | InFinishedFile | Lost

  ghost predicate At(s: State, key: Key, place: Place) {
    match place
    case Nowhere => key !in s.agg.shards && key !in s.agg.completed
    case Pending => key in s.agg.shards
    case InHand(tid) => HeldBy(s, tid, key)
    case AtTracker => Tracked(s, key)
    case InFinishedFile => key.hash in s.trk.completed && key in s.agg.completed
    case Lost => key in s.failed
  }

  /** In every reachable state each block is in exactly one place. */
  lemma SingleOwner(env: Env, events: seq<Event>, states: seq<State>, i: nat, key: Key)
    requires HonestRun(env, events, states) && i < |states|
    ensures exists place :: At(states[i], key, place)
    ensures forall a, b :: At(states[i], key, a) && At(states[i], key, b) ==> a == b
  {
    var s := states[i];
    RunSafe(env, events, states, i);
    RunOwned(env, events, states, i);
    assert RepresentsAt(s.agg, s.log, key);
    if key in s.agg.shards {
      assert At(s, key, Pending);
    } else if key !in s.agg.completed {
      assert At(s, key, Nowhere);
    } else if key in s.failed {
      assert At(s, key, Lost);
    } else if Tracked(s, key) {
      assert At(s, key, AtTracker);
    } else if key.hash in s.trk.completed {
      assert At(s, key, InFinishedFile);
    } else {
      var tid :| HeldBy(s, tid, key);
      assert At(s, key, InHand(tid));
    }
    if Tracked(s, key) {
      assert GoodFile(env, s.trk, key.hash);
    }
  }

  // ----- exact completion

  ghost function Deliveries(delivered: seq<Delivery>, hash: nat): nat {
    if delivered == [] then 0
    else (if delivered[|delivered| - 1].hash == hash then 1 else 0) + Deliveries(delivered[..|delivered| - 1], hash)
  }

  lemma {:induction false} DeliveriesOnce(delivered: seq<Delivery>, hash: nat)
    requires forall i, j :: 0 <= i < j < |delivered| ==> delivered[i].hash != delivered[j].hash
    ensures Deliveries(delivered, hash) ==
            if exists i :: 0 <= i < |delivered| && delivered[i].hash == hash then 1 else 0
  {
    if delivered == [] {
    } else {
      var front := delivered[..|delivered| - 1];
      DeliveriesOnce(front, hash);
      if i :| 0 <= i < |front| && front[i].hash == hash {
        assert delivered[i].hash == hash;
      }
    }
  }

  /** K distinct symbols of every block of a nonempty file have arrived. */
  ghost predicate EnoughArrived(env: Env, log: seq<Report>, hash: nat)
    requires env.p.Valid() && hash in env.files
  {
    && env.files[hash] != []
    && forall b: nat :: b < Total(env, hash) ==> |Received(log, Key(hash, b))| >= env.p.k
  }

  lemma NonemptyTotal(env: Env, hash: nat)
    requires env.p.Valid() && hash in env.files
    ensures env.files[hash] != [] <==> Total(env, hash) > 0
  {
    SizePositive(env.p);
    var size, bs := |env.files[hash]|, env.p.BlockSize();
    BlockCover(size, bs);
    if size == 0 && Total(env, hash) > 0 {
      MulMono(1, Total(env, hash), bs);
    }
  }

  /** A file whose blocks have all been handed off and dealt with is finished. */
  lemma EnoughFinishes(env: Env, s: State, hash: nat)
    requires Safe(env, s) && Owned(env, s) && hash in env.files && s.jobs == map[]
    requires forall key :: key in s.failed ==> key.hash != hash
    requires EnoughArrived(env, s.log, hash)
    ensures hash in s.trk.completed
  {
    var total := Total(env, hash);
    NonemptyTotal(env, hash);
    if hash !in s.trk.completed {
      forall b: nat | b < total
        ensures Tracked(s, Key(hash, b))
      {
        var key := Key(hash, b);
        HandedOffByCount(env, s.log, key);
        assert RepresentsAt(s.agg, s.log, key);
        assert Accounted(s, key);
      }
      assert Tracked(s, Key(hash, 0)) && GoodFile(env, s.trk, hash);
      RangeSize(total);
      forall b: nat | b in Range(total)
        ensures b in s.trk.blocks[hash].Keys
      {
        assert Tracked(s, Key(hash, b));
      }
      SubsetSize(Range(total), s.trk.blocks[hash].Keys);
    }
  }

  lemma FinishedHadEnough(env: Env, s: State, hash: nat)
    requires Safe(env, s) && Owned(env, s) && hash in s.trk.completed
    ensures hash in env.files && EnoughArrived(env, s.log, hash)
  {
    assert Finished(env, s, hash);
    NonemptyTotal(env, hash);
    forall b: nat | b < Total(env, hash)
      ensures |Received(s.log, Key(hash, b))| >= env.p.k
    {
      assert RepresentsAt(s.agg, s.log, Key(hash, b));
      HandedOffByCount(env, s.log, Key(hash, b));
    }
  }

  /** Exact completion: once every thread is idle and no block of the file failed, the file
      has been delivered exactly once if at least K distinct symbols of each of its blocks
      arrived, and not at all otherwise.  Order and repetition play no part.  An empty
      file has no blocks and is never delivered. */
  lemma ExactCompletion(env: Env, events: seq<Event>, states: seq<State>, i: nat, hash: nat)
    requires HonestRun(env, events, states) && i < |states| && hash in env.files
    requires states[i].jobs == map[]
    requires forall key :: key in states[i].failed ==> key.hash != hash
    ensures Deliveries(states[i].delivered, hash) == if EnoughArrived(env, states[i].log, hash) then 1 else 0
  {
    var s := states[i];
    RunSafe(env, events, states, i);
    RunOwned(env, events, states, i);
    DeliveriesOnce(s.delivered, hash);
    if EnoughArrived(env, s.log, hash) {
      EnoughFinishes(env, s, hash);
      assert Finished(env, s, hash);
    } else if Delivered(s, hash) {
      FinishedHadEnough(env, s, hash);
    }
  }

  /** In every reachable state, busy or not, no file has been delivered twice, and none
      without K distinct symbols of each of its blocks. */
  lemma NeverEarlyNeverTwice(env: Env, events: seq<Event>, states: seq<State>, i: nat, hash: nat)
    requires HonestRun(env, events, states) && i < |states|
    ensures Deliveries(states[i].delivered, hash) <= 1
    ensures Deliveries(states[i].delivered, hash) == 1 ==> hash in env.files && EnoughArrived(env, states[i].log, hash)
  {
    var s := states[i];
    RunSafe(env, events, states, i);
    RunOwned(env, events, states, i);
    DeliveriesOnce(s.delivered, hash);
    if Delivered(s, hash) {
      FinishedHadEnough(env, s, hash);
    }
  }
}
