/** Who a delivered file is credited to: the receivers that reported a packet of one of its blocks
    before that block had been handed off. */
module Contributors {
  import opened Basics
  import opened Wire
  import opened Aggregation
  import opened Reassembly
  import opened HonestFile
  import FT = FileTracking
  import N = NonInterference

  // ----- credit, from the log alone

  /** The receivers that reported a packet of the block while it was still pending. */
  ghost function Contributors(log: seq<Report>, key: Key): set<nat> {
    if log == [] then {}
    else
      var front, last := log[..|log| - 1], log[|log| - 1];
      if KeyOf(last.packet) == key && !HandedOff(front, key) then Contributors(front, key) + {last.receiver}
      else Contributors(front, key)
  }

  lemma Contribute(log: seq<Report>, last: Report, key: Key)
    ensures Contributors(log + [last], key) ==
            if KeyOf(last.packet) == key && !HandedOff(log, key) then Contributors(log, key) + {last.receiver}
            else Contributors(log, key)
    ensures HandedOff(log, key) ==> HandedOff(log + [last], key)
  {
    assert (log + [last])[..|log|] == log;
  }

  /** Until the hand-off, and at it, they are all the reporters. */
  lemma {:induction false} PendingContributors(log: seq<Report>, key: Key)
    requires log == [] || !HandedOff(log[..|log| - 1], key)
    ensures Contributors(log, key) == Reporters(log, key)
  {
    if log == [] {
    } else {
      PendingContributors(log[..|log| - 1], key);
    }
  }

  /** A contributor is someone who reported the block at a time when it was still pending. */
  lemma {:induction false} ContributorIndex(log: seq<Report>, key: Key, r: nat)
    ensures r in Contributors(log, key) <==>
            exists n: nat :: n < |log| && log[n].receiver == r && KeyOf(log[n].packet) == key && !HandedOff(log[..n], key)
  {
    if log == [] {
    } else {
      var m := |log| - 1;
      var front := log[..m];
      ContributorIndex(front, key, r);
      assert forall n: nat :: n < m ==> front[n] == log[n] && front[..n] == log[..n];
    }
  }

  /** The contributors to a set of blocks of a file. */
  ghost function Credit(log: seq<Report>, hash: nat, blocks: set<nat>): set<nat> {
    set b, r | b in blocks && r in Contributors(log, Key(hash, b)) :: r
  }

  /** The blocks have been handed off, and these are the contributors to them. */
  ghost predicate Credited(log: seq<Report>, hash: nat, blocks: set<nat>, receivers: set<nat>) {
    (forall b :: b in blocks ==> HandedOff(log, Key(hash, b))) && receivers == Credit(log, hash, blocks)
  }

  /** Later reports change nothing. */
  lemma CreditedLater(log: seq<Report>, last: Report, hash: nat, blocks: set<nat>, receivers: set<nat>)
    requires Credited(log, hash, blocks, receivers)
    ensures Credited(log + [last], hash, blocks, receivers)
  {
    forall b | b in blocks
      ensures HandedOff(log + [last], Key(hash, b))
      ensures Contributors(log + [last], Key(hash, b)) == Contributors(log, Key(hash, b))
    {
      Contribute(log, last, Key(hash, b));
    }
  }

  lemma CreditedTogether(log: seq<Report>, hash: nat, blocks: set<nat>, receivers: set<nat>, b: nat, more: set<nat>)
    requires Credited(log, hash, blocks, receivers) && Credited(log, hash, {b}, more)
    ensures Credited(log, hash, blocks + {b}, receivers + more)
  {
  }

  // ----- in every reachable state

  ghost predicate JobCredited(log: seq<Report>, job: Job) {
    match job
    case Assembling(h) => Credited(log, h.key.hash, {h.key.block}, h.receivers)
    case Tracking(a) => Credited(log, a.hash, {a.block}, a.receivers)
    case Joining(c) => c.blocks.Keys == Range(c.total) && Credited(log, c.hash, c.blocks.Keys, c.receivers)
  }

  ghost predicate FileCredited(log: seq<Report>, t: FT.Tracker, hash: nat) {
    Credited(log, hash, FT.BlocksOf(t, hash).Keys, FT.ReceiversOf(t, hash))
  }

  ghost predicate DeliveryCredited(env: Env, log: seq<Report>, d: Delivery) {
    && env.p.Valid() && d.hash in env.files
    && Credited(log, d.hash, Range(Total(env, d.hash)), d.receivers)
  }

  ghost predicate AllCredited(env: Env, s: State) {
    && (forall tid :: tid in s.jobs ==> JobCredited(s.log, s.jobs[tid]))
    && (forall hash :: FileCredited(s.log, s.trk, hash))
    && (forall i :: 0 <= i < |s.delivered| ==> DeliveryCredited(env, s.log, s.delivered[i]))
  }

  lemma JobLater(log: seq<Report>, last: Report, job: Job)
    requires JobCredited(log, job)
    ensures JobCredited(log + [last], job)
  {
    match job
    case Assembling(h) => CreditedLater(log, last, h.key.hash, {h.key.block}, h.receivers);
    case Tracking(a) => CreditedLater(log, last, a.hash, {a.block}, a.receivers);
    case Joining(c) => CreditedLater(log, last, c.hash, c.blocks.Keys, c.receivers);
  }

  /** The hand-off names the contributors to its block. */
  lemma HandOffCredited(log: seq<Report>, last: Report, h: HandOff)
    requires !HandedOff(log, h.key) && HandedOff(log + [last], h.key) && CarriesLog(h, log + [last], h.key)
    ensures JobCredited(log + [last], Assembling(h))
  {
    assert (log + [last])[..|log|] == log;
    PendingContributors(log + [last], h.key);
    assert Key(h.key.hash, h.key.block) == h.key;
  }

  lemma ArriveCredited(env: Env, s: State, tid: nat, receiver: nat, packet: Packet)
    requires Safe(env, s) && AllCredited(env, s) && tid !in s.jobs
    ensures AllCredited(env, Next(env, s, Arrive(tid, receiver, packet)))
  {
    var s' := Next(env, s, Arrive(tid, receiver, packet));
    var last := Report(receiver, packet);
    AddRepresents(s.agg, s.log, receiver, packet);
    forall t | t in s'.jobs
      ensures JobCredited(s'.log, s'.jobs[t])
    {
      if t in s.jobs {
        JobLater(s.log, last, s.jobs[t]);
      } else {
        HandOffCredited(s.log, last, s'.jobs[t].ready);
      }
    }
    forall hash
      ensures FileCredited(s'.log, s'.trk, hash)
    {
      assert FileCredited(s.log, s.trk, hash);
      CreditedLater(s.log, last, hash, FT.BlocksOf(s.trk, hash).Keys, FT.ReceiversOf(s.trk, hash));
    }
    forall i | 0 <= i < |s.delivered|
      ensures DeliveryCredited(env, s'.log, s.delivered[i])
    {
      var d := s.delivered[i];
      CreditedLater(s.log, last, d.hash, Range(Total(env, d.hash)), d.receivers);
    }
  }

  lemma ReconstructCredited(env: Env, s: State, tid: nat, reachable: bool)
    requires Safe(env, s) && AllCredited(env, s) && tid in s.jobs && s.jobs[tid].Assembling?
    ensures AllCredited(env, Next(env, s, Reconstruct(tid, reachable)))
  {
    assert GoodJob(env, s.jobs[tid]) && JobCredited(s.log, s.jobs[tid]);
    AssembleRestores(env, s.jobs[tid].ready);
  }

  /** The tracker adds the contributors to a block to those of its file. */
  lemma HandleCredited(log: seq<Report>, t: FT.Tracker, a: FT.Assembled)
    requires a.hash !in t.completed && JobCredited(log, Tracking(a)) && FileCredited(log, t, a.hash)
    ensures var (t', complete) := FT.Handle(t, a);
            && FileCredited(log, t', a.hash)
            && (complete.Some? ==> Credited(log, a.hash, complete.value.blocks.Keys, complete.value.receivers))
  {
    BlockCredited(log, a, FT.BlocksOf(t, a.hash), FT.ReceiversOf(t, a.hash));
    FT.HandleContents(t, a);
    var (t', complete) := FT.Handle(t, a);
    if complete.Some? {
      assert FT.BlocksOf(t', a.hash).Keys == {} && Credited(log, a.hash, {}, {});
    }
  }

  lemma BlockCredited(log: seq<Report>, a: FT.Assembled, blocks: map<nat, Bytes>, receivers: set<nat>)
    requires JobCredited(log, Tracking(a)) && Credited(log, a.hash, blocks.Keys, receivers)
    ensures Credited(log, a.hash, blocks[a.block := a.bytes].Keys, receivers + a.receivers)
  {
    CreditedTogether(log, a.hash, blocks.Keys, receivers, a.block, a.receivers);
    assert blocks[a.block := a.bytes].Keys == blocks.Keys + {a.block};
  }

  lemma HandleElsewhere(log: seq<Report>, t: FT.Tracker, a: FT.Assembled, hash: nat)
    requires FileCredited(log, t, hash) && hash != a.hash
    ensures FileCredited(log, FT.Handle(t, a).0, hash)
  {
    FT.HandleOthers(t, a, hash);
  }

  /** A file completes with the credit for exactly its blocks. */
  lemma CompletionCredited(env: Env, log: seq<Report>, t: FT.Tracker, a: FT.Assembled)
    requires GoodJob(env, Tracking(a)) && a.hash !in t.completed && (a.hash in t.blocks ==> GoodFile(env, t, a.hash))
    requires JobCredited(log, Tracking(a)) && FileCredited(log, t, a.hash)
    ensures var complete := FT.Handle(t, a).1; complete.Some? ==> JobCredited(log, Joining(complete.value))
  {
    CompletionGood(env, t, a);
    HandleCredited(log, t, a);
  }

  lemma TrackCredited(env: Env, s: State, tid: nat)
    requires Safe(env, s) && AllCredited(env, s) && tid in s.jobs && s.jobs[tid].Tracking?
    ensures AllCredited(env, Next(env, s, Track(tid)))
  {
    var a := s.jobs[tid].a;
    assert GoodJob(env, s.jobs[tid]) && JobCredited(s.log, s.jobs[tid]);
    if a.hash !in s.trk.completed {
      forall hash
        ensures FileCredited(s.log, FT.Handle(s.trk, a).0, hash)
      {
        assert FileCredited(s.log, s.trk, hash);
        if hash == a.hash {
          HandleCredited(s.log, s.trk, a);
        } else {
          HandleElsewhere(s.log, s.trk, a, hash);
        }
      }
      assert FileCredited(s.log, s.trk, a.hash);
      CompletionCredited(env, s.log, s.trk, a);
    }
  }

  lemma DeliverCredited(env: Env, s: State, tid: nat)
    requires Safe(env, s) && AllCredited(env, s) && tid in s.jobs && s.jobs[tid].Joining?
    ensures AllCredited(env, Next(env, s, Deliver(tid)))
  {
    assert GoodJob(env, s.jobs[tid]) && JobCredited(s.log, s.jobs[tid]);
  }

  lemma StepCredited(env: Env, s: State, e: Event, s': State)
    requires Safe(env, s) && AllCredited(env, s) && HonestStep(env, s, e, s')
    ensures AllCredited(env, s')
  {
    match e
    case Arrive(tid, receiver, packet) => ArriveCredited(env, s, tid, receiver, packet);
    case Reconstruct(tid, reachable) => ReconstructCredited(env, s, tid, reachable);
    case Track(tid) => TrackCredited(env, s, tid);
    case Deliver(tid) => DeliverCredited(env, s, tid);
  }

  lemma InitCredited(env: Env)
    ensures AllCredited(env, INIT)
  {
  }

  lemma NextCredited(env: Env, events: seq<Event>, states: seq<State>, i: nat)
    requires HonestRun(env, events, states) && i < |events| && AllCredited(env, states[i])
    ensures AllCredited(env, states[i + 1])
  {
    RunSafe(env, events, states, i);
    StepCredited(env, states[i], events[i], states[i + 1]);
  }

  lemma {:induction false} RunCredited(env: Env, events: seq<Event>, states: seq<State>, i: nat)
    requires HonestRun(env, events, states) && i < |states|
    ensures AllCredited(env, states[i])
  {
    if i == 0 {
      InitCredited(env);
    } else {
      RunCredited(env, events, states, i - 1);
      NextCredited(env, events, states, i - 1);
    }
  }

  // ----- for one file, whatever else arrives

  lemma {:induction false} OwnReports(log: seq<Report>, hash: nat)
    ensures forall r :: r in log && r.packet.fileHash == hash ==> r in N.OnlyReports(log, hash)
  {
    if log == [] {
    } else {
      var front, last := log[..|log| - 1], log[|log| - 1];
      OwnReports(front, hash);
      assert log == front + [last];
    }
  }

  lemma {:induction false} OwnContributors(log: seq<Report>, key: Key)
    ensures HandedOff(N.OnlyReports(log, key.hash), key) <==> HandedOff(log, key)
    ensures Contributors(N.OnlyReports(log, key.hash), key) == Contributors(log, key)
  {
    OwnReceived(log, key);
    if log == [] {
    } else {
      var front, last := log[..|log| - 1], log[|log| - 1];
      OwnContributors(front, key);
      var own := N.OnlyReports(front, key.hash);
      assert (own + [last])[..|own|] == own;
    }
  }

  /** A block whose packets are honest is pending as long as fewer than K symbols of it are in. */
  lemma {:induction false} PendingByCount(env: Env, log: seq<Report>, key: Key)
    requires env.p.Valid()
    requires forall i :: 0 <= i < |log| && KeyOf(log[i].packet) == key ==> Honest(env, log[i].packet)
    ensures HandedOff(log, key) <==> |Received(log, key)| >= env.p.k
  {
    if log == [] {
    } else {
      var front, p := log[..|log| - 1], log[|log| - 1].packet;
      PendingByCount(env, front, key);
    }
  }

  /** Report n is one of the file's, by the receiver, of a block of which fewer than K symbols
      had arrived. */
  ghost predicate Helped(env: Env, log: seq<Report>, hash: nat, r: nat, n: nat)
    requires n < |log|
  {
    && log[n].receiver == r && log[n].packet.fileHash == hash
    && |Received(log[..n], KeyOf(log[n].packet))| < env.p.k
  }

  ghost predicate HonestReports(env: Env, log: seq<Report>, hash: nat) {
    forall n :: 0 <= n < |log| && log[n].packet.fileHash == hash ==> Honest(env, log[n].packet)
  }

  lemma PendingAt(env: Env, log: seq<Report>, n: nat, key: Key)
    requires env.p.Valid() && HonestReports(env, log, key.hash) && n <= |log|
    ensures HandedOff(log[..n], key) <==> |Received(log[..n], key)| >= env.p.k
  {
    PendingByCount(env, log[..n], key);
  }

  /** Contributing to a block of the file is reporting it in time. */
  lemma ContributorHelped(env: Env, log: seq<Report>, key: Key, r: nat)
    requires env.p.Valid() && HonestReports(env, log, key.hash) && r in Contributors(log, key)
    ensures exists n: nat :: n < |log| && Helped(env, log, key.hash, r, n)
  {
    ContributorIndex(log, key, r);
    var n: nat :| n < |log| && log[n].receiver == r && KeyOf(log[n].packet) == key && !HandedOff(log[..n], key);
    PendingAt(env, log, n, key);
    assert Helped(env, log, key.hash, r, n);
  }

  lemma HelpedContributes(env: Env, log: seq<Report>, hash: nat, r: nat, n: nat) returns (b: nat)
    requires env.p.Valid() && HonestReports(env, log, hash) && n < |log| && Helped(env, log, hash, r, n)
    ensures hash in env.files && b < Total(env, hash) && r in Contributors(log, Key(hash, b))
  {
    var key := KeyOf(log[n].packet);
    b := key.block;
    PendingAt(env, log, n, key);
    ContributorIndex(log, key, r);
    assert Honest(env, log[n].packet);
  }

  lemma OwnLogHonest(env: Env, events: seq<Event>, states: seq<State>, i: nat, hash: nat)
    requires HonestFor(env, events, states, hash) && i < |states|
    ensures HonestReports(env, states[i].log, hash)
  {
    var own, alone := HonestShare(env, events, states, i, hash);
    RunSafe(env, own, alone, |own|);
    OwnReports(states[i].log, hash);
    var mine := N.OnlyReports(states[i].log, hash);
    assert mine == alone[|own|].log;
    forall n | 0 <= n < |states[i].log| && states[i].log[n].packet.fileHash == hash
      ensures Honest(env, states[i].log[n].packet)
    {
      var k :| 0 <= k < |mine| && mine[k] == states[i].log[n];
    }
  }

  lemma OwnCredit(env: Env, events: seq<Event>, states: seq<State>, i: nat, d: Delivery, r: nat)
    requires HonestFor(env, events, states, d.hash) && i < |states| && d in states[i].delivered
    ensures d.hash in env.files
    ensures r in d.receivers <==>
            exists b: nat :: b < Total(env, d.hash) && r in Contributors(states[i].log, Key(d.hash, b))
  {
    var own, alone := HonestShare(env, events, states, i, d.hash);
    OwnDeliveries(states[i].delivered, d.hash);
    RunCredited(env, own, alone, |own|);
    assert DeliveryCredited(env, alone[|own|].log, d);
    forall b: nat
      ensures Contributors(alone[|own|].log, Key(d.hash, b)) == Contributors(states[i].log, Key(d.hash, b))
    {
      OwnContributors(states[i].log, Key(d.hash, b));
    }
  }

  /** A delivered file is credited to exactly the receivers that reported a packet of one of its
      blocks while fewer than K distinct symbols of that block had arrived. */
  lemma CreditIsExact(env: Env, events: seq<Event>, states: seq<State>, i: nat, d: Delivery, r: nat)
    requires HonestFor(env, events, states, d.hash) && i < |states| && d in states[i].delivered
    ensures r in d.receivers <==> exists n: nat :: n < |states[i].log| && Helped(env, states[i].log, d.hash, r, n)
  {
    var log := states[i].log;
    OwnLogHonest(env, events, states, i, d.hash);
    OwnCredit(env, events, states, i, d, r);
    if r in d.receivers {
      var b: nat :| b < Total(env, d.hash) && r in Contributors(log, Key(d.hash, b));
      ContributorHelped(env, log, Key(d.hash, b), r);
    }
    if n: nat :| n < |log| && Helped(env, log, d.hash, r, n) {
      var b := HelpedContributes(env, log, d.hash, r, n);
    }
  }
}
