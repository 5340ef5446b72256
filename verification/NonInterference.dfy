/** Files do not affect one another: what the pipeline does for one file, for any packets
    at all, is what it would do if no other file's packets had ever arrived. */
module NonInterference {
  import opened Basics
  import opened Wire
  import opened Aggregation
  import opened Reassembly
  import FT = FileTracking

  function HashOf(job: Job): nat {
    match job
    case Assembling(h) => h.key.hash
    case Tracking(a) => a.hash
    case Joining(c) => c.hash
  }

  /** The file an event is about. */
  ghost function Subject(s: State, e: Event): nat
    requires Enabled(s, e)
  {
    match e
    case Arrive(_, _, packet) => packet.fileHash
    case Reconstruct(tid, _) => HashOf(s.jobs[tid])
    case Track(tid) => HashOf(s.jobs[tid])
    case Deliver(tid) => HashOf(s.jobs[tid])
  }

  // ----- one file's share of the state

  function OnlyKeys<V>(m: map<Key, V>, hash: nat): map<Key, V> {
    map k | k in m && k.hash == hash :: m[k]
  }

  function OnlyHash<V>(m: map<nat, V>, hash: nat): map<nat, V> {
    map h | h in m && h == hash :: m[h]
  }

  function OnlyMembers(keys: set<Key>, hash: nat): set<Key> {
    set k | k in keys && k.hash == hash
  }

  function OnlyJobs(jobs: map<nat, Job>, hash: nat): map<nat, Job> {
    map t | t in jobs && HashOf(jobs[t]) == hash :: jobs[t]
  }

  function OnlyReports(log: seq<Report>, hash: nat): seq<Report> {
    if log == [] then []
    else
      var front, last := OnlyReports(log[..|log| - 1], hash), log[|log| - 1];
      if last.packet.fileHash == hash then front + [last] else front
  }

  function OnlyDeliveries(delivered: seq<Delivery>, hash: nat): seq<Delivery> {
    if delivered == [] then []
    else
      var front, last := OnlyDeliveries(delivered[..|delivered| - 1], hash), delivered[|delivered| - 1];
      if last.hash == hash then front + [last] else front
  }

  function OnlyPools(a: Pools, hash: nat): Pools {
    Pools(OnlyKeys(a.shards, hash), OnlyKeys(a.meta, hash), OnlyKeys(a.receivers, hash),
          OnlyMembers(a.completed, hash))
  }

  function OnlyTracker(t: FT.Tracker, hash: nat): FT.Tracker {
    FT.Tracker(OnlyHash(t.blocks, hash), OnlyHash(t.receivers, hash), t.completed * {hash})
  }

  function Only(s: State, hash: nat): State {
    State(OnlyPools(s.agg, hash), OnlyTracker(s.trk, hash), OnlyJobs(s.jobs, hash),
          OnlyMembers(s.failed, hash), OnlyDeliveries(s.delivered, hash), OnlyReports(s.log, hash))
  }

  // ----- the aggregator

  lemma OnlyPoolsConsistent(a: Pools, hash: nat)
    requires Consistent(a)
    ensures Consistent(OnlyPools(a, hash))
  {
  }

  lemma OnlyKeysUpdate<V>(m: map<Key, V>, key: Key, v: V, hash: nat)
    ensures OnlyKeys(m[key := v], hash) == if key.hash == hash then OnlyKeys(m, hash)[key := v] else OnlyKeys(m, hash)
    ensures OnlyKeys(m - {key}, hash) == OnlyKeys(m, hash) - {key}
    ensures key.hash != hash ==> OnlyKeys(m, hash) - {key} == OnlyKeys(m, hash)
  {
  }

  lemma OnlyMembersAdd(keys: set<Key>, key: Key, hash: nat)
    ensures OnlyMembers(keys + {key}, hash) ==
            if key.hash == hash then OnlyMembers(keys, hash) + {key} else OnlyMembers(keys, hash)
  {
  }

  lemma OnlyFile(a: Pools, receiver: nat, p: Packet, hash: nat)
    ensures OnlyPools(File(a, receiver, p), hash) ==
            if p.fileHash == hash then File(OnlyPools(a, hash), receiver, p) else OnlyPools(a, hash)
  {
    var key := KeyOf(p);
    var f := File(a, receiver, p);
    OnlyKeysUpdate(a.shards, key, f.shards[key], hash);
    OnlyKeysUpdate(a.receivers, key, f.receivers[key], hash);
    OnlyKeysUpdate(a.meta, key, MetaOf(p), hash);
  }

  lemma OnlyClose(a: Pools, key: Key, hash: nat)
    ensures OnlyPools(Close(a, key), hash) ==
            if key.hash == hash then Close(OnlyPools(a, hash), key) else OnlyPools(a, hash)
  {
    OnlyKeysUpdate(a.shards, key, map[], hash);
    OnlyKeysUpdate(a.receivers, key, {}, hash);
    OnlyKeysUpdate(a.meta, key, Meta(0, 0, 0, 0), hash);
    OnlyMembersAdd(a.completed, key, hash);
  }

  lemma OnlyKeysAt<V>(m: map<Key, V>, key: Key)
    ensures key in OnlyKeys(m, key.hash) <==> key in m
    ensures key in m ==> OnlyKeys(m, key.hash)[key] == m[key]
  {
  }

  /** What a packet's block holds after filing it does not depend on other files. */
  lemma OnlyFiled(a: Pools, receiver: nat, p: Packet)
    requires Consistent(a) && KeyOf(p) !in a.completed
    ensures var key := KeyOf(p);
            var f, g := File(a, receiver, p), File(OnlyPools(a, p.fileHash), receiver, p);
            && g == OnlyPools(f, p.fileHash)
            && key in f.shards && key in f.meta && key in f.receivers
            && key in g.shards && key in g.meta && key in g.receivers
            && g.shards[key] == f.shards[key] && g.meta[key] == f.meta[key] && g.receivers[key] == f.receivers[key]
  {
    var f := File(a, receiver, p);
    OnlyFile(a, receiver, p, p.fileHash);
    FileConsistent(a, receiver, p);
    OnlyKeysAt(f.shards, KeyOf(p));
    OnlyKeysAt(f.meta, KeyOf(p));
    OnlyKeysAt(f.receivers, KeyOf(p));
  }

  lemma OnlyAdd(a: Pools, receiver: nat, p: Packet)
    requires Consistent(a)
    ensures Consistent(OnlyPools(a, p.fileHash))
    ensures Add(OnlyPools(a, p.fileHash), receiver, p).0 == OnlyPools(Add(a, receiver, p).0, p.fileHash)
    ensures Add(OnlyPools(a, p.fileHash), receiver, p).1 == Add(a, receiver, p).1
  {
    var key := KeyOf(p);
    OnlyPoolsConsistent(a, p.fileHash);
    assert key in OnlyPools(a, p.fileHash).completed <==> key in a.completed;
    if key !in a.completed {
      OnlyFiled(a, receiver, p);
      OnlyClose(a, key, p.fileHash);
    }
  }

  lemma OthersAdd(a: Pools, receiver: nat, p: Packet, hash: nat)
    requires Consistent(a) && p.fileHash != hash
    ensures OnlyPools(Add(a, receiver, p).0, hash) == OnlyPools(a, hash)
  {
    OnlyFile(a, receiver, p, hash);
    OnlyClose(a, KeyOf(p), hash);
  }

  // ----- the tracker

  lemma OnlyHashUpdate<V>(m: map<nat, V>, h: nat, v: V, hash: nat)
    ensures OnlyHash(m[h := v], hash) == if h == hash then OnlyHash(m, hash)[h := v] else OnlyHash(m, hash)
    ensures OnlyHash(m - {h}, hash) == OnlyHash(m, hash) - {h}
    ensures h != hash ==> OnlyHash(m, hash) - {h} == OnlyHash(m, hash)
  {
  }

  lemma OnlyLookup(t: FT.Tracker, hash: nat)
    ensures FT.BlocksOf(OnlyTracker(t, hash), hash) == FT.BlocksOf(t, hash)
    ensures FT.ReceiversOf(OnlyTracker(t, hash), hash) == FT.ReceiversOf(t, hash)
    ensures hash in OnlyTracker(t, hash).completed <==> hash in t.completed
  {
  }

  lemma OnlyHandle(t: FT.Tracker, a: FT.Assembled)
    ensures FT.Handle(OnlyTracker(t, a.hash), a).0 == OnlyTracker(FT.Handle(t, a).0, a.hash)
    ensures FT.Handle(OnlyTracker(t, a.hash), a).1 == FT.Handle(t, a).1
  {
    var hash := a.hash;
    OnlyLookup(t, hash);
    OnlyHashUpdate(t.blocks, hash, FT.BlocksOf(t, hash)[a.block := a.bytes], hash);
    OnlyHashUpdate(t.receivers, hash, FT.ReceiversOf(t, hash) + a.receivers, hash);
    assert (t.completed + {hash}) * {hash} == t.completed * {hash} + {hash};
  }

  lemma OthersHandle(t: FT.Tracker, a: FT.Assembled, hash: nat)
    requires a.hash != hash
    ensures OnlyTracker(FT.Handle(t, a).0, hash) == OnlyTracker(t, hash)
  {
    OnlyHashUpdate(t.blocks, a.hash, FT.BlocksOf(t, a.hash)[a.block := a.bytes], hash);
    OnlyHashUpdate(t.receivers, a.hash, FT.ReceiversOf(t, a.hash) + a.receivers, hash);
    assert (t.completed + {a.hash}) * {hash} == t.completed * {hash};
  }

  // ----- jobs, deliveries and reports

  lemma OnlyJobsUpdate(jobs: map<nat, Job>, tid: nat, job: Job, hash: nat)
    requires tid in jobs ==> HashOf(jobs[tid]) == HashOf(job)
    ensures OnlyJobs(jobs[tid := job], hash) ==
            if HashOf(job) == hash then OnlyJobs(jobs, hash)[tid := job] else OnlyJobs(jobs, hash)
  {
  }

  lemma OnlyJobsRemove(jobs: map<nat, Job>, tid: nat, hash: nat)
    requires tid in jobs
    ensures OnlyJobs(jobs - {tid}, hash) ==
            if HashOf(jobs[tid]) == hash then OnlyJobs(jobs, hash) - {tid} else OnlyJobs(jobs, hash)
  {
  }

  lemma OnlyReportsAppend(log: seq<Report>, r: Report, hash: nat)
    ensures OnlyReports(log + [r], hash) ==
            if r.packet.fileHash == hash then OnlyReports(log, hash) + [r] else OnlyReports(log, hash)
  {
    assert (log + [r])[..|log|] == log;
  }

  lemma OnlyDeliveriesAppend(delivered: seq<Delivery>, d: Delivery, hash: nat)
    ensures OnlyDeliveries(delivered + [d], hash) ==
            if d.hash == hash then OnlyDeliveries(delivered, hash) + [d] else OnlyDeliveries(delivered, hash)
  {
    assert (delivered + [d])[..|delivered|] == delivered;
  }

  // ----- steps

  /** A step about the file is that same step on its share; any other step leaves its
      share alone. */
  ghost predicate Projects(env: Env, s: State, e: Event, hash: nat)
    requires Enabled(s, e)
  {
    if Subject(s, e) == hash then
      Enabled(Only(s, hash), e) && Next(env, Only(s, hash), e) == Only(Next(env, s, e), hash)
    else
      Only(Next(env, s, e), hash) == Only(s, hash)
  }

  lemma ArriveProjects(env: Env, s: State, tid: nat, receiver: nat, packet: Packet, hash: nat)
    requires Enabled(s, Arrive(tid, receiver, packet))
    ensures Projects(env, s, Arrive(tid, receiver, packet), hash)
  {
    var e := Arrive(tid, receiver, packet);
    var (agg, ready) := Add(s.agg, receiver, packet);
    var next := Next(env, s, e);
    if ready.Some? {
      OnlyJobsUpdate(s.jobs, tid, Assembling(ready.value), hash);
    }
    OnlyReportsAppend(s.log, Report(receiver, packet), hash);
    if packet.fileHash == hash {
      OnlyAdd(s.agg, receiver, packet);
      assert Only(next, hash) == Next(env, Only(s, hash), e);
    } else {
      OthersAdd(s.agg, receiver, packet, hash);
      assert Only(next, hash) == Only(s, hash);
    }
  }

  lemma ReconstructProjects(env: Env, s: State, tid: nat, reachable: bool, hash: nat)
    requires Enabled(s, Reconstruct(tid, reachable))
    ensures Projects(env, s, Reconstruct(tid, reachable), hash)
  {
    var ready := s.jobs[tid].ready;
    var assembled := if reachable then Assemble(env.lib, env.p.BlockSize(), ready) else None;
    if assembled.Some? {
      OnlyJobsUpdate(s.jobs, tid, Tracking(assembled.value), hash);
    } else {
      OnlyJobsRemove(s.jobs, tid, hash);
      OnlyMembersAdd(s.failed, ready.key, hash);
    }
  }

  lemma TrackProjects(env: Env, s: State, tid: nat, hash: nat)
    requires Enabled(s, Track(tid))
    ensures Projects(env, s, Track(tid), hash)
  {
    var a := s.jobs[tid].a;
    var complete := FT.Handle(s.trk, a).1;
    if complete.Some? {
      OnlyJobsUpdate(s.jobs, tid, Joining(complete.value), hash);
    } else {
      OnlyJobsRemove(s.jobs, tid, hash);
    }
    if a.hash == hash {
      OnlyHandle(s.trk, a);
    } else {
      OthersHandle(s.trk, a, hash);
    }
  }

  lemma DeliverProjects(env: Env, s: State, tid: nat, hash: nat)
    requires Enabled(s, Deliver(tid))
    ensures Projects(env, s, Deliver(tid), hash)
  {
    var c := s.jobs[tid].c;
    OnlyJobsRemove(s.jobs, tid, hash);
    var joined := FT.Join(c.blocks, c.total);
    if joined.Some? {
      OnlyDeliveriesAppend(s.delivered, Delivery(c.hash, joined.value, c.receivers), hash);
    }
  }

  lemma StepProjects(env: Env, s: State, e: Event, hash: nat)
    requires Enabled(s, e)
    ensures Projects(env, s, e, hash)
  {
    match e
    case Arrive(tid, receiver, packet) => ArriveProjects(env, s, tid, receiver, packet, hash);
    case Reconstruct(tid, reachable) => ReconstructProjects(env, s, tid, reachable, hash);
    case Track(tid) => TrackProjects(env, s, tid, hash);
    case Deliver(tid) => DeliverProjects(env, s, tid, hash);
  }

  // ----- runs

  /** Any run at all: packets need not be honest. */
  ghost predicate Run(env: Env, events: seq<Event>, states: seq<State>) {
    && |states| == |events| + 1
    && states[0] == INIT
    && forall i :: 0 <= i < |events| ==> Enabled(states[i], events[i]) && states[i + 1] == Next(env, states[i], events[i])
  }

  /** The events of a run that are about one file. */
  ghost function OnlyEvents(env: Env, events: seq<Event>, states: seq<State>, hash: nat): seq<Event>
    requires Run(env, events, states)
    decreases |events|
  {
    if events == [] then []
    else
      var n := |events| - 1;
      var front := OnlyEvents(env, events[..n], states[..|events|], hash);
      if Subject(states[n], events[n]) == hash then front + [events[n]] else front
  }

  lemma RunFront(env: Env, events: seq<Event>, states: seq<State>)
    requires Run(env, events, states) && events != []
    ensures Run(env, events[..|events| - 1], states[..|events|])
  {
  }

  lemma RunExtend(env: Env, events: seq<Event>, states: seq<State>, e: Event)
    requires Run(env, events, states) && Enabled(states[|events|], e)
    ensures Run(env, events + [e], states + [Next(env, states[|events|], e)])
  {
    var events', states' := events + [e], states + [Next(env, states[|events|], e)];
    forall i | 0 <= i < |events'|
      ensures Enabled(states'[i], events'[i]) && states'[i + 1] == Next(env, states'[i], events'[i])
    {
      assert states'[i] == states[i];
    }
  }

  /** Non-interference: keeping only one file's events gives a run by itself, and it ends in
      exactly that file's share of the whole run's final state: the same pools, the same
      blocks, the same jobs in hand and the same deliveries. */
  lemma {:induction false} FilesAreIndependent(env: Env, events: seq<Event>, states: seq<State>, hash: nat)
      returns (alone: seq<State>)
    requires Run(env, events, states)
    ensures Run(env, OnlyEvents(env, events, states, hash), alone)
    ensures alone[|alone| - 1] == Only(states[|events|], hash)
    decreases |events|
  {
    if events == [] {
      alone := [INIT];
      assert Only(INIT, hash) == INIT;
    } else {
      var n := |events| - 1;
      RunFront(env, events, states);
      alone := FilesAreIndependent(env, events[..n], states[..|events|], hash);
      StepProjects(env, states[n], events[n], hash);
      if Subject(states[n], events[n]) == hash {
        var before := OnlyEvents(env, events[..n], states[..|events|], hash);
        RunExtend(env, before, alone, events[n]);
        alone := alone + [Next(env, alone[|before|], events[n])];
      }
    }
  }
}
