/** The guarantees of the reassembly pipeline for one file, in runs where only that file's
    packets need be honest: whatever arrives for other files makes no difference. */
module HonestFile {
  import opened ErasureCode
  import opened Aggregation
  import opened Reassembly
  import opened Completion
  import N = NonInterference

  /** Any interleaving of any number of threads in which every packet under `hash` is a symbol
      of the file registered there. */
  ghost predicate HonestFor(env: Env, events: seq<Event>, states: seq<State>, hash: nat) {
    && env.p.Valid() && AnyKOfN(env.lib, env.p.k, env.p.m)
    && N.Run(env, events, states)
    && forall i :: 0 <= i < |events| && events[i].Arrive? && events[i].packet.fileHash == hash ==>
                     Honest(env, events[i].packet)
  }

  // ----- the file's share of a run

  lemma {:induction false} OwnEventsHonest(env: Env, events: seq<Event>, states: seq<State>, hash: nat)
    requires HonestFor(env, events, states, hash)
    ensures forall e :: e in N.OnlyEvents(env, events, states, hash) && e.Arrive? ==> Honest(env, e.packet)
    decreases |events|
  {
    if events == [] {
    } else {
      var n := |events| - 1;
      N.RunFront(env, events, states);
      OwnEventsHonest(env, events[..n], states[..|events|], hash);
    }
  }

  /** The file's share of any state of the run is a state of an honest run. */
  lemma HonestShare(env: Env, events: seq<Event>, states: seq<State>, i: nat, hash: nat)
      returns (own: seq<Event>, alone: seq<State>)
    requires HonestFor(env, events, states, hash) && i < |states|
    ensures HonestRun(env, own, alone) && alone[|own|] == N.Only(states[i], hash)
  {
    var front, upto := events[..i], states[..i + 1];
    assert HonestFor(env, front, upto, hash);
    own := N.OnlyEvents(env, front, upto, hash);
    alone := N.FilesAreIndependent(env, front, upto, hash);
    OwnEventsHonest(env, front, upto, hash);
    forall j | 0 <= j < |own|
      ensures HonestStep(env, alone[j], own[j], alone[j + 1])
    {
      assert own[j] in own;
    }
  }

  lemma {:induction false} OwnDeliveries(delivered: seq<Delivery>, hash: nat)
    ensures Deliveries(N.OnlyDeliveries(delivered, hash), hash) == Deliveries(delivered, hash)
    ensures forall d :: d in delivered && d.hash == hash ==> d in N.OnlyDeliveries(delivered, hash)
  {
    if delivered == [] {
    } else {
      var front, last := delivered[..|delivered| - 1], delivered[|delivered| - 1];
      OwnDeliveries(front, hash);
      var own := N.OnlyDeliveries(front, hash);
      assert (own + [last])[..|own|] == own;
      assert delivered == front + [last];
    }
  }

  lemma {:induction false} OwnReceived(log: seq<Report>, key: Key)
    ensures Received(N.OnlyReports(log, key.hash), key) == Received(log, key)
  {
    if log == [] {
    } else {
      var front, last := log[..|log| - 1], log[|log| - 1];
      OwnReceived(front, key);
      var own := N.OnlyReports(front, key.hash);
      assert (own + [last])[..|own|] == own;
    }
  }

  lemma OwnArrivals(env: Env, log: seq<Report>, hash: nat)
    requires env.p.Valid() && hash in env.files
    ensures EnoughArrived(env, N.OnlyReports(log, hash), hash) <==> EnoughArrived(env, log, hash)
  {
    forall b: nat
      ensures Received(N.OnlyReports(log, hash), Key(hash, b)) == Received(log, Key(hash, b))
    {
      OwnReceived(log, Key(hash, b));
    }
  }

  // ----- the guarantees

  /** Every delivery of the file is the file, byte for byte. */
  lemma DeliveredExactly(env: Env, events: seq<Event>, states: seq<State>, i: nat, d: Delivery)
    requires HonestFor(env, events, states, d.hash) && i < |states| && d in states[i].delivered
    ensures d.hash in env.files && d.bytes == env.files[d.hash]
  {
    var own, alone := HonestShare(env, events, states, i, d.hash);
    OwnDeliveries(states[i].delivered, d.hash);
    DeliveredFilesAreExact(env, own, alone, |own|, d);
  }

  /** No thread is busy with the file. */
  ghost predicate Quiet(s: State, hash: nat) {
    forall tid :: tid in s.jobs ==> N.HashOf(s.jobs[tid]) != hash
  }

  /** Event j is a reconstruction of the block for which the helper could not be reached. */
  ghost predicate Unreached(events: seq<Event>, states: seq<State>, j: nat, key: Key)
    requires j < |events| && j < |states|
  {
    && events[j].Reconstruct? && !events[j].reachable
    && events[j].tid in states[j].jobs && states[j].jobs[events[j].tid].Assembling?
    && states[j].jobs[events[j].tid].ready.key == key
  }

  /** The helper was reached in every reconstruction of the file's blocks before state i. */
  ghost predicate HelperReached(events: seq<Event>, states: seq<State>, i: nat, hash: nat)
    requires i <= |events| <= |states|
  {
    forall j: nat, key: Key :: j < i && key.hash == hash ==> !Unreached(events, states, j, key)
  }

  /** A hand-off that a thread carries for the file is good. */
  lemma OwnJobGood(env: Env, events: seq<Event>, states: seq<State>, i: nat, tid: nat, hash: nat)
    requires HonestFor(env, events, states, hash) && i < |states|
    requires tid in states[i].jobs && N.HashOf(states[i].jobs[tid]) == hash
    ensures GoodJob(env, states[i].jobs[tid])
  {
    var own, alone := HonestShare(env, events, states, i, hash);
    RunSafe(env, own, alone, |own|);
    assert tid in alone[|own|].jobs && alone[|own|].jobs[tid] == states[i].jobs[tid];
  }

  /** A step gives a block of the file up exactly when it reconstructs it unreached. */
  lemma StepFails(env: Env, events: seq<Event>, states: seq<State>, i: nat, key: Key)
    requires HonestFor(env, events, states, key.hash) && i < |events|
    ensures key in states[i + 1].failed <==> key in states[i].failed || Unreached(events, states, i, key)
  {
    var e := events[i];
    if e.Reconstruct? && states[i].jobs[e.tid].ready.key.hash == key.hash {
      OwnJobGood(env, events, states, i, e.tid, key.hash);
      AssembleRestores(env, states[i].jobs[e.tid].ready);
    }
  }

  /** A block of the file is given up exactly when the helper could not be reached for it. */
  lemma {:induction false} FailsOnlyUnreached(env: Env, events: seq<Event>, states: seq<State>, i: nat, key: Key)
    requires HonestFor(env, events, states, key.hash) && i < |states|
    ensures key in states[i].failed <==> exists j: nat :: j < i && Unreached(events, states, j, key)
    decreases i
  {
    if i == 0 {
    } else {
      FailsOnlyUnreached(env, events, states, i - 1, key);
      StepFails(env, events, states, i - 1, key);
      if key in states[i].failed && key in states[i - 1].failed {
        var j: nat :| j < i - 1 && Unreached(events, states, j, key);
        assert j < i;
      }
    }
  }

  /** While the helper is reached, once no thread is busy with the file, it has been delivered
      exactly once if at least K distinct symbols of each of its blocks arrived, and not at all
      otherwise. */
  lemma CompletesExactly(env: Env, events: seq<Event>, states: seq<State>, i: nat, hash: nat)
    requires HonestFor(env, events, states, hash) && i < |states| && hash in env.files
    requires HelperReached(events, states, i, hash) && Quiet(states[i], hash)
    ensures Deliveries(states[i].delivered, hash) == if EnoughArrived(env, states[i].log, hash) then 1 else 0
  {
    var own, alone := HonestShare(env, events, states, i, hash);
    OwnDeliveries(states[i].delivered, hash);
    OwnArrivals(env, states[i].log, hash);
    assert alone[|own|].jobs == map[];
    forall key | key in states[i].failed
      ensures key.hash != hash
    {
      if key.hash == hash {
        FailsOnlyUnreached(env, events, states, i, key);
      }
    }
    ExactCompletion(env, own, alone, |own|, hash);
  }

  /** In every reachable state the file was delivered at most once, and only if at least K
      distinct symbols of each of its blocks arrived. */
  lemma NeverEarlyOrTwice(env: Env, events: seq<Event>, states: seq<State>, i: nat, hash: nat)
    requires HonestFor(env, events, states, hash) && i < |states|
    ensures Deliveries(states[i].delivered, hash) <= 1
    ensures Deliveries(states[i].delivered, hash) == 1 ==> hash in env.files && EnoughArrived(env, states[i].log, hash)
  {
    var own, alone := HonestShare(env, events, states, i, hash);
    OwnDeliveries(states[i].delivered, hash);
    NeverEarlyNeverTwice(env, own, alone, |own|, hash);
    if Deliveries(states[i].delivered, hash) == 1 {
      OwnArrivals(env, states[i].log, hash);
    }
  }

  /** A block is in the same place in its file's share of the state. */
  lemma SamePlace(s: State, key: Key, place: Place)
    ensures At(N.Only(s, key.hash), key, place) <==> At(s, key, place)
  {
  }

  /** In every reachable state each block of the file is in exactly one place. */
  lemma OnePlaceEach(env: Env, events: seq<Event>, states: seq<State>, i: nat, key: Key)
    requires HonestFor(env, events, states, key.hash) && i < |states|
    ensures exists place :: At(states[i], key, place)
    ensures forall a, b :: At(states[i], key, a) && At(states[i], key, b) ==> a == b
  {
    var own, alone := HonestShare(env, events, states, i, key.hash);
    SingleOwner(env, own, alone, |own|, key);
    forall place
      ensures At(N.Only(states[i], key.hash), key, place) <==> At(states[i], key, place)
    {
      SamePlace(states[i], key, place);
    }
  }
}
