/** The file monitor's scheduler: files wait in a queue and are given to the sender processes
    that report themselves idle.  A small file goes to one sender; a large file is shared by
    every sender that becomes free while it is being sent. */
module Scheduling {
  import opened Basics

  datatype Status = Idle | Working

  datatype File = File(path: string, size: nat, hash: u64)

  /** Files of ten megabytes or more are large. */
  const LARGE := 10 * 1024 * 1024

  datatype State = State(
    status: map<nat, Status>,
    active: map<string, seq<nat>>,
    large: Option<File>,
    finished: set<nat>,
    queue: seq<File>
  )

  /** Those of a list of senders whose status is `want`, in order. */
  function Having(status: map<nat, Status>, list: seq<nat>, want: Status): seq<nat> {
    if list == [] then
      []
    else
      var n := |list| - 1;
      var rest := Having(status, list[..n], want);
      if list[n] in status && status[list[n]] == want then rest + [list[n]] else rest
  }

  /** Those of a list of senders that are not in a set, in order. */
  function Without(list: seq<nat>, gone: set<nat>): seq<nat> {
    if list == [] then
      []
    else
      var n := |list| - 1;
      var rest := Without(list[..n], gone);
      if list[n] in gone then rest else rest + [list[n]]
  }

  /** The transfers that still have a working sender, with those senders. */
  function Kept(s: State): map<string, seq<nat>> {
    map p | p in s.active && Having(s.status, s.active[p], Working) != [] :: Having(s.status, s.active[p], Working)
  }

  /** Every transfer with its working senders, ended ones included. */
  function Synced(s: State): map<string, seq<nat>> {
    map p | p in s.active :: Having(s.status, s.active[p], Working)
  }

  /** Every transfer drops the senders that turned idle, and ends when none is left.  Senders
      that leave the large file are remembered until it ends. */
  ghost function Sync(s: State): State {
    var kept := Kept(s);
    if s.large == None || s.large.value.path !in s.active then
      s.(active := kept)
    else if s.large.value.path !in kept then
      s.(active := kept, large := None, finished := {})
    else
      s.(active := kept, finished := s.finished + Elements(Leaving(s)))
  }

  /** The senders of the large file now seen idle. */
  function Leaving(s: State): seq<nat> {
    if s.large.Some? && s.large.value.path in s.active then Having(s.status, s.active[s.large.value.path], Idle) else []
  }

  function AssignOne(s: State, sender: nat, f: File): State {
    var before := if f.path in s.active then s.active[f.path] else [];
    s.(status := s.status[sender := Working], active := s.active[f.path := before + [sender]])
  }

  function AssignAll(s: State, senders: seq<nat>, f: File): State {
    if senders == [] then s
    else AssignOne(AssignAll(s, senders[..|senders| - 1], f), senders[|senders| - 1], f)
  }

  /** The senders a round of dispatching gives work to. */
  function Targets(order: seq<nat>, s: State): seq<nat> {
    var idle := Having(s.status, order, Idle);
    if s.large.Some? then Without(idle, s.finished)
    else if idle == [] || s.queue == [] then []
    else if s.queue[0].size < LARGE then [idle[0]]
    else idle
  }

  /** The state in which the targets are given their file, and that file. */
  function Opened(order: seq<nat>, s: State): (State, Option<File>) {
    if s.large.Some? then (s, s.large)
    else if Having(s.status, order, Idle) == [] || s.queue == [] then (s, None)
    else
      var f := s.queue[0];
      (s.(queue := s.queue[1..], large := if f.size < LARGE then None else Some(f)), Some(f))
  }

  function Dispatch(order: seq<nat>, s: State): State {
    var (t, f) := Opened(order, s);
    if f.Some? then AssignAll(t, Targets(order, s), f.value) else s
  }

  /** A heartbeat of a connected sender. */
  function Report(s: State, sender: nat, status: Status): State {
    if sender in s.status then s.(status := s.status[sender := status]) else s
  }

  function Reported(s: State, reports: seq<(nat, Status)>): State {
    if reports == [] then s
    else
      var n := |reports| - 1;
      Report(Reported(s, reports[..n]), reports[n].0, reports[n].1)
  }

  /** The transfers outside `left` have been looked at. */
  ghost predicate Midway(before: State, active: map<string, seq<nat>>, finished: set<nat>, left: set<string>,
                         completed: seq<string>)
  {
    && left <= active.Keys == before.active.Keys
    && (forall p :: p in active ==> active[p] == LookedAt(before, left, p))
    && (forall p :: p in completed <==> p in active && p !in left && active[p] == [])
    && finished == before.finished
                   + if before.large.Some? && before.large.value.path in left then {} else Elements(Leaving(before))
  }

  function LookedAt(before: State, left: set<string>, p: string): seq<nat>
    requires p in before.active
  {
    if p in left then before.active[p] else Having(before.status, before.active[p], Working)
  }

  lemma MidwayStep(before: State, active: map<string, seq<nat>>, finished: set<nat>, left: set<string>,
                   completed: seq<string>, path: string)
    requires Midway(before, active, finished, left, completed) && path in left
    ensures var working := Having(before.status, before.active[path], Working);
            var leaving := if before.large.Some? && before.large.value.path == path
                           then Elements(Having(before.status, before.active[path], Idle)) else {};
            Midway(before, active[path := working], finished + leaving, left - {path},
                   if working == [] then completed + [path] else completed)
  {
    var working := Having(before.status, before.active[path], Working);
    var active' := active[path := working];
    assert active'.Keys == active.Keys;
    forall p | p in active'
      ensures active'[p] == LookedAt(before, left - {path}, p)
    {
    }
  }

  // ----- the scheduler object

  class Orchestrator {
    /** The senders, in the order their statuses are listed. */
    const order: seq<nat>
    var senderStates: map<nat, Status>
    var activeTransfers: map<string, seq<nat>>
    var currentLargeFile: Option<File>
    var finishedLargeFileSenders: set<nat>
    var taskQueue: seq<File>

    function View(): State
      reads this
    {
      State(senderStates, activeTransfers, currentLargeFile, finishedLargeFileSenders, taskQueue)
    }

    /** Every sender that holds a file has a status. */
    ghost predicate Valid()
      reads this
    {
      && senderStates.Keys == Elements(order)
      && forall p, x :: p in activeTransfers && x in activeTransfers[p] ==> x in senderStates
    }

    constructor (order: seq<nat>)
      ensures this.order == order && Valid()
      ensures View() == State(map x | x in order :: Idle, map[], None, {}, [])
    {
      this.order := order;
      senderStates := map x | x in order :: Idle;
      activeTransfers := map[];
      currentLargeFile := None;
      finishedLargeFileSenders := {};
      taskQueue := [];
    }

    method AssignTask(sender: nat, metadata: File)
      requires Valid() && sender in senderStates
      modifies this
      ensures Valid() && View() == AssignOne(old(View()), sender, metadata)
    {
      senderStates := senderStates[sender := Working];
      if metadata.path !in activeTransfers {
        activeTransfers := activeTransfers[metadata.path := []];
      }
      activeTransfers := activeTransfers[metadata.path := activeTransfers[metadata.path] + [sender]];
    }

    method AssignTasks(senders: seq<nat>, metadata: File)
      requires Valid() && forall x :: x in senders ==> x in senderStates
      modifies this
      ensures Valid() && View() == AssignAll(old(View()), senders, metadata)
    {
      for i := 0 to |senders|
        invariant Valid() && View() == AssignAll(old(View()), senders[..i], metadata)
      {
        assert senders[..i + 1][..i] == senders[..i];
        AssignTask(senders[i], metadata);
      }
      assert senders[..|senders|] == senders;
    }

    /** The heartbeats read in one poll, in the order they arrive. */
    method Poll(reports: seq<(nat, Status)>)
      requires Valid()
      modifies this`senderStates
      ensures Valid() && View() == Reported(old(View()), reports)
    {
      for i := 0 to |reports|
        invariant Valid() && View() == Reported(old(View()), reports[..i])
      {
        assert reports[..i + 1][..i] == reports[..i];
        if reports[i].0 in senderStates {
          senderStates := senderStates[reports[i].0 := reports[i].1];
        }
      }
      assert reports[..|reports|] == reports;
    }

    /** One turn of the event loop. */
    method RunOnce(reports: seq<(nat, Status)>)
      requires Valid()
      modifies this
      ensures Valid() && View() == Dispatch(order, Sync(Reported(old(View()), reports)))
    {
      Poll(reports);
      SyncStates();
      DispatchTasks();
    }

    method IdleSenders() returns (idle: seq<nat>)
      requires Valid()
      ensures idle == Having(senderStates, order, Idle)
      ensures forall x :: x in idle ==> x in senderStates
    {
      idle := [];
      for i := 0 to |order|
        invariant idle == Having(senderStates, order[..i], Idle)
      {
        assert order[..i + 1][..i] == order[..i];
        assert order[i] in Elements(order);
        if senderStates[order[i]] == Idle {
          idle := idle + [order[i]];
        }
      }
      assert order[..|order|] == order;
      HavingMember(senderStates, order, Idle);
    }

    /** Idle senders join the large file unless they have already left it. */
    method JoinLargeFile(idle: seq<nat>)
      requires Valid() && currentLargeFile.Some? && forall x :: x in idle ==> x in senderStates
      modifies this
      ensures Valid()
      ensures View() == AssignAll(old(View()), Without(idle, old(finishedLargeFileSenders)), old(currentLargeFile).value)
    {
      var large := currentLargeFile.value;
      for i := 0 to |idle|
        invariant Valid() && View() == AssignAll(old(View()), Without(idle[..i], old(finishedLargeFileSenders)), large)
        invariant finishedLargeFileSenders == old(finishedLargeFileSenders)
      {
        assert idle[..i + 1][..i] == idle[..i];
        if idle[i] !in finishedLargeFileSenders {
          AssignSnoc(old(View()), Without(idle[..i], finishedLargeFileSenders), idle[i], large);
          AssignTask(idle[i], large);
        }
      }
      assert idle[..|idle|] == idle;
    }

    method DispatchTasks()
      requires Valid()
      modifies this
      ensures Valid() && View() == Dispatch(order, old(View()))
    {
      var idle := IdleSenders();
      if idle == [] {
        return;
      }
      if currentLargeFile.Some? {
        JoinLargeFile(idle);
        return;
      }
      if taskQueue != [] {
        var metadata := taskQueue[0];
        taskQueue := taskQueue[1..];
        if metadata.size < LARGE {
          AssignTasks([idle[0]], metadata);
        } else {
          currentLargeFile := Some(metadata);
          AssignTasks(idle, metadata);
        }
      }
    }

    /** One transfer loses its idle senders. */
    method SyncTransfer(path: string)
      requires Valid() && path in activeTransfers
      modifies this`finishedLargeFileSenders, this`activeTransfers
      ensures Valid()
      ensures activeTransfers ==
              old(activeTransfers)[path := Having(senderStates, old(activeTransfers)[path], Working)]
      ensures finishedLargeFileSenders ==
              old(finishedLargeFileSenders)
              + if IsLarge(path) then Elements(Having(senderStates, old(activeTransfers)[path], Idle)) else {}
    {
      var active: seq<nat> := [];
      var listed := activeTransfers[path];
      for i := 0 to |listed|
        invariant active == Having(senderStates, listed[..i], Working)
        invariant activeTransfers == old(activeTransfers)
        invariant finishedLargeFileSenders ==
                  old(finishedLargeFileSenders)
                  + if IsLarge(path) then Elements(Having(senderStates, listed[..i], Idle)) else {}
      {
        assert listed[..i + 1][..i] == listed[..i];
        if senderStates[listed[i]] == Working {
          active := active + [listed[i]];
        } else if IsLarge(path) {
          finishedLargeFileSenders := finishedLargeFileSenders + {listed[i]};
        }
      }
      assert listed[..|listed|] == listed;
      HavingMember(senderStates, listed, Working);
      activeTransfers := activeTransfers[path := active];
    }

    predicate IsLarge(path: string)
      reads this
    {
      currentLargeFile.Some? && currentLargeFile.value.path == path
    }

    method SyncStates()
      requires Valid()
      modifies this
      ensures Valid() && View() == Sync(old(View()))
    {
      var completed: seq<string> := [];
      var left := activeTransfers.Keys;
      ghost var before := View();
      while left != {}
        invariant Valid()
        invariant View() == before.(active := activeTransfers, finished := finishedLargeFileSenders)
        invariant Midway(before, activeTransfers, finishedLargeFileSenders, left, completed)
        decreases left
      {
        var path :| path in left;
        MidwayStep(before, activeTransfers, finishedLargeFileSenders, left, completed, path);
        SyncTransfer(path);
        if activeTransfers[path] == [] {
          completed := completed + [path];
        }
        left := left - {path};
      }
      assert activeTransfers == Synced(before);
      DropCompleted(completed, before);
    }

    /** Transfers without senders are forgotten; when the large file is one of them, the next
        file may follow. */
    method DropCompleted(completed: seq<string>, ghost before: State)
      requires Valid()
      requires View() == before.(active := Synced(before), finished := before.finished + Elements(Leaving(before)))
      requires forall p :: p in completed <==> p in activeTransfers && activeTransfers[p] == []
      modifies this
      ensures Valid() && View() == Sync(before)
    {
      ghost var synced := View();
      for i := 0 to |completed|
        invariant Valid() && View() == Drop(synced, completed[..i])
      {
        assert completed[..i + 1][..i] == completed[..i];
        var path := completed[i];
        activeTransfers := activeTransfers - {path};
        if IsLarge(path) {
          currentLargeFile := None;
          finishedLargeFileSenders := {};
        }
      }
      assert completed[..|completed|] == completed;
      DropAll(before, completed);
    }
  }

  /** The paths removed one by one. */
  function Drop(s: State, paths: seq<string>): State {
    if paths == [] then
      s
    else
      var n := |paths| - 1;
      var t := Drop(s, paths[..n]);
      if t.large.Some? && t.large.value.path == paths[n]
      then t.(active := t.active - {paths[n]}, large := None, finished := {})
      else t.(active := t.active - {paths[n]})
  }

  lemma {:induction false} DropEffect(s: State, paths: seq<string>)
    ensures Drop(s, paths).active == s.active - Elements(paths)
    ensures Drop(s, paths).status == s.status && Drop(s, paths).queue == s.queue
    ensures if s.large.Some? && s.large.value.path in paths
            then Drop(s, paths).large == None && Drop(s, paths).finished == {}
            else Drop(s, paths).large == s.large && Drop(s, paths).finished == s.finished
  {
    if paths == [] {
    } else {
      var n := |paths| - 1;
      DropEffect(s, paths[..n]);
      assert paths == paths[..n] + [paths[n]];
      assert Elements(paths) == Elements(paths[..n]) + {paths[n]};
    }
  }

  lemma DropAll(before: State, completed: seq<string>)
    requires forall p :: p in completed <==> p in Synced(before) && Synced(before)[p] == []
    ensures Drop(before.(active := Synced(before), finished := before.finished + Elements(Leaving(before))), completed)
            == Sync(before)
  {
    DropEffect(before.(active := Synced(before), finished := before.finished + Elements(Leaving(before))), completed);
    assert Synced(before) - Elements(completed) == Kept(before);
  }

  lemma AssignSnoc(s: State, senders: seq<nat>, x: nat, f: File)
    ensures AssignAll(s, senders + [x], f) == AssignOne(AssignAll(s, senders, f), x, f)
  {
    assert (senders + [x])[..|senders|] == senders;
  }

  lemma {:induction false} HavingMember(status: map<nat, Status>, list: seq<nat>, want: Status)
    ensures forall x :: x in Having(status, list, want) <==> x in list && x in status && status[x] == want
  {
    if list == [] {
    } else {
      var n := |list| - 1;
      HavingMember(status, list[..n], want);
      assert list == list[..n] + [list[n]];
    }
  }
}
