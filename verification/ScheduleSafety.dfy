/** What the scheduler keeps over every run, whatever the senders report. */
module ScheduleSafety {
  import opened Basics
  import opened Scheduling

  /** A sender was given a file, while `index` was the number of the file last taken. */
  datatype Given = Given(sender: nat, index: int, file: File)

  /** The scheduler with its history: the files that arrived, how many were taken from the
      queue, every assignment made, and how often a sender of the current large file has been
      seen idle since that file was taken. */
  datatype System = System(s: State, arrived: seq<File>, taken: nat, log: seq<Given>, seen: nat)

  datatype Event =
    | Beat(sender: nat, status: Status)
    | Arrive(file: File)
    | Round

  function Gives(senders: seq<nat>, index: int, file: File): seq<Given> {
    seq(|senders|, i requires 0 <= i < |senders| => Given(senders[i], index, file))
  }

  ghost function Synced(y: System): System {
    var s := Sync(y.s);
    y.(s := s, seen := if s.large.Some? then y.seen + |Leaving(y.s)| else 0)
  }

  function Dispatched(order: seq<nat>, y: System): System {
    var s := Dispatch(order, y.s);
    var taken := y.taken + if s.queue == y.s.queue then 0 else 1;
    var file := Opened(order, y.s).1;
    y.(s := s, taken := taken,
       log := if file.Some? then y.log + Gives(Targets(order, y.s), taken - 1, file.value) else y.log)
  }

  ghost function Next(order: seq<nat>, y: System, e: Event): System {
    match e
    case Beat(sender, status) => y.(s := Report(y.s, sender, status))
    case Arrive(file) => y.(s := y.s.(queue := y.s.queue + [file]), arrived := y.arrived + [file])
    case Round => Dispatched(order, Synced(y))
  }

  function Start(order: seq<nat>): System {
    System(State(map x | x in order :: Idle, map[], None, {}, []), [], 0, [], 0)
  }

  ghost function Run(order: seq<nat>, events: seq<Event>): System {
    if events == [] then Start(order)
    else Next(order, Run(order, events[..|events| - 1]), events[|events| - 1])
  }

  // ----- the invariant

  /** A transfer lists at least one sender, each a sender of ours, none twice. */
  ghost predicate GoodList(order: seq<nat>, list: seq<nat>) {
    list != [] && Distinct(list) && forall x :: x in list ==> x in order
  }

  ghost predicate Apart(a: seq<nat>, b: seq<nat>) {
    forall x :: x in a ==> x !in b
  }

  /** No sender is listed twice, within a transfer or across transfers. */
  ghost predicate Lists(order: seq<nat>, s: State) {
    && Distinct(order) && s.status.Keys == Elements(order)
    && (forall p :: p in s.active ==> GoodList(order, s.active[p]))
    && (forall p, q :: p in s.active && q in s.active && p != q ==> Apart(s.active[p], s.active[q]))
  }

  ghost predicate AllIn(status: map<nat, Status>, list: seq<nat>, want: Status) {
    forall x :: x in list ==> x in status && status[x] == want
  }

  /** Every listed sender is marked as working. */
  ghost predicate AllWorking(s: State) {
    forall p :: p in s.active ==> AllIn(s.status, s.active[p], Working)
  }

  /** The current large file is being sent, and nobody is both sending it and done with it. */
  ghost predicate LargeListed(order: seq<nat>, s: State) {
    && (s.large == None ==> s.finished == {})
    && (s.large.Some? ==>
          && s.large.value.path in s.active
          && s.finished !! Elements(s.active[s.large.value.path])
          && s.finished <= Elements(order))
  }

  /** Files are taken from the queue in the order they arrived, and what is given is the file
      of that number. */
  ghost predicate InOrder(y: System) {
    && y.taken <= |y.arrived| && y.s.queue == y.arrived[y.taken..]
    && (forall i :: 0 <= i < |y.log| ==>
                      0 <= y.log[i].index < y.taken && y.log[i].file == y.arrived[y.log[i].index])
    && (forall i, j :: 0 <= i < j < |y.log| ==> y.log[i].index <= y.log[j].index)
  }

  /** Every file taken from the queue was given to some sender. */
  ghost predicate NoneLost(y: System) {
    forall k :: 0 <= k < y.taken ==> WasGiven(y.log, k)
  }

  ghost predicate WasGiven(log: seq<Given>, k: int) {
    exists i :: 0 <= i < |log| && log[i].index == k
  }

  /** Only a large file is given out more than once, and never twice to one sender. */
  ghost predicate Once(y: System)
    requires InOrder(y)
  {
    forall i, j :: 0 <= i < j < |y.log| && y.log[i].index == y.log[j].index ==>
                     y.arrived[y.log[i].index].size >= LARGE && y.log[i].sender != y.log[j].sender
  }

  /** The current large file is the last one taken; whoever was given it is sending it or has
      finished with it, and each one that finished was seen idle once. */
  ghost predicate Tenure(y: System) {
    if y.s.large == None then
      y.seen == 0
    else
      && 0 < y.taken <= |y.arrived| && y.arrived[y.taken - 1] == y.s.large.value && y.s.large.value.size >= LARGE
      && y.seen == |y.s.finished|
      && y.s.large.value.path in y.s.active
      && forall i :: 0 <= i < |y.log| && y.log[i].index == y.taken - 1 ==>
                       y.log[i].sender in y.s.active[y.s.large.value.path] || y.log[i].sender in y.s.finished
  }

  ghost predicate Inv(order: seq<nat>, y: System) {
    Lists(order, y.s) && LargeListed(order, y.s) && InOrder(y) && NoneLost(y) && Once(y) && Tenure(y)
  }

  // ----- lists

  lemma {:induction false} HavingDistinct(status: map<nat, Status>, list: seq<nat>, want: Status)
    requires Distinct(list)
    ensures Distinct(Having(status, list, want))
  {
    if list == [] {
    } else {
      var n := |list| - 1;
      HavingDistinct(status, list[..n], want);
      HavingMember(status, list[..n], want);
    }
  }

  lemma {:induction false} WithoutMember(list: seq<nat>, gone: set<nat>)
    ensures forall x :: x in Without(list, gone) <==> x in list && x !in gone
  {
    if list == [] {
    } else {
      var n := |list| - 1;
      WithoutMember(list[..n], gone);
      assert list == list[..n] + [list[n]];
    }
  }

  lemma {:induction false} WithoutDistinct(list: seq<nat>, gone: set<nat>)
    requires Distinct(list)
    ensures Distinct(Without(list, gone))
  {
    if list == [] {
    } else {
      var n := |list| - 1;
      WithoutDistinct(list[..n], gone);
      WithoutMember(list[..n], gone);
    }
  }

  /** The targets of a round are distinct idle senders of ours. */
  lemma TargetsGood(order: seq<nat>, s: State)
    requires Distinct(order)
    ensures Distinct(Targets(order, s)) && AllIn(s.status, Targets(order, s), Idle)
    ensures forall x :: x in Targets(order, s) ==> x in order
    ensures s.large.Some? ==> forall x :: x in Targets(order, s) ==> x !in s.finished
  {
    var idle := Having(s.status, order, Idle);
    HavingDistinct(s.status, order, Idle);
    HavingMember(s.status, order, Idle);
    WithoutDistinct(idle, s.finished);
    WithoutMember(idle, s.finished);
  }

  function ListOf(s: State, path: string): seq<nat> {
    if path in s.active then s.active[path] else []
  }

  lemma {:induction false} AssignActive(s: State, senders: seq<nat>, f: File)
    requires senders != []
    ensures AssignAll(s, senders, f).active == s.active[f.path := ListOf(s, f.path) + senders]
  {
    var n := |senders| - 1;
    var first, x := senders[..n], senders[n];
    var before := ListOf(s, f.path);
    assert before + senders == before + first + [x];
    var t := AssignAll(s, first, f);
    if first == [] {
    } else {
      AssignActive(s, first, f);
    }
    assert t.active == (if first == [] then s.active else s.active[f.path := before + first]);
    assert ListOf(t, f.path) == before + first;
    assert AssignOne(t, x, f).active == t.active[f.path := before + first + [x]];
  }

  lemma {:induction false} AssignRest(s: State, senders: seq<nat>, f: File)
    ensures var t := AssignAll(s, senders, f);
            t.large == s.large && t.finished == s.finished && t.queue == s.queue
  {
    if senders == [] {
    } else {
      AssignRest(s, senders[..|senders| - 1], f);
    }
  }

  /** The statuses after some senders were given work. */
  ghost predicate Busier(before: map<nat, Status>, after: map<nat, Status>, senders: seq<nat>) {
    && after.Keys == before.Keys
    && forall x :: x in after ==> after[x] == if x in senders then Working else before[x]
  }

  lemma {:induction false} AssignStatus(s: State, senders: seq<nat>, f: File)
    requires forall x :: x in senders ==> x in s.status
    ensures Busier(s.status, AssignAll(s, senders, f).status, senders)
  {
    if senders == [] {
    } else {
      var n := |senders| - 1;
      assert senders == senders[..n] + [senders[n]];
      AssignStatus(s, senders[..n], f);
    }
  }

  // ----- the first half of a round

  lemma SyncLists(order: seq<nat>, s: State)
    requires Lists(order, s)
    ensures Lists(order, Sync(s)) && AllWorking(Sync(s))
  {
    var kept := Kept(s);
    forall p | p in kept
      ensures GoodList(order, kept[p]) && AllIn(s.status, kept[p], Working)
      ensures forall x :: x in kept[p] ==> x in s.active[p]
    {
      assert GoodList(order, s.active[p]);
      HavingMember(s.status, s.active[p], Working);
      HavingDistinct(s.status, s.active[p], Working);
    }
    forall p, q | p in kept && q in kept && p != q
      ensures Apart(kept[p], kept[q])
    {
      assert Apart(s.active[p], s.active[q]);
    }
  }

  /** The senders seen idle leave the large file for good. */
  lemma SyncLeaves(order: seq<nat>, s: State)
    requires Lists(order, s) && LargeListed(order, s) && Sync(s).large.Some?
    ensures var path := s.large.value.path;
            && Sync(s).large == s.large && path in s.active && path in Sync(s).active
            && Sync(s).finished == s.finished + Elements(Leaving(s))
            && (forall x :: x in s.active[path] ==> x in Sync(s).active[path] || x in Leaving(s))
            && Elements(Leaving(s)) !! Elements(Sync(s).active[path])
            && Elements(Leaving(s)) <= Elements(s.active[path])
            && Elements(Sync(s).active[path]) <= Elements(s.active[path])
            && Distinct(Leaving(s))
  {
    var list := s.active[s.large.value.path];
    assert GoodList(order, list);
    HavingMember(s.status, list, Working);
    HavingMember(s.status, list, Idle);
    HavingDistinct(s.status, list, Idle);
  }

  lemma SyncLarge(order: seq<nat>, s: State)
    requires Lists(order, s) && LargeListed(order, s)
    ensures LargeListed(order, Sync(s))
  {
    if Sync(s).large.Some? {
      SyncLeaves(order, s);
      assert GoodList(order, s.active[s.large.value.path]);
    }
  }

  lemma SyncTenure(order: seq<nat>, y: System)
    requires Lists(order, y.s) && LargeListed(order, y.s) && Tenure(y)
    ensures Tenure(Synced(y))
  {
    var t := Sync(y.s);
    if t.large.Some? {
      SyncLeaves(order, y.s);
      var leaving := Leaving(y.s);
      DistinctSize(leaving);
      assert y.s.finished !! Elements(leaving);
      assert |t.finished| == |y.s.finished| + |leaving|;
    }
  }

  lemma SyncKeeps(order: seq<nat>, y: System)
    requires Inv(order, y)
    ensures Inv(order, Synced(y)) && AllWorking(Synced(y).s)
  {
    SyncLists(order, y.s);
    SyncLarge(order, y.s);
    SyncTenure(order, y);
  }

  // ----- the second half of a round

  /** A round gives work to somebody exactly when it has a file to give and somebody to give
      it to, and takes a file from the queue only to give it away at once. */
  lemma DispatchShape(order: seq<nat>, s: State)
    ensures Targets(order, s) == [] ==> Dispatch(order, s) == s
    ensures Targets(order, s) != [] ==>
              var (t, f) := Opened(order, s);
              && f.Some? && Dispatch(order, s) == AssignAll(t, Targets(order, s), f.value)
              && t == s.(queue := t.queue, large := t.large)
              && (s.large.Some? ==> t == s && f == s.large)
              && (s.large == None ==>
                    && s.queue != [] && f.value == s.queue[0] && t.queue == s.queue[1..]
                    && (t.large == if f.value.size < LARGE then None else f)
                    && (f.value.size < LARGE ==> |Targets(order, s)| == 1))
  {
  }

  lemma LongerList(order: seq<nat>, list: seq<nat>, senders: seq<nat>)
    requires (list == [] || GoodList(order, list)) && GoodList(order, senders) && Apart(list, senders)
    ensures GoodList(order, list + senders)
  {
    var both := list + senders;
    forall i, j | 0 <= i < j < |both|
      ensures both[i] != both[j]
    {
      if i < |list| <= j {
        assert both[i] in list && both[j] in senders;
      }
    }
  }

  lemma ApartFromIdle(order: seq<nat>, s: State, senders: seq<nat>)
    requires Lists(order, s) && AllWorking(s) && AllIn(s.status, senders, Idle)
    ensures forall p :: p in s.active ==> Apart(s.active[p], senders) && Apart(senders, s.active[p])
  {
    forall p | p in s.active
      ensures Apart(s.active[p], senders) && Apart(senders, s.active[p])
    {
      assert AllIn(s.status, s.active[p], Working);
    }
  }

  lemma GiveLists(order: seq<nat>, s: State, senders: seq<nat>, f: File)
    requires Lists(order, s) && AllWorking(s)
    requires GoodList(order, senders) && AllIn(s.status, senders, Idle)
    ensures Lists(order, AssignAll(s, senders, f)) && AllWorking(AssignAll(s, senders, f))
  {
    var t := AssignAll(s, senders, f);
    AssignActive(s, senders, f);
    AssignStatus(s, senders, f);
    ApartFromIdle(order, s, senders);
    LongerList(order, ListOf(s, f.path), senders);
    forall p | p in t.active
      ensures AllIn(t.status, t.active[p], Working)
    {
      assert p in s.active ==> AllIn(s.status, s.active[p], Working);
    }
    forall p, q | p in t.active && q in t.active && p != q
      ensures Apart(t.active[p], t.active[q])
    {
      assert p in s.active && q in s.active ==> Apart(s.active[p], s.active[q]);
    }
  }

  lemma DispatchLists(order: seq<nat>, s: State)
    requires Lists(order, s) && AllWorking(s)
    ensures Lists(order, Dispatch(order, s)) && AllWorking(Dispatch(order, s))
  {
    DispatchShape(order, s);
    TargetsGood(order, s);
    if Targets(order, s) != [] {
      var (t, f) := Opened(order, s);
      assert Lists(order, t) && AllWorking(t);
      assert GoodList(order, Targets(order, s));
      GiveLists(order, t, Targets(order, s), f.value);
    }
  }

  lemma DispatchLarge(order: seq<nat>, s: State)
    requires Lists(order, s) && LargeListed(order, s)
    ensures LargeListed(order, Dispatch(order, s))
  {
    DispatchShape(order, s);
    TargetsGood(order, s);
    var senders := Targets(order, s);
    if senders != [] {
      var (t, f) := Opened(order, s);
      AssignActive(t, senders, f.value);
      AssignRest(t, senders, f.value);
      assert Elements(ListOf(t, f.value.path) + senders) == Elements(ListOf(t, f.value.path)) + Elements(senders);
    }
  }

  /** New assignments go to senders that never had the file. */
  lemma LogGrows(y: System, senders: seq<nat>, index: int)
    requires InOrder(y) && Once(y) && Distinct(senders) && senders != []
    requires y.taken - 1 <= index <= y.taken && 0 <= index < |y.arrived|
    requires index == y.taken ==> |senders| == 1 || y.arrived[index].size >= LARGE
    requires index == y.taken - 1 ==> y.arrived[index].size >= LARGE
    requires forall i :: 0 <= i < |y.log| && y.log[i].index == index ==> y.log[i].sender !in senders
    ensures var log := y.log + Gives(senders, index, y.arrived[index]);
            && (forall i :: 0 <= i < |log| ==> 0 <= log[i].index <= index && log[i].file == y.arrived[log[i].index])
            && (forall i, j :: 0 <= i < j < |log| ==> log[i].index <= log[j].index)
            && (forall i, j :: 0 <= i < j < |log| && log[i].index == log[j].index ==>
                                 y.arrived[log[i].index].size >= LARGE && log[i].sender != log[j].sender)
  {
    var log := y.log + Gives(senders, index, y.arrived[index]);
    forall i, j | 0 <= i < j < |log| && log[i].index == log[j].index
      ensures y.arrived[log[i].index].size >= LARGE && log[i].sender != log[j].sender
    {
      if i < |y.log| <= j {
        assert log[j].sender in senders;
      }
    }
  }

  /** Nobody who is given work now has had the current large file before. */
  lemma NewToTargets(order: seq<nat>, y: System)
    requires Inv(order, y) && AllWorking(y.s) && y.s.large.Some?
    ensures forall i :: 0 <= i < |y.log| && y.log[i].index == y.taken - 1 ==> y.log[i].sender !in Targets(order, y.s)
  {
    TargetsGood(order, y.s);
    ApartFromIdle(order, y.s, Targets(order, y.s));
  }

  /** What a round that gives work to somebody adds to the history. */
  lemma DispatchHistory(order: seq<nat>, y: System)
    requires InOrder(y) && Tenure(y) && Targets(order, y.s) != []
    ensures var z := Dispatched(order, y);
            && z.arrived == y.arrived && z.seen == y.seen
            && z.taken == (if y.s.large.Some? then y.taken else y.taken + 1) <= |z.arrived|
            && z.s.queue == z.arrived[z.taken..]
            && 0 < z.taken && z.log == y.log + Gives(Targets(order, y.s), z.taken - 1, z.arrived[z.taken - 1])
            && Opened(order, y.s).1 == Some(z.arrived[z.taken - 1])
            && (y.s.large == None && z.arrived[z.taken - 1].size < LARGE ==> |Targets(order, y.s)| == 1)
  {
    DispatchShape(order, y.s);
    var (t, f) := Opened(order, y.s);
    AssignRest(t, Targets(order, y.s), f.value);
    assert y.s.large == None ==> y.s.queue[1..] == y.arrived[y.taken + 1..];
  }

  lemma DispatchLog(order: seq<nat>, y: System)
    requires Inv(order, y) && AllWorking(y.s)
    ensures InOrder(Dispatched(order, y)) && NoneLost(Dispatched(order, y)) && Once(Dispatched(order, y))
  {
    var z := Dispatched(order, y);
    var senders := Targets(order, y.s);
    if senders == [] {
      DispatchShape(order, y.s);
      assert z == y;
    } else {
      DispatchHistory(order, y);
      TargetsGood(order, y.s);
      if y.s.large.Some? {
        NewToTargets(order, y);
      }
      GrownHistory(y, z, senders);
    }
  }

  lemma GrownHistory(y: System, z: System, senders: seq<nat>)
    requires InOrder(y) && NoneLost(y) && Once(y) && Distinct(senders) && senders != []
    requires z.arrived == y.arrived && y.taken <= z.taken <= y.taken + 1 && 0 < z.taken <= |z.arrived|
    requires z.s.queue == z.arrived[z.taken..]
    requires z.log == y.log + Gives(senders, z.taken - 1, z.arrived[z.taken - 1])
    requires z.taken == y.taken + 1 ==> |senders| == 1 || z.arrived[z.taken - 1].size >= LARGE
    requires z.taken == y.taken ==> z.arrived[z.taken - 1].size >= LARGE
    requires forall i :: 0 <= i < |y.log| && y.log[i].index == z.taken - 1 ==> y.log[i].sender !in senders
    ensures InOrder(z) && NoneLost(z) && Once(z)
  {
    LogGrows(y, senders, z.taken - 1);
    StillGiven(y, senders, z.taken - 1, z.arrived[z.taken - 1]);
  }

  lemma StillGiven(y: System, senders: seq<nat>, index: int, file: File)
    requires NoneLost(y) && senders != []
    ensures forall k :: (0 <= k < y.taken || k == index) ==> WasGiven(y.log + Gives(senders, index, file), k)
  {
    var log := y.log + Gives(senders, index, file);
    forall k | 0 <= k < y.taken || k == index
      ensures WasGiven(log, k)
    {
      if k == index {
        assert log[|y.log|].index == k;
      } else {
        assert WasGiven(y.log, k);
        var i :| 0 <= i < |y.log| && y.log[i].index == k;
        assert log[i].index == k;
      }
    }
  }

  lemma DispatchTenure(order: seq<nat>, y: System)
    requires Inv(order, y)
    ensures Tenure(Dispatched(order, y))
  {
    var z := Dispatched(order, y);
    var senders := Targets(order, y.s);
    DispatchShape(order, y.s);
    if senders == [] {
      assert z == y;
    } else {
      DispatchHistory(order, y);
      var (t, f) := Opened(order, y.s);
      AssignRest(t, senders, f.value);
      AssignActive(t, senders, f.value);
      forall i | 0 <= i < |z.log| && z.log[i].index == z.taken - 1
        ensures z.log[i].sender in senders || (y.s.large.Some? && i < |y.log| && z.log[i] == y.log[i])
      {
      }
    }
  }

  lemma DispatchKeeps(order: seq<nat>, y: System)
    requires Inv(order, y) && AllWorking(y.s)
    ensures Inv(order, Dispatched(order, y)) && AllWorking(Dispatched(order, y).s)
  {
    DispatchLists(order, y.s);
    DispatchLarge(order, y.s);
    DispatchLog(order, y);
    DispatchTenure(order, y);
  }

  // ----- whole runs

  lemma NextKeeps(order: seq<nat>, y: System, e: Event)
    requires Inv(order, y)
    ensures Inv(order, Next(order, y, e))
    ensures e.Round? ==> AllWorking(Next(order, y, e).s)
  {
    match e
    case Beat(sender, status) =>
    case Arrive(file) =>
    case Round =>
      SyncKeeps(order, y);
      DispatchKeeps(order, Synced(y));
  }

  lemma {:induction false} RunInv(order: seq<nat>, events: seq<Event>)
    requires Distinct(order)
    ensures Inv(order, Run(order, events))
    ensures events != [] && events[|events| - 1].Round? ==> AllWorking(Run(order, events).s)
  {
    if events == [] {
    } else {
      var n := |events| - 1;
      RunInv(order, events[..n]);
      NextKeeps(order, Run(order, events[..n]), events[n]);
    }
  }

  predicate ListedAt(s: State, p: string, i: int) {
    p in s.active && 0 <= i < |s.active[p]|
  }

  lemma ListedOnce(order: seq<nat>, s: State, p: string, i: int, q: string, j: int)
    requires Lists(order, s) && ListedAt(s, p, i) && ListedAt(s, q, j) && s.active[p][i] == s.active[q][j]
    ensures p == q && i == j
  {
    assert GoodList(order, s.active[p]);
    assert s.active[p][i] in s.active[p] && s.active[p][i] in s.active[q];
    assert p != q ==> Apart(s.active[p], s.active[q]);
  }

  /** After every turn of the loop: no sender is listed twice anywhere, every listed sender is
      marked as working, no transfer is empty, and the current large file is being sent. */
  lemma SchedulerInvariant(order: seq<nat>, events: seq<Event>)
    requires Distinct(order)
    ensures var s := Run(order, events + [Round]).s;
            && (forall p, i, q, j :: ListedAt(s, p, i) && ListedAt(s, q, j) && s.active[p][i] == s.active[q][j]
                                     ==> p == q && i == j)
            && (forall p, x :: p in s.active && x in s.active[p] ==> x in s.status && s.status[x] == Working)
            && (forall p :: p in s.active ==> s.active[p] != [])
            && (s.large.Some? ==> s.large.value.path in s.active)
  {
    var s := Run(order, events + [Round]).s;
    RunInv(order, events + [Round]);
    forall p, i, q, j | ListedAt(s, p, i) && ListedAt(s, q, j) && s.active[p][i] == s.active[q][j]
      ensures p == q && i == j
    {
      ListedOnce(order, s, p, i, q, j);
    }
    forall p, x | p in s.active && x in s.active[p]
      ensures x in s.status && s.status[x] == Working
    {
      assert AllIn(s.status, s.active[p], Working);
    }
    forall p | p in s.active
      ensures s.active[p] != []
    {
      assert GoodList(order, s.active[p]);
    }
  }

  /** Over every run, files are given out in the order they arrived and none is skipped: the
      log begins with file 0, moves on by at most one file at a time and ends with the last
      file taken, and each entry's file is the one that arrived under its number.  A small file
      is given to one sender only, a large one at most once to each. */
  lemma FirstComeFirstServed(order: seq<nat>, events: seq<Event>)
    requires Distinct(order)
    ensures var y := Run(order, events);
            && y.taken <= |y.arrived| && y.s.queue == y.arrived[y.taken..]
            && (y.log == [] <==> y.taken == 0)
            && (y.log != [] ==> y.log[0].index == 0 && y.log[|y.log| - 1].index == y.taken - 1)
            && (forall i :: 0 <= i < |y.log| ==>
                              0 <= y.log[i].index < |y.arrived| && y.log[i].file == y.arrived[y.log[i].index])
            && (forall i :: 0 < i < |y.log| ==> y.log[i - 1].index <= y.log[i].index <= y.log[i - 1].index + 1)
            && (forall i, j :: 0 <= i < j < |y.log| && y.log[i].index == y.log[j].index ==>
                                 && 0 <= y.log[i].index < |y.arrived|
                                 && y.arrived[y.log[i].index].size >= LARGE && y.log[i].sender != y.log[j].sender)
  {
    RunInv(order, events);
    NoGaps(Run(order, events));
  }

  lemma NoGaps(y: System)
    requires InOrder(y) && NoneLost(y)
    ensures y.log == [] <==> y.taken == 0
    ensures y.log != [] ==> y.log[0].index == 0 && y.log[|y.log| - 1].index == y.taken - 1
    ensures forall i :: 0 < i < |y.log| ==> y.log[i - 1].index <= y.log[i].index <= y.log[i - 1].index + 1
  {
    if y.taken > 0 {
      assert WasGiven(y.log, 0) && WasGiven(y.log, y.taken - 1);
      var i :| 0 <= i < |y.log| && y.log[i].index == 0;
      var j :| 0 <= j < |y.log| && y.log[j].index == y.taken - 1;
      assert y.log[0].index <= y.log[i].index && y.log[j].index <= y.log[|y.log| - 1].index;
    }
    forall i | 0 < i < |y.log|
      ensures y.log[i - 1].index <= y.log[i].index <= y.log[i - 1].index + 1
    {
      NoGapAt(y, i);
    }
    assert y.log != [] ==> 0 <= y.log[0].index < y.taken;
  }

  lemma NoGapAt(y: System, i: nat)
    requires InOrder(y) && NoneLost(y) && 0 < i < |y.log|
    ensures y.log[i].index <= y.log[i - 1].index + 1
  {
    var k := y.log[i - 1].index + 1;
    if k < y.taken {
      assert WasGiven(y.log, k);
      var m :| 0 <= m < |y.log| && y.log[m].index == k;
      assert m >= i;
    }
  }

  /** While a large file is current its senders have been seen idle fewer times than there
      are senders. */
  lemma SeenBound(order: seq<nat>, y: System)
    requires Inv(order, y) && y.s.large.Some?
    ensures y.seen < |order|
  {
    var list := y.s.active[y.s.large.value.path];
    assert GoodList(order, list);
    assert list[0] in Elements(list);
    SubsetSize(y.s.finished + {list[0]}, Elements(order));
    DistinctSize(order);
  }

  /** So a large file ends at the latest when its senders have been seen idle as many times as
      there are senders, and it ends at once when all its senders are idle. */
  lemma TenureEnds(order: seq<nat>, events: seq<Event>)
    requires Distinct(order)
    ensures var y := Run(order, events);
            y.s.large.Some? ==>
              && y.s.large.value.path in y.s.active
              && (y.seen + |Leaving(y.s)| >= |order| ==> Sync(y.s).large == None)
              && (AllIn(y.s.status, y.s.active[y.s.large.value.path], Idle) ==> Sync(y.s).large == None)
  {
    var y := Run(order, events);
    RunInv(order, events);
    if y.s.large.Some? {
      SyncKeeps(order, y);
      if Sync(y.s).large.Some? {
        SeenBound(order, Synced(y));
        HavingMember(y.s.status, y.s.active[y.s.large.value.path], Working);
        var working := Having(y.s.status, y.s.active[y.s.large.value.path], Working);
        assert working[0] in working;
      }
    }
  }

  /** Nothing leaves the queue while a large file is current, and a file that leaves it is the
      first in the queue and is listed with a sender in the same turn. */
  lemma TakenWithCause(order: seq<nat>, y: System)
    requires Inv(order, y)
    ensures var z := Next(order, y, Round);
            && (Sync(y.s).large.Some? ==> z.taken == y.taken)
            && (z.taken > y.taken ==>
                  && |z.log| > |y.log| && z.log[|y.log|].index == y.taken
                  && y.s.queue != [] && z.log[|y.log|].file == y.s.queue[0]
                  && y.s.queue[0].path in z.s.active && z.log[|y.log|].sender in z.s.active[y.s.queue[0].path])
            && (z.taken > y.taken <==>
                  Sync(y.s).large == None && y.s.queue != [] && Having(y.s.status, order, Idle) != [])
  {
    SyncKeeps(order, y);
    var t := Synced(y);
    DispatchShape(order, t.s);
    var senders := Targets(order, t.s);
    if senders != [] {
      DispatchHistory(order, t);
      TargetListed(order, t.s);
    }
  }

  /** The first to be given work is listed under the file it was given. */
  lemma TargetListed(order: seq<nat>, s: State)
    requires Targets(order, s) != [] && Opened(order, s).1.Some?
    ensures var path := Opened(order, s).1.value.path;
            path in Dispatch(order, s).active && Targets(order, s)[0] in Dispatch(order, s).active[path]
  {
    var senders := Targets(order, s);
    var (t, f) := Opened(order, s);
    AssignActive(t, senders, f.value);
    assert senders[0] in ListOf(t, f.value.path) + senders;
  }

  function SendersOf(log: seq<Given>): seq<nat> {
    seq(|log|, i requires 0 <= i < |log| => log[i].sender)
  }

  /** The history says what happened to the lists: a round that logs nothing changes no list,
      and one that logs something gives a single file, appending the logged senders, in order,
      to that file's list and to no other. */
  lemma LogMatchesLists(order: seq<nat>, y: System)
    ensures var z := Dispatched(order, y);
            && y.log <= z.log
            && var added := z.log[|y.log|..];
               if added == [] then
                 z.s.active == y.s.active
               else
                 && (forall i :: 0 <= i < |added| ==> added[i].file == added[0].file)
                 && z.s.active == y.s.active[added[0].file.path := ListOf(y.s, added[0].file.path) + SendersOf(added)]
  {
    DispatchShape(order, y.s);
    var senders := Targets(order, y.s);
    var z := Dispatched(order, y);
    if senders != [] {
      var (t, f) := Opened(order, y.s);
      AssignActive(t, senders, f.value);
      assert SendersOf(z.log[|y.log|..]) == senders;
    }
  }

  /** While a large file is current, a turn of the loop leaves no sender idle except those that
      have already finished with that file. */
  lemma NobodyLeftIdle(order: seq<nat>, events: seq<Event>)
    requires Distinct(order)
    ensures var s := Run(order, events + [Round]).s;
            s.large.Some? ==> forall x :: x in order ==> x in s.status && (s.status[x] == Working || x in s.finished)
  {
    var y := Run(order, events);
    assert (events + [Round])[..|events|] == events;
    RunInv(order, events);
    SyncKeeps(order, y);
    DispatchServes(order, Sync(y.s));
  }

  lemma DispatchServes(order: seq<nat>, s: State)
    requires Distinct(order) && s.status.Keys == Elements(order) && (s.large == None ==> s.finished == {})
    ensures var t := Dispatch(order, s);
            t.large.Some? ==> forall x :: x in order ==> x in t.status && (t.status[x] == Working || x in t.finished)
  {
    var idle, senders := Having(s.status, order, Idle), Targets(order, s);
    HavingMember(s.status, order, Idle);
    WithoutMember(idle, s.finished);
    DispatchShape(order, s);
    if senders != [] {
      var (t, f) := Opened(order, s);
      AssignStatus(t, senders, f.value);
      AssignRest(t, senders, f.value);
    }
  }

  // ----- what each part of a turn does

  /** A heartbeat sets the status of its sender, and nothing else changes; one from a sender
      that is not ours changes nothing. */
  lemma HeartbeatSets(order: seq<nat>, events: seq<Event>, sender: nat, status: Status)
    requires Distinct(order)
    ensures var y, z := Run(order, events), Run(order, events + [Beat(sender, status)]);
            && z == y.(s := y.s.(status := z.s.status))
            && z.s.status.Keys == y.s.status.Keys == Elements(order)
            && (sender in order ==> z.s.status[sender] == status)
            && forall x :: x in order && x != sender ==> z.s.status[x] == y.s.status[x]
  {
    RunInv(order, events);
    assert (events + [Beat(sender, status)])[..|events|] == events;
    BeatSets(order, Run(order, events), sender, status);
  }

  lemma BeatSets(order: seq<nat>, y: System, sender: nat, status: Status)
    requires Lists(order, y.s)
    ensures var z := Next(order, y, Beat(sender, status));
            && z == y.(s := y.s.(status := z.s.status))
            && z.s.status.Keys == y.s.status.Keys == Elements(order)
            && (sender in order ==> z.s.status[sender] == status)
            && forall x :: x in order && x != sender ==> z.s.status[x] == y.s.status[x]
  {
  }

  /** After a poll a sender has the status of its last report. */
  lemma {:induction false} LastReportCounts(s: State, reports: seq<(nat, Status)>, i: nat)
    requires i < |reports| && reports[i].0 in s.status
    requires forall j :: i < j < |reports| ==> reports[j].0 != reports[i].0
    ensures Reported(s, reports).status.Keys == s.status.Keys
    ensures Reported(s, reports).status[reports[i].0] == reports[i].1
  {
    var n := |reports| - 1;
    ReportsKeepKeys(s, reports[..n]);
    if i == n {
    } else {
      LastReportCounts(s, reports[..n], i);
    }
  }

  /** A sender that does not report keeps its status, and so does everything else. */
  lemma {:induction false} SilentSenderKeeps(s: State, reports: seq<(nat, Status)>, x: nat)
    requires x in s.status && forall j :: 0 <= j < |reports| ==> reports[j].0 != x
    ensures x in Reported(s, reports).status && Reported(s, reports).status[x] == s.status[x]
    ensures Reported(s, reports) == s.(status := Reported(s, reports).status)
  {
    if reports == [] {
    } else {
      SilentSenderKeeps(s, reports[..|reports| - 1], x);
    }
  }

  lemma {:induction false} ReportsKeepKeys(s: State, reports: seq<(nat, Status)>)
    ensures Reported(s, reports).status.Keys == s.status.Keys
  {
    if reports == [] {
    } else {
      ReportsKeepKeys(s, reports[..|reports| - 1]);
    }
  }

  ghost predicate ListedIn(s: State, p: string, x: nat) {
    p in s.active && x in s.active[p]
  }

  /** Synchronising takes exactly the idle senders off the lists, forgets exactly the transfers
      that have no other, lets go of the large file exactly when nobody works on it any more,
      and until then remembers exactly who left it. */
  lemma SyncExactly(order: seq<nat>, s: State)
    requires Lists(order, s) && LargeListed(order, s)
    ensures var t := Sync(s);
            && t.status == s.status && t.queue == s.queue
            && (forall p, x :: ListedIn(t, p, x) <==> ListedIn(s, p, x) && s.status[x] == Working)
            && (forall p :: p in t.active <==> exists x :: ListedIn(s, p, x) && s.status[x] == Working)
            && (s.large == None ==> t.large == None)
            && (s.large.Some? ==>
                  var path := s.large.value.path;
                  if exists x :: ListedIn(s, path, x) && s.status[x] == Working then
                    && t.large == s.large
                    && forall x :: x in t.finished <==> x in s.finished || (ListedIn(s, path, x) && s.status[x] == Idle)
                  else
                    t.large == None && t.finished == {})
  {
    KeptExactly(order, s);
    forall p, x
      ensures ListedIn(Sync(s), p, x) <==> ListedIn(s, p, x) && s.status[x] == Working
    {
      StillListed(order, s, p, x);
    }
    if s.large.Some? {
      LargeExactly(order, s);
    }
  }

  lemma StillListed(order: seq<nat>, s: State, p: string, x: nat)
    requires Lists(order, s)
    ensures ListedIn(s, p, x) ==> x in s.status
    ensures ListedIn(Sync(s), p, x) <==> ListedIn(s, p, x) && s.status[x] == Working
  {
    if p in s.active {
      HavingMember(s.status, s.active[p], Working);
      assert GoodList(order, s.active[p]);
    }
  }

  lemma LargeExactly(order: seq<nat>, s: State)
    requires Lists(order, s) && LargeListed(order, s) && s.large.Some?
    ensures var t, path := Sync(s), s.large.value.path;
            if exists x :: ListedIn(s, path, x) && s.status[x] == Working then
              && t.large == s.large
              && forall x :: x in t.finished <==> x in s.finished || (ListedIn(s, path, x) && s.status[x] == Idle)
            else
              t.large == None && t.finished == {}
  {
    var path := s.large.value.path;
    var working := Having(s.status, s.active[path], Working);
    HavingMember(s.status, s.active[path], Working);
    HavingMember(s.status, s.active[path], Idle);
    assert GoodList(order, s.active[path]);
    if working != [] {
      assert working[0] in working && ListedIn(s, path, working[0]);
    }
  }

  lemma KeptExactly(order: seq<nat>, s: State)
    requires Lists(order, s)
    ensures forall p :: p in Kept(s) <==> exists x :: ListedIn(s, p, x) && s.status[x] == Working
  {
    forall p | p in s.active
      ensures p in Kept(s) <==> exists x :: ListedIn(s, p, x) && s.status[x] == Working
    {
      var working := Having(s.status, s.active[p], Working);
      HavingMember(s.status, s.active[p], Working);
      assert GoodList(order, s.active[p]);
      if working != [] {
        assert working[0] in working && ListedIn(s, p, working[0]);
      }
    }
  }

  /** Sender i is idle, and nobody before it in the order is. */
  ghost predicate FirstIdle(order: seq<nat>, status: map<nat, Status>, i: nat) {
    && i < |order| && order[i] in status && status[order[i]] == Idle
    && forall j :: 0 <= j < i ==> order[j] in status ==> status[order[j]] != Idle
  }

  lemma {:induction false} HavingFirst(order: seq<nat>, status: map<nat, Status>) returns (i: nat)
    requires Having(status, order, Idle) != []
    ensures FirstIdle(order, status, i) && Having(status, order, Idle)[0] == order[i]
  {
    var n := |order| - 1;
    var front := order[..n];
    if Having(status, front, Idle) == [] {
      HavingMember(status, front, Idle);
      i := n;
      assert forall j :: 0 <= j < n ==> order[j] in front;
    } else {
      i := HavingFirst(front, status);
    }
  }

  /** Who gets a file that is taken from the queue: below ten megabytes the first idle sender
      alone; from there on every idle sender, and it becomes the current large file. */
  lemma WhoGetsIt(order: seq<nat>, y: System)
    requires Inv(order, y) && Sync(y.s).large == None
    requires y.s.queue != [] && Having(y.s.status, order, Idle) != []
    ensures var z, file := Next(order, y, Round), y.s.queue[0];
            && z.s.queue == y.s.queue[1..]
            && (file.size < 10_485_760 ==>
                  && z.s.large == None
                  && exists i: nat :: FirstIdle(order, y.s.status, i) && z.log == y.log + [Given(order[i], y.taken, file)])
            && (file.size >= 10_485_760 ==>
                  && z.s.large == Some(file) && y.log <= z.log
                  && forall x :: x in SendersOf(z.log[|y.log|..]) <==> x in order && y.s.status[x] == Idle)
  {
    var file, idle := y.s.queue[0], Having(y.s.status, order, Idle);
    RoundTakes(order, y);
    if file.size < LARGE {
      var i := HavingFirst(order, y.s.status);
      assert Gives([idle[0]], y.taken, file) == [Given(order[i], y.taken, file)];
    } else {
      HavingMember(y.s.status, order, Idle);
      assert SendersOf(Gives(idle, y.taken, file)) == idle;
      assert Next(order, y, Round).log[|y.log|..] == Gives(idle, y.taken, file);
    }
  }

  lemma RoundTakes(order: seq<nat>, y: System)
    requires Inv(order, y) && Sync(y.s).large == None
    requires y.s.queue != [] && Having(y.s.status, order, Idle) != []
    ensures var z, file, idle := Next(order, y, Round), y.s.queue[0], Having(y.s.status, order, Idle);
            && z.s.queue == y.s.queue[1..]
            && z.s.large == (if file.size < LARGE then None else Some(file))
            && z.log == y.log + Gives(if file.size < LARGE then [idle[0]] else idle, y.taken, file)
  {
    SyncKeeps(order, y);
    SyncExactly(order, y.s);
    DispatchTakes(order, Synced(y));
  }

  lemma DispatchTakes(order: seq<nat>, y: System)
    requires InOrder(y) && Tenure(y) && y.s.large == None
    requires y.s.queue != [] && Having(y.s.status, order, Idle) != []
    ensures var z, file, idle := Dispatched(order, y), y.s.queue[0], Having(y.s.status, order, Idle);
            && z.s.queue == y.s.queue[1..]
            && z.s.large == (if file.size < LARGE then None else Some(file))
            && z.log == y.log + Gives(if file.size < LARGE then [idle[0]] else idle, y.taken, file)
  {
    DispatchHistory(order, y);
    AssignRest(Opened(order, y.s).0, Targets(order, y.s), y.s.queue[0]);
  }

  /** At the start every sender is idle: the first file is given out in the first round, a small
      one to the first sender of the order, a large one to all of them. */
  lemma FirstFile(order: seq<nat>, file: File)
    requires Distinct(order) && order != []
    ensures var z := Run(order, [Arrive(file), Round]);
            && z.s.queue == []
            && SendersOf(z.log) == (if file.size < 10_485_760 then [order[0]] else order)
            && forall i :: 0 <= i < |z.log| ==> z.log[i].file == file
  {
    var first := [Arrive(file)];
    assert first[..0] == [] && (first + [Round])[..1] == first && first + [Round] == [Arrive(file), Round];
    RunInv(order, first);
    assert Run(order, first) == Next(order, Run(order, first[..0]), first[0]);
    assert Run(order, []) == Start(order);
    FirstRound(order, Run(order, first), file);
  }

  lemma FirstRound(order: seq<nat>, y: System, file: File)
    requires y == Next(order, Start(order), Arrive(file)) && Inv(order, y) && order != []
    ensures var z := Next(order, y, Round);
            && z.s.queue == []
            && SendersOf(z.log) == (if file.size < LARGE then [order[0]] else order)
            && forall i :: 0 <= i < |z.log| ==> z.log[i].file == file
  {
    AllIdle(y.s.status, order);
    RoundTakes(order, y);
  }

  lemma {:induction false} AllIdle(status: map<nat, Status>, list: seq<nat>)
    requires forall x :: x in list ==> x in status && status[x] == Idle
    ensures Having(status, list, Idle) == list
  {
    if list == [] {
    } else {
      AllIdle(status, list[..|list| - 1]);
    }
  }

  ghost function Beats(reports: seq<(nat, Status)>): seq<Event> {
    if reports == [] then []
    else
      var n := |reports| - 1;
      Beats(reports[..n]) + [Beat(reports[n].0, reports[n].1)]
  }

  /** A turn of the event loop is a run of its heartbeats and one round. */
  lemma {:induction false} LoopTurn(order: seq<nat>, events: seq<Event>, reports: seq<(nat, Status)>)
    ensures Run(order, events + Beats(reports)).s == Reported(Run(order, events).s, reports)
    ensures Run(order, events + Beats(reports) + [Round]).s
            == Dispatch(order, Sync(Reported(Run(order, events).s, reports)))
  {
    var all := events + Beats(reports);
    assert (all + [Round])[..|all|] == all;
    if reports == [] {
      assert all == events;
    } else {
      var n := |reports| - 1;
      LoopTurn(order, events, reports[..n]);
      var before := events + Beats(reports[..n]);
      assert all == before + [Beat(reports[n].0, reports[n].1)];
      assert all[..|all| - 1] == before;
    }
  }
}
