/** The counter file, byte by byte: eight little-endian bytes under an advisory lock. */
module CounterBytes {
  import opened Basics
  import opened Octets

  const COUNTER_SIZE := 8

  /** What a counter file amounts to. */
  datatype Counter = Absent | Empty | Holding(value: nat)

  /** The counter after one count, in 64-bit arithmetic. */
  function Advance(c: Counter): Counter
    requires c.Holding?
  {
    Holding((c.value + 1) % TWO_64)
  }

  /** The first eight bytes of the file, zero-filled. */
  function Head(contents: Bytes): (b: Bytes)
    ensures |b| == COUNTER_SIZE
  {
    if |contents| >= COUNTER_SIZE then contents[..COUNTER_SIZE]
    else contents + Zeros(COUNTER_SIZE - |contents|)
  }

  /** Writing at offset zero replaces the head and keeps whatever follows it. */
  function Overwrite(contents: Bytes, head: Bytes): Bytes {
    head + (if |contents| > |head| then contents[|head|..] else [])
  }

  function View(contents: Bytes): Counter {
    if contents == [] then Empty else Holding(FromLittleEndian(Head(contents)))
  }

  lemma HeadOverwrite(contents: Bytes, head: Bytes)
    requires |head| == COUNTER_SIZE
    ensures Head(Overwrite(contents, head)) == head && Overwrite(contents, head) != []
  {
  }

  lemma {:induction false} ZerosAddNothing(b: Bytes, n: nat)
    ensures FromLittleEndian(b + Zeros(n)) == FromLittleEndian(b)
    decreases |b| + n
  {
    if b != [] {
      assert (b + Zeros(n))[1..] == b[1..] + Zeros(n);
      ZerosAddNothing(b[1..], n);
    } else if n == 0 {
    } else {
      assert Zeros(n)[1..] == Zeros(n - 1) && b + Zeros(n) == Zeros(n) && b + Zeros(n - 1) == Zeros(n - 1);
      ZerosAddNothing(b, n - 1);
    }
  }

  /** A file of fewer than eight bytes counts as the number those bytes spell. */
  lemma ShortFile(contents: Bytes)
    requires 0 < |contents| <= COUNTER_SIZE
    ensures View(contents) == Holding(FromLittleEndian(contents))
  {
    ZerosAddNothing(contents, COUNTER_SIZE - |contents|);
    assert contents[..|contents|] == contents && contents + Zeros(0) == contents;
  }

  lemma CounterSizeRange(width: nat)
    requires width == COUNTER_SIZE
    ensures Pow256(width) == TWO_64
  {
    Pow256Values();
  }

  /** A 64-bit number survives its eight bytes. */
  lemma Decoded(n: nat, width: nat)
    requires width == COUNTER_SIZE && n < TWO_64
    ensures FromLittleEndian(LittleEndian(n, width)) == n
  {
    LittleEndianRoundTrip(n, width);
    CounterSizeRange(width);
    ModSmall(n, Pow256(width));
  }

  /** Bytes written at the start are what the next reader sees. */
  lemma Stored(contents: Bytes, head: Bytes)
    requires |head| == COUNTER_SIZE
    ensures View(Overwrite(contents, head)) == Holding(FromLittleEndian(head))
  {
    HeadOverwrite(contents, head);
  }

  lemma {:induction false} ValueBound(b: Bytes)
    ensures FromLittleEndian(b) < Pow256(|b|)
  {
    if b == [] {
    } else {
      ValueBound(b[1..]);
      NatRoundTrip(b[0]);
    }
  }

  lemma HeadRange(contents: Bytes)
    ensures FromLittleEndian(Head(contents)) < TWO_64
  {
    ValueBound(Head(contents));
    CounterSizeRange(|Head(contents)|);
  }

  /** The counter file as a process sees it while holding the lock. */
  class CounterFile {
    var isThere: bool
    var contents: Bytes

    ghost function State(): Counter
      reads this
    {
      if isThere then View(contents) else Absent
    }

    constructor ()
      ensures State() == Absent
    {
      isThere := false;
      contents := [];
    }

    /** Exclusive creation: succeeds for exactly one caller. */
    method CreateExclusive() returns (created: bool)
      modifies this
      ensures created == old(State()).Absent?
      ensures State() == if created then Empty else old(State())
    {
      created := !isThere;
      if created {
        isThere := true;
        contents := [];
      }
    }

    /** Writes eight bytes at the start of the file. */
    method WriteCounter(n: u64)
      requires isThere
      modifies this`contents
      ensures State() == Holding(n)
      ensures |contents| == if |old(contents)| <= COUNTER_SIZE then COUNTER_SIZE else |old(contents)|
      ensures |old(contents)| > COUNTER_SIZE ==> contents[COUNTER_SIZE..] == old(contents)[COUNTER_SIZE..]
    {
      var buf := LittleEndian(n, COUNTER_SIZE);
      Decoded(n, COUNTER_SIZE);
      Stored(contents, buf);
      contents := Overwrite(contents, buf);
    }

    /** The creator's zero-write. */
    method WriteZero()
      requires !State().Absent?
      modifies this`contents
      ensures State() == Holding(0)
    {
      WriteCounter(0);
    }

    /** Reads up to eight bytes from the start; an empty file is end-of-file. */
    method ReadCounter() returns (r: Result<nat>)
      requires isThere
      ensures State().Empty? ==> r.Err?
      ensures State().Holding? ==> r == Ok(State().value) && r.value < TWO_64
    {
      if contents == [] {
        return Err("EOF");
      }
      var buf: Bytes := Zeros(COUNTER_SIZE);
      var n := Min(|contents|, COUNTER_SIZE);
      buf := contents[..n] + buf[n..];
      assert buf == Head(contents);
      HeadRange(contents);
      r := Ok(FromLittleEndian(buf));
    }

    /** Read, increment and write back: returns the old value, stores the next one modulo
        2^64, and fails on an empty file without writing. */
    method Count() returns (r: Result<nat>)
      requires !State().Absent?
      modifies this`contents
      ensures old(State()).Empty? ==> r.Err? && State() == Empty
      ensures old(State()).Holding? ==>
        && r == Ok(old(State()).value) && r.value < TWO_64
        && State() == Advance(old(State()))
        && (r.value == TWO_64 - 1 ==> State() == Holding(0))
    {
      r := ReadCounter();
      if r.Err? {
        return;
      }
      WriteCounter((r.value + 1) % TWO_64);
    }
  }
}

/** How sender processes share a file: the counter hands out strides of blocks, in 32-bit
    arithmetic, to any number of tasks that may join at any time. */
module Claims {
  import opened Basics
  import opened CounterBytes

  // ----- claim arithmetic, with 32-bit wrap-around

  /** First block of the stride for a count. */
  function StartBlock(count: nat, stride: nat): nat {
    (count % TWO_32 * stride) % TWO_32
  }

  /** One past the last block of the stride. */
  function EndBlock(start: nat, stride: nat, total: nat): nat {
    var end := (start + stride) % TWO_32;
    if end > total then total else end
  }

  // ----- the step machine

  /** A sender task: it created the file and still has to write the zero; it can count;
      it saw a count past the end; it gave up on an error. */
  datatype Phase = Creating | Ready | Done | Stopped

  datatype Claim = Claim(task: nat, count: nat, start: nat, end: nat)

  datatype State = State(
    file: Counter,
    tasks: map<nat, Phase>,
    claims: seq<Claim>,
    lost: set<nat>
  )

  const INIT := State(Absent, map[], [], {})

  /** Join opens or creates the file.  Fail is an I/O error in the zero-write or the count;
      `advanced` says whether the count had already been written back. */
  datatype Event = Join(task: nat) | ZeroWrite(task: nat) | Count(task: nat) | Fail(task: nat, advanced: bool)

  datatype Plan = Plan(total: nat, stride: nat)

  ghost predicate Enabled(s: State, e: Event) {
    match e
    case Join(t) => t !in s.tasks
    case ZeroWrite(t) => t in s.tasks && s.tasks[t] == Creating
    case Count(t) => t in s.tasks && s.tasks[t] == Ready
    case Fail(t, advanced) =>
      t in s.tasks &&
      if advanced then s.tasks[t] == Ready && s.file.Holding? else s.tasks[t] == Creating || s.tasks[t] == Ready
  }

  ghost function Next(plan: Plan, s: State, e: Event): State
    requires Enabled(s, e)
  {
    match e
    case Join(t) =>
      if s.file.Absent? then s.(file := Empty, tasks := s.tasks[t := Creating])
      else s.(tasks := s.tasks[t := Ready])
    case ZeroWrite(t) => s.(file := Holding(0), tasks := s.tasks[t := Ready])
    case Count(t) =>
      if !s.file.Holding? then s.(tasks := s.tasks[t := Stopped])
      else
        var count := s.file.value;
        var start := StartBlock(count, plan.stride);
        if start >= plan.total then s.(file := Advance(s.file), tasks := s.tasks[t := Done])
        else
          s.(file := Advance(s.file),
             claims := s.claims + [Claim(t, count, start, EndBlock(start, plan.stride, plan.total))])
    case Fail(t, advanced) =>
      if advanced then
        s.(file := Advance(s.file), tasks := s.tasks[t := Stopped], lost := s.lost + {s.file.value})
      else s.(tasks := s.tasks[t := Stopped])
  }

  ghost predicate Run(plan: Plan, events: seq<Event>, states: seq<State>) {
    && |states| == |events| + 1
    && states[0] == INIT
    && forall i :: 0 <= i < |events| ==> Enabled(states[i], events[i]) && states[i + 1] == Next(plan, states[i], events[i])
  }

  // ----- the sender's calls, as steps of the machine

  /** What one turn of the sender's loop came to. */
  datatype Turn = Stride(start: nat, end: nat) | PastEnd | CountFailed

  /** Opens the counter file, creating it when it is not there; a creator still has to write
      the zero. */
  method OpenCounter(file: CounterFile, plan: Plan, ghost s: State, task: nat) returns (creating: bool)
    requires s.file == file.State() && Enabled(s, Join(task))
    modifies file
    ensures var next := Next(plan, s, Join(task));
            file.State() == next.file && next.tasks[task] == if creating then Creating else Ready
  {
    creating := file.CreateExclusive();
  }

  /** The creator's zero-write. */
  method WriteInitialZero(file: CounterFile, plan: Plan, ghost s: State, task: nat)
    requires s.file == file.State() && !s.file.Absent? && Enabled(s, ZeroWrite(task))
    modifies file`contents
    ensures file.State() == Next(plan, s, ZeroWrite(task)).file
  {
    file.WriteZero();
  }

  /** Takes a count and works out the stride it stands for, in 32-bit arithmetic. */
  method ClaimStride(file: CounterFile, plan: Plan, ghost s: State, task: nat) returns (turn: Turn)
    requires s.file == file.State() && !s.file.Absent? && Enabled(s, Count(task))
    modifies file`contents
    ensures var next := Next(plan, s, Count(task));
            && file.State() == next.file
            && match turn
               case Stride(start, end) =>
                 && s.file.Holding? && next.tasks == s.tasks && end <= plan.total
                 && next.claims == s.claims + [Claim(task, s.file.value, start, end)]
               case PastEnd => next.claims == s.claims && next.tasks == s.tasks[task := Done]
               case CountFailed => next.claims == s.claims && next.tasks == s.tasks[task := Stopped]
  {
    var count := file.Count();
    if count.Err? {
      return CountFailed;
    }
    var startBlock := StartBlock(count.value, plan.stride);
    if startBlock >= plan.total {
      return PastEnd;
    }
    turn := Stride(startBlock, EndBlock(startBlock, plan.stride, plan.total));
  }

  // ----- the invariant

  ghost function Strides(plan: Plan): nat
    requires plan.stride > 0
  {
    CeilDiv(plan.total, plan.stride)
  }

  /** No 32-bit step wraps with at most `tasks` tasks: one count each may overshoot. */
  ghost predicate Fits(plan: Plan, tasks: nat) {
    && plan.stride > 0 && tasks > 0
    && plan.stride * (Strides(plan) + tasks - 1) < TWO_32
  }

  ghost function Finished(s: State): (f: set<nat>)
    ensures forall t :: t in f <==> t in s.tasks && (s.tasks[t] == Done || s.tasks[t] == Stopped)
  {
    set t | t in s.tasks && (s.tasks[t] == Done || s.tasks[t] == Stopped)
  }

  /** How often the counter has been advanced. */
  ghost function Issued(s: State): nat {
    if s.file.Holding? then s.file.value else 0
  }

  /** The claim is exactly the stride its count stands for, cut at the end of the file. */
  ghost predicate GoodClaim(plan: Plan, c: Claim) {
    && c.start == c.count * plan.stride < plan.total
    && c.end == Min(c.start + plan.stride, plan.total)
  }

  ghost predicate Claimed(s: State, count: nat) {
    exists i :: 0 <= i < |s.claims| && s.claims[i].count == count
  }

  /** Before the zero-write the file is empty and nothing has been claimed. */
  ghost predicate FilePhase(s: State) {
    && (s.file.Absent? ==> s.tasks == map[])
    && (!s.file.Holding? ==> s.claims == [] && s.lost == {})
    && (forall t :: t in s.tasks && s.tasks[t] == Creating ==> s.file == Empty)
    && (forall t, u :: t in s.tasks && u in s.tasks && s.tasks[t] == Creating && s.tasks[u] == Creating ==> t == u)
  }

  ghost predicate ClaimsGood(plan: Plan, s: State) {
    && (forall i :: 0 <= i < |s.claims| ==> GoodClaim(plan, s.claims[i]) && s.claims[i].count < Issued(s))
    && (forall i, j :: 0 <= i < j < |s.claims| ==> s.claims[i].count < s.claims[j].count)
  }

  ghost predicate CountsUsed(plan: Plan, s: State)
    requires plan.stride > 0
  {
    && (forall n: nat :: n < Issued(s) && n < Strides(plan) ==> n in s.lost || Claimed(s, n))
    && (forall t :: t in s.tasks && s.tasks[t] == Done ==> Issued(s) >= Strides(plan))
    && Issued(s) <= Strides(plan) + |Finished(s)|
  }

  ghost predicate Inv(plan: Plan, s: State) {
    plan.stride > 0 && FilePhase(s) && ClaimsGood(plan, s) && CountsUsed(plan, s)
  }

  // ----- arithmetic of one count

  lemma StrideBounds(plan: Plan, n: nat)
    requires plan.stride > 0
    ensures n < Strides(plan) <==> n * plan.stride < plan.total
    ensures n < Strides(plan) ==> n * plan.stride + plan.stride <= Strides(plan) * plan.stride
  {
    var q := Strides(plan);
    assert q * plan.stride <= plan.total + plan.stride - 1 < q * plan.stride + plan.stride;
    if n < q {
      MulMono(n + 1, q, plan.stride);
      assert (n + 1) * plan.stride == n * plan.stride + plan.stride;
    } else {
      MulMono(q, n, plan.stride);
    }
  }

  /** While the counter is in range the 32-bit arithmetic is exact. */
  lemma NoWrap(plan: Plan, tasks: nat, count: nat)
    requires Fits(plan, tasks) && count <= Strides(plan) + tasks - 1
    ensures StartBlock(count, plan.stride) == count * plan.stride
    ensures count < Strides(plan) ==>
      EndBlock(count * plan.stride, plan.stride, plan.total) == Min(count * plan.stride + plan.stride, plan.total)
  {
    var limit := Strides(plan) + tasks - 1;
    var start := count * plan.stride;
    CountBounds(count, limit, plan.stride, start);
    if count < Strides(plan) {
      StrideBounds(plan, count);
      MulMono(Strides(plan), limit, plan.stride);
      Small(start + plan.stride);
    }
  }

  lemma CountBounds(count: nat, limit: nat, stride: nat, start: nat)
    requires count <= limit && stride > 0 && stride * limit < TWO_32 && start == count * stride
    ensures count <= start < TWO_32 && StartBlock(count, stride) == start
  {
    MulMono(count, limit, stride);
    MulMono(1, stride, count);
    Small(count);
    Small(start);
  }

  lemma Small(x: nat)
    requires x < TWO_32
    ensures x % TWO_32 == x
  {
  }

  /** The end of a stride wraps as well: in a file of more than 2^32 - 8 blocks the last stride
      comes out empty, and its blocks are claimed by nobody. */
  lemma LastStrideEmpty(total: nat)
    requires TWO_32 - 8 < total < TWO_32
    ensures var count := Strides(Plan(total, 8)) - 1;
            && StartBlock(count, 8) == TWO_32 - 8 < total
            && EndBlock(StartBlock(count, 8), 8, total) == 0
  {
    assert Strides(Plan(total, 8)) == 0x2000_0000;
  }

  // ----- every step keeps the invariant

  /** A task that can still count is not finished. */
  lemma FinishedBelow(s: State, t: nat)
    requires t in s.tasks && t !in Finished(s)
    ensures |Finished(s)| < |s.tasks|
  {
    assert Finished(s) <= s.tasks.Keys - {t};
    SubsetSize(Finished(s), s.tasks.Keys - {t});
    assert |s.tasks.Keys - {t}| == |s.tasks.Keys| - 1;
  }

  lemma FinishedAfter(s: State, s': State, t: nat, phase: Phase)
    requires s'.tasks == s.tasks[t := phase] && t !in Finished(s)
    ensures |Finished(s')| == |Finished(s)| + if phase == Done || phase == Stopped then 1 else 0
  {
    if phase == Done || phase == Stopped {
      assert Finished(s') == Finished(s) + {t};
    } else {
      assert Finished(s') == Finished(s);
    }
  }

  lemma JoinInv(plan: Plan, s: State, t: nat)
    requires Inv(plan, s) && t !in s.tasks
    ensures Inv(plan, Next(plan, s, Join(t)))
  {
    var s' := Next(plan, s, Join(t));
    FinishedAfter(s, s', t, s'.tasks[t]);
    assert forall n :: Claimed(s', n) <==> Claimed(s, n);
  }

  lemma ZeroWriteInv(plan: Plan, s: State, t: nat)
    requires Inv(plan, s) && t in s.tasks && s.tasks[t] == Creating
    ensures Inv(plan, Next(plan, s, ZeroWrite(t)))
  {
    var s' := Next(plan, s, ZeroWrite(t));
    FinishedAfter(s, s', t, Ready);
  }

  /** The counter's position when a task counts, and the exactness of the claim it leads to. */
  lemma CountInRange(plan: Plan, s: State, t: nat, tasks: nat)
    requires Inv(plan, s) && Fits(plan, tasks) && |s.tasks| <= tasks
    requires t in s.tasks && s.tasks[t] == Ready && s.file.Holding?
    ensures s.file.value <= Strides(plan) + |Finished(s)| <= Strides(plan) + tasks - 1
    ensures Advance(s.file) == Holding(s.file.value + 1)
    ensures StartBlock(s.file.value, plan.stride) == s.file.value * plan.stride
    ensures StartBlock(s.file.value, plan.stride) < plan.total <==> s.file.value < Strides(plan)
    ensures s.file.value < Strides(plan) ==>
      var start := s.file.value * plan.stride;
      EndBlock(start, plan.stride, plan.total) == Min(start + plan.stride, plan.total)
  {
    FinishedBelow(s, t);
    CountExact(plan, tasks, s.file.value);
  }

  lemma CountExact(plan: Plan, tasks: nat, count: nat)
    requires Fits(plan, tasks) && count <= Strides(plan) + tasks - 1
    ensures Advance(Holding(count)) == Holding(count + 1)
    ensures StartBlock(count, plan.stride) == count * plan.stride
    ensures StartBlock(count, plan.stride) < plan.total <==> count < Strides(plan)
    ensures count < Strides(plan) ==>
      var start := count * plan.stride;
      EndBlock(start, plan.stride, plan.total) == Min(start + plan.stride, plan.total)
  {
    NoWrap(plan, tasks, count);
    StrideBounds(plan, count);
    CountBounds(count, Strides(plan) + tasks - 1, plan.stride, count * plan.stride);
  }

  lemma OvershootInv(plan: Plan, s: State, s': State, t: nat)
    requires Inv(plan, s) && t in s.tasks && s.tasks[t] == Ready && s.file.Holding?
    requires s.file.value >= Strides(plan)
    requires s' == s.(file := Holding(s.file.value + 1), tasks := s.tasks[t := Done])
    ensures Inv(plan, s')
  {
    FinishedAfter(s, s', t, Done);
    assert forall n :: Claimed(s', n) <==> Claimed(s, n);
  }

  lemma ClaimInv(plan: Plan, s: State, s': State, c: Claim)
    requires Inv(plan, s) && s.file.Holding? && c.count == s.file.value < Strides(plan) && GoodClaim(plan, c)
    requires s' == s.(file := Holding(s.file.value + 1), claims := s.claims + [c])
    ensures Inv(plan, s')
  {
    assert Finished(s') == Finished(s);
    forall n: nat | n < Issued(s') && n < Strides(plan)
      ensures n in s'.lost || Claimed(s', n)
    {
      if n == s.file.value {
        assert s'.claims[|s.claims|].count == n;
      } else if n !in s.lost {
        var i :| 0 <= i < |s.claims| && s.claims[i].count == n;
        assert s'.claims[i].count == n;
      }
    }
  }

  lemma LoseInv(plan: Plan, s: State, s': State, t: nat)
    requires Inv(plan, s) && t in s.tasks && s.tasks[t] == Ready && s.file.Holding?
    requires s' == s.(file := Holding(s.file.value + 1), tasks := s.tasks[t := Stopped], lost := s.lost + {s.file.value})
    ensures Inv(plan, s')
  {
    FinishedAfter(s, s', t, Stopped);
    assert forall n :: Claimed(s', n) <==> Claimed(s, n);
  }

  lemma StopInv(plan: Plan, s: State, s': State, t: nat)
    requires Inv(plan, s) && t in s.tasks && t !in Finished(s)
    requires s' == s.(tasks := s.tasks[t := Stopped])
    ensures Inv(plan, s')
  {
    FinishedAfter(s, s', t, Stopped);
    assert forall n :: Claimed(s', n) <==> Claimed(s, n);
  }

  lemma CountInv(plan: Plan, s: State, t: nat, tasks: nat)
    requires Inv(plan, s) && Fits(plan, tasks) && |s.tasks| <= tasks
    requires t in s.tasks && s.tasks[t] == Ready
    ensures Inv(plan, Next(plan, s, Count(t)))
  {
    var s' := Next(plan, s, Count(t));
    if !s.file.Holding? {
      StopInv(plan, s, s', t);
    } else {
      CountInRange(plan, s, t, tasks);
      if s.file.value < Strides(plan) {
        ClaimInv(plan, s, s', s'.claims[|s.claims|]);
      } else {
        OvershootInv(plan, s, s', t);
      }
    }
  }

  lemma StepInv(plan: Plan, s: State, e: Event, tasks: nat)
    requires Inv(plan, s) && Fits(plan, tasks) && |s.tasks| <= tasks && Enabled(s, e)
    ensures Inv(plan, Next(plan, s, e))
  {
    match e
    case Join(t) => JoinInv(plan, s, t);
    case ZeroWrite(t) => ZeroWriteInv(plan, s, t);
    case Count(t) => CountInv(plan, s, t, tasks);
    case Fail(t, advanced) =>
      var s' := Next(plan, s, e);
      if advanced {
        CountInRange(plan, s, t, tasks);
        LoseInv(plan, s, s', t);
      } else {
        StopInv(plan, s, s', t);
      }
  }

  /** No state of the run has more than the given number of tasks. */
  ghost predicate AtMost(states: seq<State>, tasks: nat) {
    forall i :: 0 <= i < |states| ==> |states[i].tasks| <= tasks
  }

  lemma {:induction false} RunInv(plan: Plan, events: seq<Event>, states: seq<State>, tasks: nat, i: nat)
    requires Run(plan, events, states) && Fits(plan, tasks) && AtMost(states, tasks) && i < |states|
    ensures Inv(plan, states[i])
  {
    if i == 0 {
      assert Finished(INIT) == {};
    } else {
      RunInv(plan, events, states, tasks, i - 1);
      StepInv(plan, states[i - 1], events[i - 1], tasks);
    }
  }

  // ----- the theorems

  /** Claimed strides are nonempty, inside the file and pairwise disjoint, whoever claimed
      them, under every interleaving of creation, zero-write, counts and I/O errors. */
  lemma ClaimsDisjoint(plan: Plan, events: seq<Event>, states: seq<State>, tasks: nat, i: nat, a: nat, b: nat)
    requires Run(plan, events, states) && Fits(plan, tasks) && AtMost(states, tasks)
    requires i < |states| && a < b < |states[i].claims|
    ensures var claims := states[i].claims;
            claims[a].start < claims[a].end <= claims[b].start < claims[b].end <= plan.total
  {
    RunInv(plan, events, states, tasks, i);
    var x, y := states[i].claims[a], states[i].claims[b];
    assert GoodClaim(plan, x) && GoodClaim(plan, y);
    MulMono(x.count + 1, y.count, plan.stride);
    assert (x.count + 1) * plan.stride == x.start + plan.stride;
  }

  /** Every claimed stride is nonempty and inside the file. */
  lemma ClaimInside(plan: Plan, events: seq<Event>, states: seq<State>, tasks: nat, i: nat, a: nat)
    requires Run(plan, events, states) && Fits(plan, tasks) && AtMost(states, tasks)
    requires i < |states| && a < |states[i].claims|
    ensures states[i].claims[a].start < states[i].claims[a].end <= plan.total
  {
    RunInv(plan, events, states, tasks, i);
    assert GoodClaim(plan, states[i].claims[a]);
  }

  /** The block is in some claimed stride. */
  ghost predicate Covered(claims: seq<Claim>, block: nat) {
    exists i :: 0 <= i < |claims| && claims[i].start <= block < claims[i].end
  }

  /** Once one task has counted past the end, and no count was lost to an I/O error, the
      strides claimed cover exactly the blocks of the file. */
  lemma ClaimsCover(plan: Plan, events: seq<Event>, states: seq<State>, tasks: nat, i: nat, t: nat, block: nat)
    requires Run(plan, events, states) && Fits(plan, tasks) && AtMost(states, tasks)
    requires i < |states| && t in states[i].tasks && states[i].tasks[t] == Done && states[i].lost == {}
    ensures Covered(states[i].claims, block) <==> block < plan.total
  {
    RunInv(plan, events, states, tasks, i);
    if block < plan.total {
      StrideClaimed(plan, states[i], t, block);
    }
  }

  lemma StrideClaimed(plan: Plan, s: State, t: nat, block: nat)
    requires Inv(plan, s) && t in s.tasks && s.tasks[t] == Done && s.lost == {} && block < plan.total
    ensures Covered(s.claims, block)
  {
    var n := block / plan.stride;
    DivBounds(block, plan.stride);
    StrideBounds(plan, n);
    assert Claimed(s, n);
    var j :| 0 <= j < |s.claims| && s.claims[j].count == n;
    assert GoodClaim(plan, s.claims[j]);
    assert s.claims[j].start <= block < s.claims[j].end;
  }

  /** The zero-write never lands after a successful claim: while it is outstanding the file
      is empty, nothing has been claimed, and nobody else is about to write a zero. */
  lemma ZeroWriteIsFirst(plan: Plan, events: seq<Event>, states: seq<State>, i: nat, t: nat)
    requires Run(plan, events, states) && i < |states| && Enabled(states[i], ZeroWrite(t))
    ensures states[i].file == Empty && states[i].claims == []
    ensures forall u :: Enabled(states[i], ZeroWrite(u)) ==> u == t
  {
    RunFilePhase(plan, events, states, i);
  }

  lemma FilePhaseStep(plan: Plan, s: State, e: Event)
    requires FilePhase(s) && Enabled(s, e)
    ensures FilePhase(Next(plan, s, e))
  {
  }

  /** The file goes through its phases in every run, within the 32-bit bound or not. */
  lemma {:induction false} RunFilePhase(plan: Plan, events: seq<Event>, states: seq<State>, i: nat)
    requires Run(plan, events, states) && i < |states|
    ensures FilePhase(states[i])
  {
    if i == 0 {
    } else {
      RunFilePhase(plan, events, states, i - 1);
      FilePhaseStep(plan, states[i - 1], events[i - 1]);
    }
  }

  // ----- a task that is through stays through

  /** The claims of one task. */
  ghost function ClaimsOf(claims: seq<Claim>, t: nat): seq<Claim> {
    if claims == [] then []
    else
      var front, last := ClaimsOf(claims[..|claims| - 1], t), claims[|claims| - 1];
      if last.task == t then front + [last] else front
  }

  lemma ClaimsOfAppend(claims: seq<Claim>, c: Claim, t: nat)
    ensures ClaimsOf(claims + [c], t) == if c.task == t then ClaimsOf(claims, t) + [c] else ClaimsOf(claims, t)
  {
    assert (claims + [c])[..|claims|] == claims;
  }

  lemma FinishedStep(plan: Plan, s: State, e: Event, t: nat)
    requires t in Finished(s) && Enabled(s, e)
    ensures var s' := Next(plan, s, e);
            t in Finished(s') && s'.tasks[t] == s.tasks[t] && ClaimsOf(s'.claims, t) == ClaimsOf(s.claims, t)
  {
    var s' := Next(plan, s, e);
    if s'.claims != s.claims {
      ClaimsOfAppend(s.claims, s'.claims[|s.claims|], t);
    }
  }

  /** A task that counted past the end, or gave up on an error, never claims again. */
  lemma {:induction false} FinishedForGood(plan: Plan, events: seq<Event>, states: seq<State>, i: nat, j: nat, t: nat)
    requires Run(plan, events, states) && i <= j < |states| && t in Finished(states[i])
    ensures t in Finished(states[j]) && states[j].tasks[t] == states[i].tasks[t]
    ensures ClaimsOf(states[j].claims, t) == ClaimsOf(states[i].claims, t)
    decreases j
  {
    if i == j {
    } else {
      FinishedForGood(plan, events, states, i, j - 1, t);
      FinishedStep(plan, states[j - 1], events[j - 1], t);
    }
  }

  /** After an I/O error the sender that met it stays stopped and has no further claim. */
  lemma FailureEnds(plan: Plan, events: seq<Event>, states: seq<State>, i: nat, j: nat)
    requires Run(plan, events, states) && i < |events| && events[i].Fail? && i < j < |states|
    ensures events[i].task in states[j].tasks && states[j].tasks[events[i].task] == Stopped
    ensures ClaimsOf(states[j].claims, events[i].task) == ClaimsOf(states[i].claims, events[i].task)
  {
    assert Enabled(states[i], events[i]) && states[i + 1] == Next(plan, states[i], events[i]);
    FinishedForGood(plan, events, states, i + 1, j, events[i].task);
  }

  // ----- tasks taking turns

  /** What a task does next; None once it is through with the file. */
  ghost function Move(s: State, t: nat): (e: Option<Event>)
    ensures e.Some? ==> Enabled(s, e.value)
  {
    if t !in s.tasks then Some(Join(t))
    else
      match s.tasks[t]
      case Creating => Some(ZeroWrite(t))
      case Ready => Some(Count(t))
      case _ => None
  }

  ghost function Moved(plan: Plan, s: State, t: nat): State {
    var e := Move(s, t);
    if e.Some? then Next(plan, s, e.value) else s
  }

  /** The state after tasks took their turns in the order given. */
  ghost function Play(plan: Plan, turns: seq<nat>): State {
    if turns == [] then INIT else Moved(plan, Play(plan, turns[..|turns| - 1]), turns[|turns| - 1])
  }

  lemma {:induction false} PlayPhase(plan: Plan, turns: seq<nat>)
    ensures FilePhase(Play(plan, turns)) && Play(plan, turns).lost == {}
  {
    if turns == [] {
    } else {
      var n := |turns| - 1;
      PlayPhase(plan, turns[..n]);
      var s := Play(plan, turns[..n]);
      if Move(s, turns[n]).Some? {
        FilePhaseStep(plan, s, Move(s, turns[n]).value);
      }
    }
  }

  /** Taking turns is a run, with no more tasks at any time than at its end. */
  lemma {:induction false} PlayIsRun(plan: Plan, turns: seq<nat>) returns (events: seq<Event>, states: seq<State>)
    ensures Run(plan, events, states) && states[|events|] == Play(plan, turns)
    ensures forall i :: 0 <= i < |states| ==> states[i].tasks.Keys <= Play(plan, turns).tasks.Keys
  {
    if turns == [] {
      events, states := [], [INIT];
    } else {
      var n := |turns| - 1;
      events, states := PlayIsRun(plan, turns[..n]);
      var e := Move(states[|events|], turns[n]);
      if e.Some? {
        var next := Next(plan, states[|events|], e.value);
        assert states[|events|].tasks.Keys <= next.tasks.Keys;
        RunExtend(plan, events, states, e.value);
        events, states := events + [e.value], states + [next];
      }
    }
  }

  lemma PlayAtMost(plan: Plan, turns: seq<nat>, states: seq<State>)
    requires forall i :: 0 <= i < |states| ==> states[i].tasks.Keys <= Play(plan, turns).tasks.Keys
    ensures AtMost(states, |Play(plan, turns).tasks|)
  {
    forall i | 0 <= i < |states|
      ensures |states[i].tasks| <= |Play(plan, turns).tasks|
    {
      SubsetSize(states[i].tasks.Keys, Play(plan, turns).tasks.Keys);
    }
  }

  /** The bound of the production stride: T + 8 S <= 2^32 is enough for S tasks. */
  lemma ProductionBound(total: nat, tasks: nat)
    requires tasks > 0 && total + 8 * tasks <= TWO_32
    ensures Fits(Plan(total, 8), tasks)
  {
  }

  // ----- the bound is exact

  /** Task w can count and every earlier task is done; the counter stands at n. */
  ghost predicate Frontier(s: State, n: nat, w: nat) {
    && s.file == Holding(n)
    && |s.tasks| == w + 1
    && (forall t :: t in s.tasks ==> t <= w)
    && w in s.tasks && s.tasks[w] == Ready
    && (if n == 0 then s.claims == [] else s.claims != [] && s.claims[0].start == 0 < s.claims[0].end)
  }

  /** How many tasks have counted past the end once the counter stands at n. */
  ghost function Overshot(total: nat, n: nat): nat {
    var q := Strides(Plan(total, 8));
    if n > q then n - q else 0
  }

  lemma RunExtend(plan: Plan, events: seq<Event>, states: seq<State>, e: Event)
    requires Run(plan, events, states) && Enabled(states[|events|], e)
    ensures Run(plan, events + [e], states + [Next(plan, states[|events|], e)])
  {
  }

  lemma EightTimes(total: nat, n: nat)
    requires total > 0 && n < 0x2000_0000
    ensures StartBlock(n, 8) == 8 * n
    ensures n < Strides(Plan(total, 8)) <==> 8 * n < total
    ensures n == 0 ==> EndBlock(0, 8, total) > 0
  {
  }

  /** Within the file the counting task claims and goes on. */
  lemma FrontierClaims(total: nat, s: State, n: nat, w: nat)
    requires total > 0 && n < 0x2000_0000 && Frontier(s, n, w) && 8 * n < total
    ensures Frontier(Next(Plan(total, 8), s, Count(w)), n + 1, w)
  {
    EightTimes(total, n);
  }

  /** Past its end the counting task finishes and another one joins. */
  lemma FrontierOvershoots(total: nat, s: State, n: nat, w: nat)
    requires total > 0 && n < 0x2000_0000 && Frontier(s, n, w) && 8 * n >= total
    ensures var plan := Plan(total, 8);
            var s1 := Next(plan, s, Count(w));
            && |s1.tasks| == w + 1
            && Enabled(s1, Join(w + 1))
            && Frontier(Next(plan, s1, Join(w + 1)), n + 1, w + 1)
  {
    EightTimes(total, n);
    var plan := Plan(total, 8);
    var s1 := Next(plan, s, Count(w));
    var s2 := Next(plan, s1, Join(w + 1));
    assert s1.tasks.Keys == s.tasks.Keys;
    assert s2.tasks.Keys == s.tasks.Keys + {w + 1};
  }

  /** A run that brings the counter to any n up to 2^29 with no more tasks than it takes. */
  lemma {:induction false} Reach(total: nat, n: nat) returns (events: seq<Event>, states: seq<State>)
    requires total > 0 && n <= 0x2000_0000
    ensures Run(Plan(total, 8), events, states)
    ensures Frontier(states[|events|], n, Overshot(total, n))
    ensures AtMost(states, Overshot(total, n) + 1)
    decreases n
  {
    var plan := Plan(total, 8);
    if n == 0 {
      events, states := ReachZero(total);
    } else {
      events, states := Reach(total, n - 1);
      var w := Overshot(total, n - 1);
      EightTimes(total, n - 1);
      RunExtend(plan, events, states, Count(w));
      var s1 := Next(plan, states[|events|], Count(w));
      if n - 1 < Strides(plan) {
        FrontierClaims(total, states[|events|], n - 1, w);
        events, states := events + [Count(w)], states + [s1];
      } else {
        FrontierOvershoots(total, states[|events|], n - 1, w);
        events, states := events + [Count(w)], states + [s1];
        RunExtend(plan, events, states, Join(w + 1));
        events, states := events + [Join(w + 1)], states + [Next(plan, s1, Join(w + 1))];
      }
    }
  }

  lemma ReachZero(total: nat) returns (events: seq<Event>, states: seq<State>)
    requires total > 0
    ensures Run(Plan(total, 8), events, states)
    ensures Frontier(states[|events|], 0, 0) && AtMost(states, 1)
  {
    var plan := Plan(total, 8);
    var s1 := Next(plan, INIT, Join(0));
    var s2 := Next(plan, s1, ZeroWrite(0));
    events, states := [Join(0), ZeroWrite(0)], [INIT, s1, s2];
    assert s1.tasks == map[0 := Creating] && s2.tasks == map[0 := Ready];
  }

  /** Beyond the bound 32-bit wrap-around does break disjointness: some run with that many
      tasks claims block 0 twice.  With ClaimsDisjoint, strides are disjoint in every run
      exactly when Fits holds. */
  lemma WrapClaimsTwice(total: nat, tasks: nat) returns (events: seq<Event>, states: seq<State>)
    requires total > 0 && tasks > 0 && !Fits(Plan(total, 8), tasks)
    ensures Run(Plan(total, 8), events, states) && AtMost(states, tasks)
    ensures var claims := states[|events|].claims;
            exists a, b :: 0 <= a < b < |claims| && claims[a].start == 0 < claims[a].end && claims[b].start == 0 < claims[b].end
  {
    var plan := Plan(total, 8);
    var n := 0x2000_0000;
    events, states := Reach(total, n);
    var w := Overshot(total, n);
    var s := states[|events|];
    RunExtend(plan, events, states, Count(w));
    var s1 := Next(plan, s, Count(w));
    events, states := events + [Count(w)], states + [s1];
    var claims := s1.claims;
    assert claims[0].start == 0 < claims[0].end;
    assert claims[|s.claims|].start == 0 < claims[|s.claims|].end;
  }
}
