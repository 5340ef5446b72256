/** What the senders of a file put on the wire: each one claims strides from the shared counter
    file and sends every stride before it claims the next. */
module Streams {
  import opened Basics
  import opened Wire
  import opened Partition
  import opened BlockCodec
  import opened Reassembly
  import opened Transmission
  import opened CounterBytes
  import C = Claims

  /** The plan the senders of a file share. */
  ghost function PlanOf(env: Env, hash: nat): C.Plan
    requires env.p.Valid() && hash in env.files
  {
    C.Plan(Total(env, hash), env.p.stride)
  }

  /** No claim reaches past the end of the file. */
  ghost predicate Within(env: Env, hash: nat, claims: seq<C.Claim>)
    requires env.p.Valid() && hash in env.files
  {
    forall j :: 0 <= j < |claims| ==> claims[j].end <= Total(env, hash)
  }

  /** The claims are strides of the file. */
  ghost predicate Inside(env: Env, hash: nat, claims: seq<C.Claim>)
    requires env.p.Valid() && hash in env.files
  {
    forall j :: 0 <= j < |claims| ==> claims[j].start < claims[j].end <= Total(env, hash)
  }

  function Width(c: C.Claim): nat {
    if c.start < c.end then c.end - c.start else 0
  }

  /** What a task sends for a claim: its own strides, and nothing for another task's. */
  ghost function Share(env: Env, hash: nat, c: C.Claim, task: nat): seq<Packet>
    requires Sendable(env, hash) && c.end <= Total(env, hash)
  {
    if c.task == task && c.start < c.end then Emission(env, hash, c.start, Width(c)) else []
  }

  ghost function Shares(env: Env, hash: nat, claims: seq<C.Claim>, task: nat): (shares: seq<seq<Packet>>)
    requires Sendable(env, hash) && Within(env, hash, claims)
    ensures |shares| == |claims|
  {
    seq(|claims|, j requires 0 <= j < |claims| => Share(env, hash, claims[j], task))
  }

  /** Everything a task sends: its strides, in the order it claimed them. */
  ghost function Stream(env: Env, hash: nat, claims: seq<C.Claim>, task: nat): seq<Packet>
    requires Sendable(env, hash) && Within(env, hash, claims)
  {
    Concat(Shares(env, hash, claims, task))
  }

  lemma StreamSnoc(env: Env, hash: nat, claims: seq<C.Claim>, c: C.Claim, task: nat)
    requires Sendable(env, hash) && Within(env, hash, claims) && c.end <= Total(env, hash)
    ensures Within(env, hash, claims + [c])
    ensures Stream(env, hash, claims + [c], task) == Stream(env, hash, claims, task) + Share(env, hash, c, task)
  {
    var shares := Shares(env, hash, claims + [c], task);
    assert shares == Shares(env, hash, claims, task) + [Share(env, hash, c, task)];
    ConcatSnoc(Shares(env, hash, claims, task), Share(env, hash, c, task));
  }

  // ----- the senders' loops

  /** What one turn of a task adds to its stream. */
  ghost predicate Adds(env: Env, hash: nat, s: C.State, next: C.State, task: nat, packets: seq<Packet>)
    requires Sendable(env, hash)
  {
    if next.claims == s.claims then packets == []
    else
      && |next.claims| == |s.claims| + 1 && next.claims[..|s.claims|] == s.claims
      && var c := next.claims[|s.claims|];
         c.task == task && c.end <= Total(env, hash) && packets == Share(env, hash, c, task)
  }

  /** One turn of a task: it opens the counter file, writes the zero it owes, or takes a count
      and sends the stride that the count stands for. */
  method TaskTurn(env: Env, hash: nat, file: CounterFile, task: nat, phase: Option<C.Phase>, ghost s: C.State)
      returns (phase': Option<C.Phase>, packets: seq<Packet>)
    requires Sendable(env, hash) && C.FilePhase(s) && s.file == file.State()
    requires phase == if task in s.tasks then Some(s.tasks[task]) else None
    modifies file
    ensures var next := C.Moved(PlanOf(env, hash), s, task);
            && next.file == file.State()
            && phase'.Some? && next.tasks == s.tasks[task := phase'.value]
            && Adds(env, hash, s, next, task, packets)
  {
    SizePositive(env.p);
    var plan := C.Plan(BlockCount(|env.files[hash]|, env.p.BlockSize()), env.p.stride);
    phase', packets := phase, [];
    match phase {
      case None =>
        var creating := C.OpenCounter(file, plan, s, task);
        phase' := Some(if creating then C.Creating else C.Ready);
      case Some(Creating) =>
        C.WriteInitialZero(file, plan, s, task);
        phase' := Some(C.Ready);
      case Some(Ready) =>
        phase', packets := CountAndSend(env, hash, file, task, plan, s);
      case Some(_) =>
        assert s.tasks == s.tasks[task := phase.value];
    }
  }

  method SendClaim(env: Env, hash: nat, ghost c: C.Claim, start: nat, end: nat) returns (packets: seq<Packet>)
    requires Sendable(env, hash) && c.start == start && c.end == end <= Total(env, hash)
    ensures packets == Share(env, hash, c, c.task)
  {
    packets := [];
    if start < end {
      packets := SendStride(env, hash, start, end);
    }
  }

  lemma AddsClaim(env: Env, hash: nat, s: C.State, next: C.State, c: C.Claim, packets: seq<Packet>)
    requires Sendable(env, hash) && c.end <= Total(env, hash)
    requires next.claims == s.claims + [c] && packets == Share(env, hash, c, c.task)
    ensures Adds(env, hash, s, next, c.task, packets)
  {
    assert next.claims[|s.claims|] == c;
  }

  method CountAndSend(env: Env, hash: nat, file: CounterFile, task: nat, plan: C.Plan, ghost s: C.State)
      returns (phase': Option<C.Phase>, packets: seq<Packet>)
    requires Sendable(env, hash) && C.FilePhase(s) && s.file == file.State()
    requires plan == PlanOf(env, hash) && task in s.tasks && s.tasks[task] == C.Ready
    modifies file
    ensures var next := C.Next(plan, s, C.Count(task));
            && next.file == file.State()
            && phase'.Some? && next.tasks == s.tasks[task := phase'.value]
            && Adds(env, hash, s, next, task, packets)
  {
    packets := [];
    var turn := C.ClaimStride(file, plan, s, task);
    match turn {
      case Stride(start, end) =>
        phase' := Some(C.Ready);
        ghost var c := C.Claim(task, s.file.value, start, end);
        packets := SendClaim(env, hash, c, start, end);
        AddsClaim(env, hash, s, C.Next(plan, s, C.Count(task)), c, packets);
      case PastEnd =>
        phase' := Some(C.Done);
      case CountFailed =>
        phase' := Some(C.Stopped);
    }
  }

  /** Any number of tasks take turns, in any order, on one counter file that is not there yet:
      the file and the tasks go through the steps of the claim machine, and what each task has
      sent is its stream. */
  method ShareFile(env: Env, hash: nat, file: CounterFile, turns: seq<nat>) returns (sent: map<nat, seq<Packet>>)
    requires Sendable(env, hash) && file.State() == Absent
    modifies file
    ensures var s := C.Play(PlanOf(env, hash), turns);
            && file.State() == s.file && sent.Keys == s.tasks.Keys && Within(env, hash, s.claims)
            && forall t :: t in sent ==> sent[t] == Stream(env, hash, s.claims, t)
  {
    var phases: map<nat, C.Phase> := map[];
    sent := map[];
    NothingSent(env, hash);
    assert turns[..0] == [];
    for i := 0 to |turns|
      invariant Shared(env, hash, turns[..i], file.State(), phases, sent)
    {
      phases, sent := OneTurn(env, hash, file, turns[..i], turns[i], phases, sent);
      assert turns[..i + 1] == turns[..i] + [turns[i]];
    }
    assert turns[..|turns|] == turns;
    SharedStreams(env, hash, turns, file.State(), phases, sent);
  }

  method OneTurn(env: Env, hash: nat, file: CounterFile, ghost turns: seq<nat>, task: nat,
                 phases: map<nat, C.Phase>, sent: map<nat, seq<Packet>>)
      returns (phases': map<nat, C.Phase>, sent': map<nat, seq<Packet>>)
    requires Sendable(env, hash) && Shared(env, hash, turns, file.State(), phases, sent)
    modifies file
    ensures Shared(env, hash, turns + [task], file.State(), phases', sent')
  {
    ghost var s, counter := C.Play(PlanOf(env, hash), turns), file.State();
    var phase, packets := TaskTurn(env, hash, file, task, if task in phases then Some(phases[task]) else None, s);
    SharedNext(env, hash, turns, counter, phases, sent, task, file.State(), phase.value, packets);
    sent' := sent[task := (if task in sent then sent[task] else []) + packets];
    phases' := phases[task := phase.value];
  }

  lemma SharedStreams(env: Env, hash: nat, turns: seq<nat>, counter: Counter, phases: map<nat, C.Phase>,
                      sent: map<nat, seq<Packet>>)
    requires Sendable(env, hash) && Shared(env, hash, turns, counter, phases, sent)
    ensures var s := C.Play(PlanOf(env, hash), turns);
            && counter == s.file && sent.Keys == s.tasks.Keys && Within(env, hash, s.claims)
            && forall t :: t in sent ==> sent[t] == Stream(env, hash, s.claims, t)
  {
  }

  /** Where the counter file, the tasks and their streams stand after some turns. */
  ghost predicate Shared(env: Env, hash: nat, turns: seq<nat>, counter: Counter, phases: map<nat, C.Phase>,
                         sent: map<nat, seq<Packet>>)
    requires Sendable(env, hash)
  {
    var s := C.Play(PlanOf(env, hash), turns);
    C.FilePhase(s) && s.file == counter && phases == s.tasks && Sent(env, hash, s, sent)
  }

  lemma SharedNext(env: Env, hash: nat, turns: seq<nat>, counter: Counter, phases: map<nat, C.Phase>,
                   sent: map<nat, seq<Packet>>, task: nat, counter': Counter, phase: C.Phase, packets: seq<Packet>)
    requires Sendable(env, hash) && Shared(env, hash, turns, counter, phases, sent)
    requires var s := C.Play(PlanOf(env, hash), turns);
             var next := C.Moved(PlanOf(env, hash), s, task);
             && next.file == counter' && next.tasks == s.tasks[task := phase]
             && Adds(env, hash, s, next, task, packets)
    ensures Shared(env, hash, turns + [task], counter', phases[task := phase],
                   sent[task := (if task in sent then sent[task] else []) + packets])
  {
    var plan, longer := PlanOf(env, hash), turns + [task];
    assert longer[..|turns|] == turns;
    C.PlayPhase(plan, longer);
    SentGrows(env, hash, C.Play(plan, turns), C.Play(plan, longer), task, packets, sent);
  }

  /** Every task that joined has sent its stream, and no other task has one. */
  ghost predicate Sent(env: Env, hash: nat, s: C.State, sent: map<nat, seq<Packet>>)
    requires Sendable(env, hash)
  {
    && Within(env, hash, s.claims) && sent.Keys == s.tasks.Keys
    && forall t :: Stream(env, hash, s.claims, t) == if t in sent then sent[t] else []
  }

  lemma NothingSent(env: Env, hash: nat)
    requires Sendable(env, hash)
    ensures Shared(env, hash, [], Absent, map[], map[])
  {
    assert Sent(env, hash, C.INIT, map[]);
  }

  lemma SentGrows(env: Env, hash: nat, s: C.State, next: C.State, task: nat, packets: seq<Packet>,
                  sent: map<nat, seq<Packet>>)
    requires Sendable(env, hash) && Sent(env, hash, s, sent) && Adds(env, hash, s, next, task, packets)
    requires next.tasks.Keys == s.tasks.Keys + {task}
    ensures Sent(env, hash, next, sent[task := (if task in sent then sent[task] else []) + packets])
  {
    StreamsGrow(env, hash, s, next, task, packets);
  }

  /** A turn lengthens the stream of its task and no other. */
  lemma StreamsGrow(env: Env, hash: nat, s: C.State, next: C.State, task: nat, packets: seq<Packet>)
    requires Sendable(env, hash) && Within(env, hash, s.claims) && Adds(env, hash, s, next, task, packets)
    ensures Within(env, hash, next.claims)
    ensures Stream(env, hash, next.claims, task) == Stream(env, hash, s.claims, task) + packets
    ensures forall t :: t != task ==> Stream(env, hash, next.claims, t) == Stream(env, hash, s.claims, t)
  {
    if next.claims != s.claims {
      var c := next.claims[|s.claims|];
      assert next.claims == s.claims + [c];
      StreamSnoc(env, hash, s.claims, c, task);
      forall t | t != task
        ensures Stream(env, hash, next.claims, t) == Stream(env, hash, s.claims, t)
      {
        StreamSnoc(env, hash, s.claims, c, t);
      }
    }
  }

  // ----- places in a stream

  /** Where claim j starts in its sender's stream. */
  ghost function Offset(env: Env, hash: nat, claims: seq<C.Claim>, j: nat): nat
    requires Sendable(env, hash) && Within(env, hash, claims) && j < |claims|
  {
    |Concat(Shares(env, hash, claims, claims[j].task)[..j])|
  }

  /** How many packets claim j is. */
  ghost function Packets(env: Env, c: C.Claim): nat {
    MulMono(0, env.p.N(), Width(c));
    env.p.N() * Width(c)
  }

  /** Packet q of claim j is packet Offset(j) + q of its sender's stream. */
  lemma StreamSegment(env: Env, hash: nat, claims: seq<C.Claim>, j: nat, q: nat)
    requires Sendable(env, hash) && Inside(env, hash, claims) && j < |claims| && q < Packets(env, claims[j])
    ensures var stream := Stream(env, hash, claims, claims[j].task);
            && Offset(env, hash, claims, j) + q < |stream|
            && stream[Offset(env, hash, claims, j) + q] == Emission(env, hash, claims[j].start, Width(claims[j]))[q]
  {
    ConcatSegment(Shares(env, hash, claims, claims[j].task), j, q);
  }

  /** Every packet of a stream is a packet of one of the claims of its sender. */
  lemma StreamPlace(env: Env, hash: nat, claims: seq<C.Claim>, task: nat, place: nat) returns (j: nat, q: nat)
    requires Sendable(env, hash) && Inside(env, hash, claims) && place < |Stream(env, hash, claims, task)|
    ensures j < |claims| && claims[j].task == task && q < Packets(env, claims[j])
    ensures place == Offset(env, hash, claims, j) + q
    ensures Stream(env, hash, claims, task)[place] == Emission(env, hash, claims[j].start, Width(claims[j]))[q]
  {
    j, q := ConcatPlace(Shares(env, hash, claims, task), place);
    StreamSegment(env, hash, claims, j, q);
  }
}
