/** The session manager's file tracker: it collects reassembled blocks per file and
    completes a file, once, when it holds as many blocks as the file has. */
module FileTracking {
  import opened Basics

  datatype Tracker = Tracker(
    blocks: map<nat, map<nat, Bytes>>,
    receivers: map<nat, set<nat>>,
    completed: set<nat>
  )

  /** The blocks of a file whose count reached its total, taken out of the tracker. */
  datatype Completion = Completion(hash: nat, total: nat, blocks: map<nat, Bytes>, receivers: set<nat>)

  const EMPTY := Tracker(map[], map[], {})

  /** A reassembled block on its way to the tracker. */
  datatype Assembled = Assembled(hash: nat, block: nat, total: nat, bytes: Bytes, receivers: set<nat>)

  function BlocksOf(t: Tracker, hash: nat): map<nat, Bytes> {
    if hash in t.blocks then t.blocks[hash] else map[]
  }

  function ReceiversOf(t: Tracker, hash: nat): set<nat> {
    if hash in t.receivers then t.receivers[hash] else {}
  }

  /** One call of handle_block_assembled under the lock. */
  function Handle(t: Tracker, a: Assembled): (Tracker, Option<Completion>) {
    if a.hash in t.completed then (t, None)
    else
      var blocks := BlocksOf(t, a.hash)[a.block := a.bytes];
      var receivers := ReceiversOf(t, a.hash) + a.receivers;
      if |blocks| < a.total then
        (Tracker(t.blocks[a.hash := blocks], t.receivers[a.hash := receivers], t.completed), None)
      else
        (Tracker(t.blocks - {a.hash}, t.receivers - {a.hash}, t.completed + {a.hash}),
         Some(Completion(a.hash, a.total, blocks, receivers)))
  }

  ghost predicate Holds(t: Tracker, hash: nat, block: nat) {
    hash in t.blocks && block in t.blocks[hash]
  }

  /** What handling a block of an unfinished file does: below the total the block is added;
      at the total the whole file leaves the tracker. */
  lemma HandleEffect(t: Tracker, a: Assembled)
    requires a.hash !in t.completed
    ensures var (t', complete) := Handle(t, a);
            && (complete.Some? <==> |BlocksOf(t, a.hash)[a.block := a.bytes]| >= a.total)
            && (complete.Some? ==>
                  && complete.value.hash == a.hash
                  && t'.completed == t.completed + {a.hash}
                  && forall h, b :: Holds(t', h, b) <==> Holds(t, h, b) && h != a.hash)
            && (complete.None? ==>
                  && t'.completed == t.completed
                  && forall h, b :: Holds(t', h, b) <==> Holds(t, h, b) || (h == a.hash && b == a.block))
  {
  }

  /** The blocks and receivers of the file, and what it completes with. */
  lemma HandleContents(t: Tracker, a: Assembled)
    requires a.hash !in t.completed
    ensures var (t', complete) := Handle(t, a);
            var blocks, receivers := BlocksOf(t, a.hash)[a.block := a.bytes], ReceiversOf(t, a.hash) + a.receivers;
            && (complete.Some? ==>
                  && complete.value == Completion(a.hash, a.total, blocks, receivers)
                  && BlocksOf(t', a.hash) == map[] && ReceiversOf(t', a.hash) == {})
            && (complete.None? ==> BlocksOf(t', a.hash) == blocks && ReceiversOf(t', a.hash) == receivers)
  {
  }

  /** Other files keep theirs. */
  lemma HandleOthers(t: Tracker, a: Assembled, hash: nat)
    requires hash != a.hash
    ensures BlocksOf(Handle(t, a).0, hash) == BlocksOf(t, hash)
    ensures ReceiversOf(Handle(t, a).0, hash) == ReceiversOf(t, hash)
  {
    var blocks, receivers := HandleParts(t, a);
    ElsewhereInMap(t.blocks, a.hash, blocks, hash);
    ElsewhereInMap(t.receivers, a.hash, receivers, hash);
  }

  lemma HandleParts(t: Tracker, a: Assembled) returns (blocks: map<nat, Bytes>, receivers: set<nat>)
    ensures var t' := Handle(t, a).0;
            || t' == t
            || (t'.blocks == t.blocks[a.hash := blocks] && t'.receivers == t.receivers[a.hash := receivers])
            || (t'.blocks == t.blocks - {a.hash} && t'.receivers == t.receivers - {a.hash})
  {
    blocks, receivers := BlocksOf(t, a.hash)[a.block := a.bytes], ReceiversOf(t, a.hash) + a.receivers;
  }

  lemma ElsewhereInMap<V>(m: map<nat, V>, k: nat, v: V, other: nat)
    requires other != k
    ensures other in m[k := v] <==> other in m
    ensures other in m - {k} <==> other in m
    ensures other in m ==> m[k := v][other] == m[other] == (m - {k})[other]
  {
  }

  /** Blocks 0..total-1 in order; None is the KeyError of a block that is not there. */
  function Join(blocks: map<nat, Bytes>, total: nat): Option<Bytes> {
    if total == 0 then Some([])
    else if total - 1 !in blocks then None
    else
      var front := Join(blocks, total - 1);
      if front.None? then None else Some(front.value + blocks[total - 1])
  }

  /** Joining in index order gives the concatenation of the blocks. */
  lemma {:induction false} JoinConcat(blocks: map<nat, Bytes>, parts: seq<Bytes>)
    requires forall i :: 0 <= i < |parts| ==> i in blocks && blocks[i] == parts[i]
    ensures Join(blocks, |parts|) == Some(Concat(parts))
  {
    if parts == [] {
    } else {
      var front := parts[..|parts| - 1];
      JoinConcat(blocks, front);
      assert parts == front + [parts[|parts| - 1]];
      ConcatSnoc(front, parts[|parts| - 1]);
    }
  }

  /** Joining fails exactly when a block below the total is missing. */
  lemma {:induction false} JoinFails(blocks: map<nat, Bytes>, total: nat)
    ensures Join(blocks, total).None? <==> exists i: nat :: i < total && i !in blocks
  {
    if total == 0 {
    } else {
      JoinFails(blocks, total - 1);
    }
  }

  /** The tracker object; the lock makes each HandleBlockAssembled one atomic step. */
  class FileTracker {
    var blocks: map<nat, map<nat, Bytes>>
    var receiversSeen: map<nat, set<nat>>
    var completedFiles: set<nat>

    ghost function State(): Tracker
      reads this
    {
      Tracker(blocks, receiversSeen, completedFiles)
    }

    constructor ()
      ensures State() == EMPTY
    {
      blocks := map[];
      receiversSeen := map[];
      completedFiles := {};
    }

    method HandleBlockAssembled(a: Assembled) returns (complete: Option<Completion>)
      modifies this
      ensures (State(), complete) == Handle(old(State()), a)
    {
      complete := None;
      if a.hash in completedFiles {
        return;
      }
      var mine: map<nat, Bytes> := if a.hash in blocks then blocks[a.hash] else map[];
      mine := mine[a.block := a.bytes];
      var seen := if a.hash in receiversSeen then receiversSeen[a.hash] else {};
      seen := seen + a.receivers;
      if |mine| < a.total {
        blocks := blocks[a.hash := mine];
        receiversSeen := receiversSeen[a.hash := seen];
        return;
      }
      completedFiles := completedFiles + {a.hash};
      blocks := blocks - {a.hash};
      receiversSeen := receiversSeen - {a.hash};
      complete := Some(Completion(a.hash, a.total, mine, seen));
    }

    /** The join done outside the lock, on the blocks taken out under it. */
    method JoinBlocks(c: Completion) returns (r: Option<Bytes>)
      ensures r == Join(c.blocks, c.total)
    {
      var joined: Bytes := [];
      for i := 0 to c.total
        invariant Join(c.blocks, i) == Some(joined)
      {
        if i !in c.blocks {
          JoinFails(c.blocks, c.total);
          return None;
        }
        joined := joined + c.blocks[i];
      }
      r := Some(joined);
    }
  }
}
