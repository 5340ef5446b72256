/** From a source file, through any number of senders sharing it, a channel that loses
    packets in bursts, and any number of receiver threads, back to the file. */
module EndToEnd {
  import opened Basics
  import opened Wire
  import opened BlockCodec
  import opened Aggregation
  import opened Reassembly
  import opened Transmission
  import opened Streams
  import opened Completion
  import opened HonestFile
  import ReedSolomon
  import C = Claims

  // ----- what is lost

  /** Packet q of claim j is lost.  A lost packet is a task and a place in its stream. */
  ghost predicate Lost(env: Env, hash: nat, claims: seq<C.Claim>, lost: set<(nat, nat)>, j: nat, q: nat)
    requires Sendable(env, hash) && Inside(env, hash, claims) && j < |claims|
  {
    q < Packets(env, claims[j]) && (claims[j].task, Offset(env, hash, claims, j) + q) in lost
  }

  /** The lost packets of claim j lie within `length` consecutive packets from `pos` on. */
  ghost predicate LostWithin(env: Env, hash: nat, claims: seq<C.Claim>, lost: set<(nat, nat)>, j: nat, pos: int, length: nat)
    requires Sendable(env, hash) && Inside(env, hash, claims) && j < |claims|
  {
    forall q: nat :: Lost(env, hash, claims, lost, j, q) ==> pos <= q < pos + length
  }

  /** The lost packets of claim j span at most M times the width of that stride. */
  ghost predicate MildAt(env: Env, hash: nat, claims: seq<C.Claim>, lost: set<(nat, nat)>, j: nat)
    requires Sendable(env, hash) && Inside(env, hash, claims) && j < |claims|
  {
    exists pos, length: nat ::
      LostWithin(env, hash, claims, lost, j, pos, length) && length <= env.p.m * Width(claims[j])
  }

  /** So it is in every stride, a short last one included. */
  ghost predicate Mild(env: Env, hash: nat, claims: seq<C.Claim>, lost: set<(nat, nat)>)
    requires Sendable(env, hash) && Inside(env, hash, claims)
  {
    forall j :: 0 <= j < |claims| ==> MildAt(env, hash, claims, lost, j)
  }

  ghost predicate Arrived(log: seq<Report>, p: Packet) {
    exists i :: 0 <= i < |log| && log[i].packet == p
  }

  /** Every packet sent that was not lost got through at least once, in any order. */
  ghost predicate RestArrived(env: Env, hash: nat, claims: seq<C.Claim>, lost: set<(nat, nat)>, log: seq<Report>)
    requires Sendable(env, hash) && Inside(env, hash, claims)
  {
    forall task: nat, q: nat :: q < |Stream(env, hash, claims, task)| && (task, q) !in lost ==>
                                  Arrived(log, Stream(env, hash, claims, task)[q])
  }

  // ----- bursts

  /** Consecutive packets lost from one task's stream. */
  datatype Burst = Burst(task: nat, pos: nat, length: nat)

  ghost predicate Touches(env: Env, hash: nat, claims: seq<C.Claim>, burst: Burst, j: nat)
    requires Sendable(env, hash) && Inside(env, hash, claims) && j < |claims|
  {
    var start := Offset(env, hash, claims, j);
    burst.task == claims[j].task && burst.pos < start + Packets(env, claims[j]) && start < burst.pos + burst.length
  }

  /** How many packets of claim j a burst that touches it takes. */
  ghost function Overlap(env: Env, hash: nat, claims: seq<C.Claim>, burst: Burst, j: nat): int
    requires Sendable(env, hash) && Inside(env, hash, claims) && j < |claims|
  {
    var start := Offset(env, hash, claims, j);
    var from := if burst.pos < start then start else burst.pos;
    Min(burst.pos + burst.length, start + Packets(env, claims[j])) - from
  }

  /** Any number of bursts, each of them across strides or not: no stride is touched by two of
      them, and none takes more than M times a stride's width out of it. */
  ghost predicate Spread(env: Env, hash: nat, claims: seq<C.Claim>, bursts: seq<Burst>)
    requires Sendable(env, hash) && Inside(env, hash, claims)
  {
    && (forall j, x, y :: 0 <= j < |claims| && 0 <= x < |bursts| && 0 <= y < |bursts|
                          && Touches(env, hash, claims, bursts[x], j) && Touches(env, hash, claims, bursts[y], j)
                          ==> x == y)
    && (forall j, x :: 0 <= j < |claims| && 0 <= x < |bursts| && Touches(env, hash, claims, bursts[x], j) ==>
                         Overlap(env, hash, claims, bursts[x], j) <= env.p.m * Width(claims[j]))
  }

  ghost predicate HitBy(bursts: seq<Burst>, task: nat, q: nat) {
    exists x :: 0 <= x < |bursts| && bursts[x].task == task && bursts[x].pos <= q < bursts[x].pos + bursts[x].length
  }

  /** Losses that come in such bursts are mild. */
  lemma BurstsAreMild(env: Env, hash: nat, claims: seq<C.Claim>, lost: set<(nat, nat)>, bursts: seq<Burst>)
    requires Sendable(env, hash) && Inside(env, hash, claims) && Spread(env, hash, claims, bursts)
    requires forall l :: l in lost ==> HitBy(bursts, l.0, l.1)
    ensures Mild(env, hash, claims, lost)
  {
    forall j | 0 <= j < |claims|
      ensures MildAt(env, hash, claims, lost, j)
    {
      if x :| 0 <= x < |bursts| && Touches(env, hash, claims, bursts[x], j) {
        OneBurst(env, hash, claims, lost, bursts, j, x);
      } else {
        NoBurst(env, hash, claims, lost, bursts, j);
      }
    }
  }

  /** A lost packet of claim j is lost to a burst that touches the claim. */
  lemma LostToBurst(env: Env, hash: nat, claims: seq<C.Claim>, lost: set<(nat, nat)>, bursts: seq<Burst>, j: nat, q: nat)
      returns (y: nat)
    requires Sendable(env, hash) && Inside(env, hash, claims) && j < |claims| && Lost(env, hash, claims, lost, j, q)
    requires forall l :: l in lost ==> HitBy(bursts, l.0, l.1)
    ensures y < |bursts| && Touches(env, hash, claims, bursts[y], j)
    ensures bursts[y].pos <= Offset(env, hash, claims, j) + q < bursts[y].pos + bursts[y].length
  {
    var l := (claims[j].task, Offset(env, hash, claims, j) + q);
    assert l in lost && HitBy(bursts, l.0, l.1);
    y :| 0 <= y < |bursts| && bursts[y].task == l.0 && bursts[y].pos <= l.1 < bursts[y].pos + bursts[y].length;
  }

  lemma OneBurst(env: Env, hash: nat, claims: seq<C.Claim>, lost: set<(nat, nat)>, bursts: seq<Burst>, j: nat, x: nat)
    requires Sendable(env, hash) && Inside(env, hash, claims) && Spread(env, hash, claims, bursts)
    requires forall l :: l in lost ==> HitBy(bursts, l.0, l.1)
    requires j < |claims| && x < |bursts| && Touches(env, hash, claims, bursts[x], j)
    ensures MildAt(env, hash, claims, lost, j)
  {
    var start := Offset(env, hash, claims, j);
    var pos := if bursts[x].pos < start then 0 else bursts[x].pos - start;
    var length := Overlap(env, hash, claims, bursts[x], j);
    forall q: nat | Lost(env, hash, claims, lost, j, q)
      ensures pos <= q < pos + length
    {
      var y := LostToBurst(env, hash, claims, lost, bursts, j, q);
      assert y == x;
    }
    assert LostWithin(env, hash, claims, lost, j, pos, length);
  }

  lemma NoBurst(env: Env, hash: nat, claims: seq<C.Claim>, lost: set<(nat, nat)>, bursts: seq<Burst>, j: nat)
    requires Sendable(env, hash) && Inside(env, hash, claims) && j < |claims|
    requires forall l :: l in lost ==> HitBy(bursts, l.0, l.1)
    requires forall x :: 0 <= x < |bursts| ==> !Touches(env, hash, claims, bursts[x], j)
    ensures MildAt(env, hash, claims, lost, j)
  {
    forall q: nat | Lost(env, hash, claims, lost, j, q)
      ensures false
    {
      var y := LostToBurst(env, hash, claims, lost, bursts, j, q);
    }
    MulMono(0, env.p.m, Width(claims[j]));
    assert LostWithin(env, hash, claims, lost, j, 0, 0);
  }

  // ----- what gets through

  lemma {:induction false} ArrivedIsReceived(log: seq<Report>, p: Packet)
    requires Arrived(log, p)
    ensures p.symbolId in Received(log, KeyOf(p))
  {
    var front, last := log[..|log| - 1], log[|log| - 1].packet;
    if last == p {
    } else {
      var i :| 0 <= i < |log| && log[i].packet == p;
      assert front[i].packet == p;
      ArrivedIsReceived(front, p);
    }
  }

  /** Symbol i of the b-th block of claim j is lost. */
  ghost predicate LostSymbol(env: Env, hash: nat, claims: seq<C.Claim>, lost: set<(nat, nat)>, j: nat, b: nat, i: nat)
    requires Sendable(env, hash) && Inside(env, hash, claims) && j < |claims|
  {
    MulMono(0, i, Width(claims[j]));
    Lost(env, hash, claims, lost, j, i * Width(claims[j]) + b)
  }

  /** The symbols of that block that are lost. */
  ghost function Missing(env: Env, hash: nat, claims: seq<C.Claim>, lost: set<(nat, nat)>, j: nat, b: nat): (m: set<nat>)
    requires Sendable(env, hash) && Inside(env, hash, claims) && j < |claims|
    ensures forall i: nat :: i in m <==> i < env.p.N() && LostSymbol(env, hash, claims, lost, j, b, i)
  {
    set i | i in Range(env.p.N()) && LostSymbol(env, hash, claims, lost, j, b, i)
  }

  /** Every block of every claimed stride loses at most M of its symbols. */
  ghost predicate Recoverable(env: Env, hash: nat, claims: seq<C.Claim>, lost: set<(nat, nat)>)
    requires Sendable(env, hash) && Inside(env, hash, claims)
  {
    forall j: nat, b: nat :: j < |claims| && b < Width(claims[j]) ==> |Missing(env, hash, claims, lost, j, b)| <= env.p.m
  }

  /** A mild loss is recoverable. */
  lemma MildIsRecoverable(env: Env, hash: nat, claims: seq<C.Claim>, lost: set<(nat, nat)>)
    requires Sendable(env, hash) && Inside(env, hash, claims) && Mild(env, hash, claims, lost)
    ensures Recoverable(env, hash, claims, lost)
  {
    forall j: nat, b: nat | j < |claims| && b < Width(claims[j])
      ensures |Missing(env, hash, claims, lost, j, b)| <= env.p.m
    {
      assert MildAt(env, hash, claims, lost, j);
      var pos, length: nat :| LostWithin(env, hash, claims, lost, j, pos, length) && length <= env.p.m * Width(claims[j]);
      FewMissing(env, hash, claims, lost, j, b, pos, length);
    }
  }

  lemma FewMissing(env: Env, hash: nat, claims: seq<C.Claim>, lost: set<(nat, nat)>, j: nat, b: nat, pos: int, length: nat)
    requires Sendable(env, hash) && Inside(env, hash, claims) && j < |claims| && b < Width(claims[j])
    requires LostWithin(env, hash, claims, lost, j, pos, length) && length <= env.p.m * Width(claims[j])
    ensures |Missing(env, hash, claims, lost, j, b)| <= env.p.m
  {
    MissingIsDestroyed(env, hash, claims, lost, j, b, pos, length);
    FewDestroyed(env.p.N(), Width(claims[j]), b, pos, length, env.p.m);
  }

  lemma MissingIsDestroyed(env: Env, hash: nat, claims: seq<C.Claim>, lost: set<(nat, nat)>, j: nat, b: nat,
                           pos: int, length: nat)
    requires Sendable(env, hash) && Inside(env, hash, claims) && j < |claims|
    requires LostWithin(env, hash, claims, lost, j, pos, length)
    ensures |Missing(env, hash, claims, lost, j, b)| <= |Destroyed(env.p.N(), Width(claims[j]), b, pos, length)|
  {
    var destroyed := Destroyed(env.p.N(), Width(claims[j]), b, pos, length);
    forall i: nat | i in Missing(env, hash, claims, lost, j, b)
      ensures i in destroyed
    {
      LostIsDestroyed(env, hash, claims, lost, j, b, i, pos, length);
    }
    SubsetSize(Missing(env, hash, claims, lost, j, b), destroyed);
  }

  lemma LostIsDestroyed(env: Env, hash: nat, claims: seq<C.Claim>, lost: set<(nat, nat)>, j: nat, b: nat, i: nat,
                        pos: int, length: nat)
    requires Sendable(env, hash) && Inside(env, hash, claims) && j < |claims|
    requires LostWithin(env, hash, claims, lost, j, pos, length) && i in Missing(env, hash, claims, lost, j, b)
    ensures i in Destroyed(env.p.N(), Width(claims[j]), b, pos, length)
  {
    var w := Width(claims[j]);
    MulMono(0, i, w);
    var q: nat := i * w + b;
    assert LostSymbol(env, hash, claims, lost, j, b, i);
    assert Lost(env, hash, claims, lost, j, q);
  }

  lemma FewDestroyed(n: nat, width: nat, b: nat, pos: int, length: nat, m: nat)
    requires b < width && length <= m * width
    ensures |Destroyed(n, width, b, pos, length)| <= m
  {
    BurstSpreads(n, width, b, pos, length);
    CeilBound(length, width, m);
  }

  /** What a run of lost packets destroys is missing. */
  lemma DestroyedIsMissing(env: Env, hash: nat, claims: seq<C.Claim>, lost: set<(nat, nat)>, j: nat, b: nat,
                           pos: nat, length: nat)
    requires Sendable(env, hash) && Inside(env, hash, claims) && j < |claims|
    requires forall q: nat :: pos <= q < pos + length ==> Lost(env, hash, claims, lost, j, q)
    ensures |Destroyed(env.p.N(), Width(claims[j]), b, pos, length)| <= |Missing(env, hash, claims, lost, j, b)|
  {
    var destroyed := Destroyed(env.p.N(), Width(claims[j]), b, pos, length);
    forall i: nat | i in destroyed
      ensures i in Missing(env, hash, claims, lost, j, b)
    {
      assert LostSymbol(env, hash, claims, lost, j, b, i);
    }
    SubsetSize(destroyed, Missing(env, hash, claims, lost, j, b));
  }

  /** The block that a burst of M times the width and one packet more hits first. */
  lemma FirstHit(n: nat, width: nat, m: nat, pos: nat, length: nat) returns (b: nat)
    requires width > 0 && length == m * width + 1 && pos + length <= n * width
    ensures b < width && |Destroyed(n, width, b, pos, length)| > m
  {
    b := BlockAt(width, pos);
    var first := pos / width;
    DivBounds(pos, width);
    assert pos == first * width + b;
    ManyHits(n, width, b, first, m, pos, length);
  }

  /** A claimed stride that loses M times its width and one packet more, in a row, is not. */
  lemma LongBurstIsNot(env: Env, hash: nat, claims: seq<C.Claim>, lost: set<(nat, nat)>, j: nat, pos: nat, length: nat)
    requires Sendable(env, hash) && Inside(env, hash, claims) && j < |claims|
    requires length == env.p.m * Width(claims[j]) + 1 && pos + length <= Packets(env, claims[j])
    requires forall q: nat :: pos <= q < pos + length ==> Lost(env, hash, claims, lost, j, q)
    ensures !Recoverable(env, hash, claims, lost)
  {
    var b := FirstHit(env.p.N(), Width(claims[j]), env.p.m, pos, length);
    DestroyedIsMissing(env, hash, claims, lost, j, b, pos, length);
  }

  // ----- what arrives

  /** A symbol of a claimed block that is not lost is received. */
  lemma SymbolGetsThrough(env: Env, hash: nat, claims: seq<C.Claim>, lost: set<(nat, nat)>, log: seq<Report>,
                          j: nat, b: nat, i: nat, q: nat)
    requires Sendable(env, hash) && Inside(env, hash, claims) && RestArrived(env, hash, claims, lost, log)
    requires j < |claims| && b < Width(claims[j]) && i < env.p.N()
    requires q == i * Width(claims[j]) + b < Packets(env, claims[j]) && !Lost(env, hash, claims, lost, j, q)
    ensures i in Received(log, Key(hash, claims[j].start + b))
  {
    var c := claims[j];
    StreamSegment(env, hash, claims, j, q);
    EmissionIndex(env, hash, c.start, Width(c), b, i, q);
    assert Arrived(log, Stream(env, hash, claims, c.task)[Offset(env, hash, claims, j) + q]);
    ArrivedIsReceived(log, PacketOf(env, hash, c.start + b, i));
  }

  lemma SparedGetsThrough(env: Env, hash: nat, claims: seq<C.Claim>, lost: set<(nat, nat)>, log: seq<Report>,
                          j: nat, b: nat, i: nat)
    requires Sendable(env, hash) && Inside(env, hash, claims) && RestArrived(env, hash, claims, lost, log)
    requires j < |claims| && b < Width(claims[j]) && i < env.p.N() && !LostSymbol(env, hash, claims, lost, j, b, i)
    ensures i in Received(log, Key(hash, claims[j].start + b))
  {
    MulMono(0, i, Width(claims[j]));
    var q := i * Width(claims[j]) + b;
    IndexBound(env.p.N(), Width(claims[j]), b, i);
    SymbolGetsThrough(env, hash, claims, lost, log, j, b, i, q);
  }

  /** A block of a claimed stride is received but for its lost symbols. */
  lemma BlockGetsThrough(env: Env, hash: nat, claims: seq<C.Claim>, lost: set<(nat, nat)>, log: seq<Report>, j: nat, b: nat)
    requires Sendable(env, hash) && Inside(env, hash, claims) && j < |claims| && b < Width(claims[j])
    requires RestArrived(env, hash, claims, lost, log)
    ensures |Received(log, Key(hash, claims[j].start + b))| >= env.p.N() - |Missing(env, hash, claims, lost, j, b)|
  {
    var n, key, missing := env.p.N(), Key(hash, claims[j].start + b), Missing(env, hash, claims, lost, j, b);
    forall i: nat | i in Range(n) - missing
      ensures i in Received(log, key).Keys
    {
      SparedGetsThrough(env, hash, claims, lost, log, j, b, i);
    }
    SubsetSize(Range(n) - missing, Received(log, key).Keys);
    RestSize(n, missing);
  }

  lemma RestSize(n: nat, missing: set<nat>)
    requires missing <= Range(n)
    ensures |Range(n) - missing| == n - |missing|
  {
    RangeSize(n);
    assert Range(n) == (Range(n) - missing) + missing;
  }

  /** Every block of the file gets through. */
  lemma EnoughGetsThrough(env: Env, hash: nat, claims: seq<C.Claim>, lost: set<(nat, nat)>, log: seq<Report>)
    requires Sendable(env, hash) && Inside(env, hash, claims) && env.files[hash] != []
    requires forall b: nat :: b < Total(env, hash) ==> C.Covered(claims, b)
    requires Recoverable(env, hash, claims, lost) && RestArrived(env, hash, claims, lost, log)
    ensures EnoughArrived(env, log, hash)
  {
    forall b: nat | b < Total(env, hash)
      ensures |Received(log, Key(hash, b))| >= env.p.k
    {
      assert C.Covered(claims, b);
      var j :| 0 <= j < |claims| && claims[j].start <= b < claims[j].end;
      EnoughOf(env, hash, claims, lost, log, j, b - claims[j].start);
    }
  }

  lemma EnoughOf(env: Env, hash: nat, claims: seq<C.Claim>, lost: set<(nat, nat)>, log: seq<Report>, j: nat, b: nat)
    requires Sendable(env, hash) && Inside(env, hash, claims) && j < |claims| && b < Width(claims[j])
    requires Recoverable(env, hash, claims, lost) && RestArrived(env, hash, claims, lost, log)
    ensures |Received(log, Key(hash, claims[j].start + b))| >= env.p.k
  {
    BlockGetsThrough(env, hash, claims, lost, log, j, b);
    assert |Missing(env, hash, claims, lost, j, b)| <= env.p.m;
  }

  // ----- what does not arrive

  /** The packet is one that was sent and not lost. */
  ghost predicate Unlost(env: Env, hash: nat, claims: seq<C.Claim>, lost: set<(nat, nat)>, p: Packet)
    requires Sendable(env, hash) && Inside(env, hash, claims)
  {
    exists task: nat, place: nat :: UnlostAt(env, hash, claims, lost, p, task, place)
  }

  ghost predicate UnlostAt(env: Env, hash: nat, claims: seq<C.Claim>, lost: set<(nat, nat)>, p: Packet, task: nat, place: nat)
    requires Sendable(env, hash) && Inside(env, hash, claims)
  {
    place < |Stream(env, hash, claims, task)| && (task, place) !in lost && p == Stream(env, hash, claims, task)[place]
  }

  /** Nothing else arrived under the file's hash. */
  ghost predicate NothingElse(env: Env, hash: nat, claims: seq<C.Claim>, lost: set<(nat, nat)>, log: seq<Report>)
    requires Sendable(env, hash) && Inside(env, hash, claims)
  {
    forall r :: 0 <= r < |log| && log[r].packet.fileHash == hash ==> Unlost(env, hash, claims, lost, log[r].packet)
  }

  /** No two claims share a block. */
  ghost predicate Separate(claims: seq<C.Claim>) {
    forall a, b :: 0 <= a < b < |claims| ==> claims[a].end <= claims[b].start
  }

  lemma {:induction false} ReceivedArrived(log: seq<Report>, key: Key, i: nat) returns (r: nat)
    requires i in Received(log, key)
    ensures r < |log| && KeyOf(log[r].packet) == key && log[r].packet.symbolId == i
  {
    var n := |log| - 1;
    if KeyOf(log[n].packet) == key && log[n].packet.symbolId == i {
      r := n;
    } else {
      r := ReceivedArrived(log[..n], key, i);
    }
  }

  /** Where an unlost packet was sent. */
  lemma UnlostPlace(env: Env, hash: nat, claims: seq<C.Claim>, lost: set<(nat, nat)>, p: Packet) returns (j: nat, q: nat)
    requires Sendable(env, hash) && Inside(env, hash, claims) && Unlost(env, hash, claims, lost, p)
    ensures j < |claims| && q < Packets(env, claims[j]) && !Lost(env, hash, claims, lost, j, q)
    ensures p == Emission(env, hash, claims[j].start, Width(claims[j]))[q]
  {
    var task: nat, place: nat :| UnlostAt(env, hash, claims, lost, p, task, place);
    j, q := PlaceOf(env, hash, claims, lost, p, task, place);
  }

  lemma PlaceOf(env: Env, hash: nat, claims: seq<C.Claim>, lost: set<(nat, nat)>, p: Packet, task: nat, place: nat)
      returns (j: nat, q: nat)
    requires Sendable(env, hash) && Inside(env, hash, claims) && UnlostAt(env, hash, claims, lost, p, task, place)
    ensures j < |claims| && q < Packets(env, claims[j]) && !Lost(env, hash, claims, lost, j, q)
    ensures p == Emission(env, hash, claims[j].start, Width(claims[j]))[q]
  {
    j, q := StreamPlace(env, hash, claims, task, place);
    assert (claims[j].task, Offset(env, hash, claims, j) + q) == (task, place);
  }

  lemma EmissionAt(env: Env, hash: nat, start: nat, width: nat, q: nat) returns (b: nat, i: nat)
    requires Sendable(env, hash) && width > 0 && start + width <= Total(env, hash) && q < env.p.N() * width
    ensures b < width && i < env.p.N() && q == i * width + b
    ensures Emission(env, hash, start, width)[q].blockId == start + b
    ensures Emission(env, hash, start, width)[q].symbolId == i
  {
    b, i := BlockAt(width, q), SymbolAt(env.p.N(), width, q);
    DivBounds(q, width);
  }

  lemma SameClaim(claims: seq<C.Claim>, j: nat, b: nat, j': nat, b': nat)
    requires Separate(claims) && j < |claims| && j' < |claims| && b < Width(claims[j]) && b' < Width(claims[j'])
    requires claims[j].start + b == claims[j'].start + b'
    ensures j == j' && b == b'
  {
  }

  /** An unlost packet with a block of claim j is the unlost symbol of that block. */
  lemma UnlostSymbol(env: Env, hash: nat, claims: seq<C.Claim>, lost: set<(nat, nat)>, p: Packet, j: nat, b: nat)
    requires Sendable(env, hash) && Inside(env, hash, claims) && Separate(claims) && Unlost(env, hash, claims, lost, p)
    requires j < |claims| && b < Width(claims[j]) && p.blockId == claims[j].start + b
    ensures p.symbolId < env.p.N() && !LostSymbol(env, hash, claims, lost, j, b, p.symbolId)
  {
    var j', q := UnlostPlace(env, hash, claims, lost, p);
    var b', i := EmissionAt(env, hash, claims[j'].start, Width(claims[j']), q);
    SameClaim(claims, j, b, j', b');
  }

  /** No lost symbol is received. */
  lemma LostNotReceived(env: Env, hash: nat, claims: seq<C.Claim>, lost: set<(nat, nat)>, log: seq<Report>, j: nat, b: nat)
    requires Sendable(env, hash) && Inside(env, hash, claims) && Separate(claims)
    requires NothingElse(env, hash, claims, lost, log) && j < |claims| && b < Width(claims[j])
    ensures |Received(log, Key(hash, claims[j].start + b))| <= env.p.N() - |Missing(env, hash, claims, lost, j, b)|
  {
    var n, key, missing := env.p.N(), Key(hash, claims[j].start + b), Missing(env, hash, claims, lost, j, b);
    forall i: nat | i in Received(log, key).Keys
      ensures i in Range(n) - missing
    {
      var r := ReceivedArrived(log, key, i);
      UnlostSymbol(env, hash, claims, lost, log[r].packet, j, b);
    }
    SubsetSize(Received(log, key).Keys, Range(n) - missing);
    RestSize(n, missing);
  }

  /** A file with an unrecoverable block does not get through. */
  lemma TooFewGetThrough(env: Env, hash: nat, claims: seq<C.Claim>, lost: set<(nat, nat)>, log: seq<Report>)
    requires Sendable(env, hash) && Inside(env, hash, claims) && Separate(claims)
    requires !Recoverable(env, hash, claims, lost) && NothingElse(env, hash, claims, lost, log)
    ensures !EnoughArrived(env, log, hash)
  {
    var j: nat, b: nat :| j < |claims| && b < Width(claims[j]) && |Missing(env, hash, claims, lost, j, b)| > env.p.m;
    LostNotReceived(env, hash, claims, lost, log, j, b);
    assert claims[j].start + b < Total(env, hash);
  }

  // ----- end to end

  /** The senders of a file have divided it up: they followed the shared plan, within the
      32-bit bound, some task has counted past the end, and no count was lost. */
  ghost predicate Divided(env: Env, hash: nat, events: seq<C.Event>, states: seq<C.State>, tasks: nat)
    requires env.p.Valid() && hash in env.files
  {
    && C.Run(PlanOf(env, hash), events, states)
    && C.Fits(PlanOf(env, hash), tasks) && C.AtMost(states, tasks)
    && states[|events|].lost == {}
    && exists t :: t in states[|events|].tasks && states[|events|].tasks[t] == C.Done
  }

  /** Tasks that took turns without an I/O error, one of them to the end, have divided it. */
  lemma TurnsDivide(env: Env, hash: nat, turns: seq<nat>, t: nat) returns (events: seq<C.Event>, states: seq<C.State>)
    requires env.p.Valid() && hash in env.files
    requires var s := C.Play(PlanOf(env, hash), turns);
             C.Fits(PlanOf(env, hash), |s.tasks|) && t in s.tasks && s.tasks[t] == C.Done
    ensures var s := C.Play(PlanOf(env, hash), turns);
            Divided(env, hash, events, states, |s.tasks|) && states[|events|] == s
  {
    var plan := PlanOf(env, hash);
    events, states := C.PlayIsRun(plan, turns);
    C.PlayAtMost(plan, turns, states);
    C.PlayPhase(plan, turns);
  }

  /** Divided claims are separate strides of the file and cover it. */
  lemma DividedClaims(env: Env, hash: nat, events: seq<C.Event>, states: seq<C.State>, tasks: nat)
    requires env.p.Valid() && hash in env.files && Divided(env, hash, events, states, tasks)
    ensures Inside(env, hash, states[|events|].claims) && Separate(states[|events|].claims)
    ensures forall b: nat :: b < Total(env, hash) ==> C.Covered(states[|events|].claims, b)
  {
    var plan, last := PlanOf(env, hash), states[|events|];
    forall j | 0 <= j < |last.claims|
      ensures last.claims[j].start < last.claims[j].end <= Total(env, hash)
    {
      C.ClaimInside(plan, events, states, tasks, |events|, j);
    }
    forall a, b | 0 <= a < b < |last.claims|
      ensures last.claims[a].end <= last.claims[b].start
    {
      C.ClaimsDisjoint(plan, events, states, tasks, |events|, a, b);
    }
    var t :| t in last.tasks && last.tasks[t] == C.Done;
    forall b: nat | b < Total(env, hash)
      ensures C.Covered(last.claims, b)
    {
      C.ClaimsCover(plan, events, states, tasks, |events|, t, b);
    }
  }

  /** End to end: the senders have divided a nonempty file between them; of what they sent,
      every block lost at most M symbols, and all the rest arrived at least once, in any order,
      through any threads, beside any packets of other files; and the helper was reached.  Then,
      once no thread is busy with the file, it has been delivered exactly once, byte for byte. */
  lemma FileGetsThrough(env: Env, hash: nat,
                        sendEvents: seq<C.Event>, sendStates: seq<C.State>, tasks: nat,
                        lost: set<(nat, nat)>,
                        events: seq<Event>, states: seq<State>)
    requires Sendable(env, hash) && env.files[hash] != []
    requires Divided(env, hash, sendEvents, sendStates, tasks)
    requires HonestFor(env, events, states, hash)
    requires HelperReached(events, states, |events|, hash) && Quiet(states[|events|], hash)
    requires var claims := sendStates[|sendEvents|].claims;
             && Inside(env, hash, claims) && Recoverable(env, hash, claims, lost)
             && RestArrived(env, hash, claims, lost, states[|events|].log)
    ensures Deliveries(states[|events|].delivered, hash) == 1
    ensures forall d :: d in states[|events|].delivered && d.hash == hash ==> d.bytes == env.files[hash]
  {
    var s := states[|events|];
    DividedClaims(env, hash, sendEvents, sendStates, tasks);
    EnoughGetsThrough(env, hash, sendStates[|sendEvents|].claims, lost, s.log);
    CompletesExactly(env, events, states, |events|, hash);
    forall d | d in s.delivered && d.hash == hash
      ensures d.bytes == env.files[hash]
    {
      DeliveredExactly(env, events, states, |events|, d);
    }
  }

  /** The converse: when some block lost more than M symbols and nothing arrives that was not
      sent and spared, the file is never delivered, in no state of any run. */
  lemma FileIsLost(env: Env, hash: nat,
                   sendEvents: seq<C.Event>, sendStates: seq<C.State>, tasks: nat,
                   lost: set<(nat, nat)>,
                   events: seq<Event>, states: seq<State>, i: nat)
    requires Sendable(env, hash) && Divided(env, hash, sendEvents, sendStates, tasks)
    requires HonestFor(env, events, states, hash) && i < |states|
    requires var claims := sendStates[|sendEvents|].claims;
             && Inside(env, hash, claims) && !Recoverable(env, hash, claims, lost)
             && NothingElse(env, hash, claims, lost, states[i].log)
    ensures Deliveries(states[i].delivered, hash) == 0
  {
    DividedClaims(env, hash, sendEvents, sendStates, tasks);
    TooFewGetThrough(env, hash, sendStates[|sendEvents|].claims, lost, states[i].log);
    NeverEarlyOrTwice(env, events, states, i, hash);
  }

  /** The theorem's assumptions on the code hold of the real one: at the production
      dimensions, Reed-Solomon over GF(2^8) lets every file of fewer than 2^32 blocks be sent. */
  lemma ProductionIsSendable(files: map<nat, Bytes>, hash: nat)
    requires hash in files && hash < TWO_64 && |files[hash]| < TWO_64
    requires Total(Env(ReedSolomon.Codec(), PRODUCTION, files), hash) < TWO_32
    ensures Sendable(Env(ReedSolomon.Codec(), PRODUCTION, files), hash)
  {
    ReedSolomon.CodecMeetsContract(100, 50);
  }
}
