/** What a sender puts on the wire for one claimed stride, and how many lost packets in a
    row the interleaving withstands. */
module Transmission {
  import opened Basics
  import opened Wire
  import opened ErasureCode
  import opened Partition
  import opened BlockCodec
  import opened Aggregation
  import opened Reassembly

  /** The header fields of every packet of the file fit their wire types. */
  ghost predicate Sendable(env: Env, hash: nat) {
    && env.p.Valid() && AnyKOfN(env.lib, env.p.k, env.p.m)
    && hash in env.files && hash < TWO_64
    && |env.files[hash]| < TWO_64
    && Total(env, hash) < TWO_32
    && env.p.N() < TWO_32
  }

  /** Symbol i of block b, as sent. */
  ghost function PacketOf(env: Env, hash: nat, b: nat, i: nat): (p: Packet)
    requires Sendable(env, hash) && b < Total(env, hash) && i < env.p.N()
    ensures Honest(env, p) && KeyOf(p) == Key(hash, b) && p.symbolId == i
  {
    SymbolsShape(env.lib, env.p, Truth(env, hash, b));
    Packet(hash, b, Total(env, hash), i, env.p.k, env.p.N(), |env.files[hash]|, TrueSymbols(env, hash, b)[i])
  }

  /** The symbol that packet q of a stride of `width` blocks carries. */
  function SymbolAt(n: nat, width: nat, q: nat): (i: nat)
    requires width > 0 && q < n * width
    ensures i < n
  {
    SlotBounds(n, width, q);
    q / width
  }

  /** The block, counted from the start of the stride, that packet q belongs to. */
  function BlockAt(width: nat, q: nat): (b: nat)
    requires width > 0
    ensures b < width
  {
    q % width
  }

  lemma SlotBounds(n: nat, width: nat, q: nat)
    requires width > 0 && q < n * width
    ensures q / width < n
  {
    DivBounds(q, width);
    if q / width >= n {
      MulMono(n, q / width, width);
    }
  }

  /** Packet q of a stride: symbol-major. */
  ghost function PacketAt(env: Env, hash: nat, start: nat, width: nat, q: nat): Packet
    requires Sendable(env, hash) && width > 0 && start + width <= Total(env, hash) && q < env.p.N() * width
  {
    PacketOf(env, hash, start + BlockAt(width, q), SymbolAt(env.p.N(), width, q))
  }

  /** The packets of a stride, in the order they are sent. */
  ghost function Emission(env: Env, hash: nat, start: nat, width: nat): (r: seq<Packet>)
    requires Sendable(env, hash) && width > 0 && start + width <= Total(env, hash)
    ensures |r| == env.p.N() * width
  {
    MulMono(0, env.p.N(), width);
    seq(env.p.N() * width, q requires 0 <= q < env.p.N() * width => PacketAt(env, hash, start, width, q))
  }

  lemma IndexBound(n: nat, width: nat, b: nat, i: nat)
    requires b < width && i < n
    ensures i * width + b < n * width
  {
    MulMono(i + 1, n, width);
    assert (i + 1) * width == i * width + width;
  }

  /** Symbol i of block start + b is packet i * width + b of the stride. */
  lemma EmissionIndex(env: Env, hash: nat, start: nat, width: nat, b: nat, i: nat, q: nat)
    requires Sendable(env, hash) && width > 0 && start + width <= Total(env, hash)
    requires b < width && i < env.p.N() && q == i * width + b < env.p.N() * width
    ensures Emission(env, hash, start, width)[q] == PacketOf(env, hash, start + b, i)
  {
    DivModUnique(q, width, i, b);
  }

  /** One encoded block waiting to be interleaved. */
  datatype EncodedBlock = EncodedBlock(blockIdx: nat, shards: seq<Bytes>)

  /** Reads and encodes the blocks start..end-1, in order. */
  method EncodeStride(env: Env, hash: nat, start: nat, end: nat) returns (batch: seq<EncodedBlock>)
    requires Sendable(env, hash) && start < end <= Total(env, hash)
    ensures |batch| == end - start
    ensures forall j :: 0 <= j < |batch| ==>
      batch[j].blockIdx == start + j && batch[j].shards == TrueSymbols(env, hash, start + j)
  {
    SizePositive(env.p);
    var file, size := env.files[hash], env.p.BlockSize();
    batch := [];
    var blockIdx := start;
    while blockIdx < end
      invariant start <= blockIdx <= end && |batch| == blockIdx - start
      invariant forall j :: 0 <= j < |batch| ==>
        batch[j].blockIdx == start + j && batch[j].shards == TrueSymbols(env, hash, start + j)
    {
      NoFurtherBlock(file, size, blockIdx);
      var data := ReadChunk(file, blockIdx * size, size);
      var contents := EncodeBlock(env.lib, env.p, data.value);
      batch := batch + [EncodedBlock(blockIdx, contents.value)];
      blockIdx := blockIdx + 1;
    }
  }

  lemma Extended(packets: seq<Packet>, n: nat)
    requires n < |packets|
    ensures packets[..n + 1] == packets[..n] + [packets[n]]
  {
  }

  /** Sends symbol 0 of every block of the stride, then symbol 1 of every block, and so on. */
  method SendStride(env: Env, hash: nat, start: nat, end: nat) returns (sent: seq<Packet>)
    requires Sendable(env, hash) && start < end <= Total(env, hash)
    ensures sent == Emission(env, hash, start, end - start)
  {
    var batch := EncodeStride(env, hash, start, end);
    var n := env.p.N();
    var width := |batch|;
    SizePositive(env.p);
    var total := BlockCount(|env.files[hash]|, env.p.BlockSize());
    sent := [];
    var shardIndex := 0;
    while shardIndex < n
      invariant 0 <= shardIndex <= n
      invariant |sent| == shardIndex * width <= n * width
      invariant sent == Emission(env, hash, start, width)[..|sent|]
    {
      MulMono(shardIndex + 1, n, width);
      assert (shardIndex + 1) * width == shardIndex * width + width;
      var j := 0;
      while j < width
        invariant 0 <= j <= width
        invariant |sent| == shardIndex * width + j <= n * width
        invariant sent == Emission(env, hash, start, width)[..|sent|]
      {
        var b := batch[j];
        SymbolsShape(env.lib, env.p, Truth(env, hash, start + j));
        var packet := Packet(hash, b.blockIdx, total, shardIndex, env.p.k, n, |env.files[hash]|, b.shards[shardIndex]);
        IndexBound(env.p.N(), width, j, shardIndex);
        EmissionIndex(env, hash, start, width, j, shardIndex, shardIndex * width + j);
        assert packet == PacketOf(env, hash, start + j, shardIndex);
        Extended(Emission(env, hash, start, width), |sent|);
        sent := sent + [packet];
        j := j + 1;
      }
      shardIndex := shardIndex + 1;
    }
  }

  // ----- bursts

  /** How many of the slots b, b + width, b + 2 width, ... lie before x. */
  function Before(x: int, width: nat, b: nat): int
    requires b < width
  {
    (x + width - 1 - b) / width
  }

  lemma SlotBefore(x: int, width: nat, b: nat, i: int)
    requires b < width
    ensures i * width + b < x <==> i < Before(x, width, b)
  {
    var y := x + width - 1 - b;
    var q := y / width;
    assert q * width <= y < q * width + width;
    if i < q {
      MulMono(i + 1, q, width);
      assert (i + 1) * width == i * width + width;
    } else {
      MulMono(q, i, width);
    }
  }

  /** The symbols of block b that a burst of `length` packets from position `pos` destroys;
      positions count from the first packet of the stride and may lie outside it. */
  ghost function Destroyed(n: nat, width: nat, b: nat, pos: int, length: nat): (d: set<nat>)
    ensures forall i: nat :: i in d <==> i < n && pos <= i * width + b < pos + length
  {
    set i | i in Range(n) && pos <= i * width + b < pos + length
  }

  lemma {:induction false} IntervalSize(lo: int, hi: int, s: set<nat>)
    requires forall i: nat :: i in s ==> lo <= i < hi
    ensures |s| <= if lo < hi then hi - lo else 0
    decreases hi - lo
  {
    if lo < hi {
      var rest := set i | i in s && i < hi - 1;
      IntervalSize(lo, hi - 1, rest);
      if hi - 1 >= 0 && hi - 1 in s {
        assert s == rest + {hi - 1};
      } else {
        assert s == rest;
      }
    } else {
      assert s == {};
    }
  }

  lemma BeforeShift(x: int, width: nat, b: nat, k: nat)
    requires b < width
    ensures Before(x + k * width, width, b) == Before(x, width, b) + k
  {
    var y := x + width - 1 - b;
    var q, r := y / width, y % width;
    assert y + k * width == (q + k) * width + r by {
      assert (q + k) * width == q * width + k * width;
    }
    DivModUnique(y + k * width, width, q + k, r);
  }

  /** A burst hits each block at most ceil(length / width) times. */
  lemma BurstSpreads(n: nat, width: nat, b: nat, pos: int, length: nat)
    requires b < width
    ensures |Destroyed(n, width, b, pos, length)| <= CeilDiv(length, width)
  {
    var d := Destroyed(n, width, b, pos, length);
    var lo, hi := Before(pos, width, b), Before(pos + length, width, b);
    forall i: nat | i in d
      ensures lo <= i < hi
    {
      SlotBefore(pos, width, b, i);
      SlotBefore(pos + length, width, b, i);
    }
    IntervalSize(lo, hi, d);
    var c := CeilDiv(length, width);
    DivBounds(length + width - 1, width);
    BeforeShift(pos, width, b, c);
    BeforeMono(pos + length, pos + c * width, width, b);
  }

  lemma BeforeMono(x: int, y: int, width: nat, b: nat)
    requires b < width && x <= y
    ensures Before(x, width, b) <= Before(y, width, b)
  {
    var q := Before(x, width, b);
    SlotBefore(x, width, b, q - 1);
    SlotBefore(y, width, b, q - 1);
  }

  /** The symbols of block b that survive. */
  ghost function Survivors(n: nat, width: nat, b: nat, pos: int, length: nat): set<nat> {
    Range(n) - Destroyed(n, width, b, pos, length)
  }

  lemma SurvivorCount(n: nat, width: nat, b: nat, pos: int, length: nat)
    ensures |Survivors(n, width, b, pos, length)| == n - |Destroyed(n, width, b, pos, length)|
  {
    var d := Destroyed(n, width, b, pos, length);
    RangeSize(n);
    assert d <= Range(n);
    assert Range(n) == (Range(n) - d) + d;
  }

  /** Any burst of up to M * width packets leaves every block of the stride K symbols,
      wherever it starts. */
  lemma BurstTolerated(p: Params, width: nat, b: nat, pos: int, length: nat)
    requires p.Valid() && b < width && length <= p.m * width
    ensures |Survivors(p.N(), width, b, pos, length)| >= p.k
  {
    BurstSpreads(p.N(), width, b, pos, length);
    SurvivorCount(p.N(), width, b, pos, length);
    CeilBound(length, width, p.m);
  }

  lemma CeilBound(length: nat, width: nat, m: nat)
    requires width > 0 && length <= m * width
    ensures CeilDiv(length, width) <= m
  {
    var c := CeilDiv(length, width);
    DivBounds(length + width - 1, width);
    assert (m + 1) * width == m * width + width;
    if c > m {
      MulMono(m + 1, c, width);
    }
  }

  /** Slots first..first+m of block b all lie in a burst of m * width + 1 packets that
      starts at the first of them. */
  lemma SlotHit(n: nat, width: nat, b: nat, first: nat, m: nat, pos: nat, length: nat, i: nat)
    requires b < width && first <= i <= first + m
    requires pos == first * width + b && length == m * width + 1 && pos + length <= n * width
    ensures i < n && pos <= i * width + b < pos + length
  {
    MulMono(first, i, width);
    MulMono(i, first + m, width);
    assert (first + m) * width == first * width + m * width;
    if i >= n {
      MulMono(n, i, width);
    }
  }

  lemma ManyHits(n: nat, width: nat, b: nat, first: nat, m: nat, pos: nat, length: nat)
    requires b < width
    requires pos == first * width + b && length == m * width + 1 && pos + length <= n * width
    ensures |Destroyed(n, width, b, pos, length)| > m
  {
    forall i: nat | i in Between(first, first + m + 1)
      ensures i in Destroyed(n, width, b, pos, length)
    {
      SlotHit(n, width, b, first, m, pos, length, i);
    }
    BetweenSize(first, first + m + 1);
    SubsetSize(Between(first, first + m + 1), Destroyed(n, width, b, pos, length));
  }

  /** The bound is tight: every burst of M * width + 1 packets inside a stride leaves some
      block fewer than K symbols. */
  lemma LongerBurstBreaks(p: Params, width: nat, pos: nat) returns (b: nat)
    requires p.Valid() && width > 0 && pos + p.m * width + 1 <= p.N() * width
    ensures b < width
    ensures |Survivors(p.N(), width, b, pos, p.m * width + 1)| < p.k
  {
    b := BlockAt(width, pos);
    var first := pos / width;
    DivBounds(pos, width);
    assert pos == first * width + b;
    ManyHits(p.N(), width, b, first, p.m, pos, p.m * width + 1);
    SurvivorCount(p.N(), width, b, pos, p.m * width + 1);
  }
}
