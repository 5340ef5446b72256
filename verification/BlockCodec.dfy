/** Encoding a block into symbols and decoding it from any K of them: the helpers
    around the Reed-Solomon library on the sending and on the receiving side. */
module BlockCodec {
  import opened Basics
  import opened ErasureCode
  import opened Partition

  /** Dimensions of the code: k data symbols, m parity symbols, s bytes each, and the
      number of blocks a sender claims at a time. */
  datatype Params = Params(k: nat, m: nat, s: nat, stride: nat) {
    predicate Valid() {
      k > 0 && m > 0 && s > 0 && stride > 0
    }

    function N(): nat {
      k + m
    }

    function BlockSize(): nat {
      k * s
    }
  }

  /** The values compiled into senders and receivers. */
  const PRODUCTION := Params(100, 50, 1344, 8)

  lemma ProductionDimensions()
    ensures PRODUCTION.Valid() && PRODUCTION.BlockSize() == 134400 && PRODUCTION.N() == 150
  {
  }

  // ----- shards of a block

  /** Shard i of a padded block. */
  function Slice(padded: Bytes, k: nat, s: nat, i: nat): (r: Bytes)
    requires |padded| == k * s && i < k
    ensures |r| == s
  {
    SliceBounds(k, s, i);
    padded[i * s..i * s + s]
  }

  lemma SliceBounds(k: nat, s: nat, i: nat)
    requires i < k
    ensures 0 <= i * s && i * s + s <= k * s
  {
    MulMono(i + 1, k, s);
    assert (i + 1) * s == i * s + s;
  }

  /** The k data shards of a block no longer than k*s, zero-padded. */
  ghost function DataShards(block: Bytes, k: nat, s: nat): (d: seq<Bytes>)
    requires |block| <= k * s
    ensures Uniform(d, k, s)
  {
    seq(k, i requires 0 <= i < k => Slice(Pad(block, k * s), k, s, i))
  }

  lemma {:induction false} SlicesPrefix(padded: Bytes, shards: seq<Bytes>, k: nat, s: nat, n: nat)
    requires |padded| == k * s && |shards| == k && n <= k
    requires forall i :: 0 <= i < k ==> shards[i] == Slice(padded, k, s, i)
    ensures n * s <= k * s
    ensures Concat(shards[..n]) == padded[..n * s]
  {
    MulMono(n, k, s);
    if n == 0 {
      assert shards[..0] == [];
    } else {
      SlicesPrefix(padded, shards, k, s, n - 1);
      SliceBounds(k, s, n - 1);
      assert shards[..n] == shards[..n - 1] + [shards[n - 1]];
      ConcatSnoc(shards[..n - 1], shards[n - 1]);
      var start := (n - 1) * s;
      assert n * s == start + s;
      assert padded[..start] + padded[start..start + s] == padded[..start + s];
    }
  }

  /** The block, then zero bytes up to the size. */
  ghost predicate ZeroFilled(padded: Bytes, block: Bytes, size: nat) {
    && |padded| == size >= |block| && padded[..|block|] == block
    && forall j :: |block| <= j < size ==> padded[j] == 0
  }

  /** Joining the data shards gives the block back, followed by zeros. */
  lemma ShardsConcat(block: Bytes, k: nat, s: nat)
    requires |block| <= k * s
    ensures Concat(DataShards(block, k, s)) == Pad(block, k * s)
    ensures ZeroFilled(Concat(DataShards(block, k, s)), block, k * s)
  {
    var shards, padded := DataShards(block, k, s), Pad(block, k * s);
    SlicesPrefix(padded, shards, k, s, k);
    assert shards[..k] == shards && padded[..k * s] == padded;
  }

  /** All symbols of a block. */
  ghost function Symbols(lib: Library, p: Params, block: Bytes): seq<Bytes>
    requires |block| <= p.BlockSize()
  {
    lib.encode(p.k, p.m, DataShards(block, p.k, p.s))
  }

  lemma SymbolsShape(lib: Library, p: Params, block: Bytes)
    requires p.Valid() && AnyKOfN(lib, p.k, p.m) && |block| <= p.BlockSize()
    ensures Uniform(Symbols(lib, p, block), p.N(), p.s)
    ensures Symbols(lib, p, block)[..p.k] == DataShards(block, p.k, p.s)
    ensures lib.verify(p.k, p.m, Symbols(lib, p, block))
  {
    assert Encodes(lib, p.k, p.m, p.s, DataShards(block, p.k, p.s));
  }

  // ----- encoding

  /** Splits a block into K shards of S bytes, zero-padding a short one, and adds parity.
      An oversized block is refused. */
  method EncodeBlock(lib: Library, p: Params, block: Bytes) returns (r: Result<seq<Bytes>>)
    requires p.Valid()
    ensures |block| > p.BlockSize() <==> r.Err?
    ensures r.Ok? ==> r.value == Symbols(lib, p, block)
    ensures r.Ok? && AnyKOfN(lib, p.k, p.m) ==>
      && Uniform(r.value, p.N(), p.s)
      && ZeroFilled(Concat(r.value[..p.k]), block, p.BlockSize())
  {
    if |block| > p.BlockSize() {
      return Err("block too big");
    }
    var k, s := p.k, p.s;
    var data: seq<Bytes> := seq(k, _ => Zeros(s));
    ghost var padded := Pad(block, k * s);
    var i := 0;
    while i < k
      invariant 0 <= i <= k && |data| == k
      invariant forall j :: 0 <= j < i ==> data[j] == Slice(padded, k, s, j)
      invariant forall j :: i <= j < k ==> data[j] == Zeros(s)
    {
      var start := i * s;
      if start >= |block| {
        break;
      }
      var end := start + s;
      if end > |block| {
        end := |block|;
      }
      SliceBounds(k, s, i);
      CopyIsSlice(block, k, s, i, end);
      data := data[i := block[start..end] + Zeros(s - (end - start))];
      i := i + 1;
    }
    forall j | i <= j < k
      ensures data[j] == Slice(padded, k, s, j)
    {
      MulMono(i, j, s);
      PastEndIsZero(block, k, s, j);
    }
    assert data == DataShards(block, k, s);
    r := Ok(lib.encode(k, p.m, data));
    if AnyKOfN(lib, k, p.m) {
      SymbolsShape(lib, p, block);
      ShardsConcat(block, k, s);
    }
  }

  lemma CopyIsSlice(block: Bytes, k: nat, s: nat, i: nat, end: nat)
    requires |block| <= k * s && i < k && i * s < |block| && end == Min(i * s + s, |block|)
    ensures block[i * s..end] + Zeros(s - (end - i * s)) == Slice(Pad(block, k * s), k, s, i)
  {
    SliceBounds(k, s, i);
  }

  lemma PastEndIsZero(block: Bytes, k: nat, s: nat, i: nat)
    requires |block| <= k * s && i < k && i * s >= |block|
    ensures Slice(Pad(block, k * s), k, s, i) == Zeros(s)
  {
    SliceBounds(k, s, i);
  }

  // ----- decoding from the dense form

  /** The shards whose presence flag is set. */
  ghost function Keep(shards: seq<Bytes>, present: seq<bool>): (w: seq<Bytes>)
    requires |shards| == |present|
    ensures |w| == |shards|
  {
    seq(|shards|, i requires 0 <= i < |shards| => if present[i] then shards[i] else [])
  }

  ghost function Count(present: seq<bool>): nat {
    if present == [] then 0 else (if present[|present| - 1] then 1 else 0) + Count(present[..|present| - 1])
  }

  /** Refuses the wrong number of shards, too few symbols, or a symbol of the wrong size;
      otherwise reconstructs and returns the joined data shards. */
  method DecodeBlock(lib: Library, p: Params, shards: seq<Bytes>, present: seq<bool>) returns (r: Result<Bytes>)
    requires p.Valid()
    ensures r.Ok? ==>
      && |shards| == |present| == p.N()
      && Count(present) >= p.k
      && (forall i :: 0 <= i < p.N() && present[i] ==> |shards[i]| == p.s)
      && (var full := lib.reconstruct(p.k, p.m, Keep(shards, present));
          full.Some? && p.k <= |full.value| && lib.verify(p.k, p.m, full.value) &&
          r.value == Concat(full.value[..p.k]))
    ensures r.Err? ==>
      || |shards| != p.N() || |present| != p.N() || Count(present) < p.k
      || (exists i :: 0 <= i < p.N() && present[i] && |shards[i]| != p.s)
      || (var full := lib.reconstruct(p.k, p.m, Keep(shards, present));
          full.None? || |full.value| < p.k || !lib.verify(p.k, p.m, full.value))
  {
    var n := p.N();
    if |shards| != n || |present| != n {
      return Err("wrong number of shards");
    }
    var presentCount := 0;
    for i := 0 to n
      invariant presentCount == Count(present[..i])
    {
      assert present[..i + 1][..i] == present[..i];
      if present[i] {
        presentCount := presentCount + 1;
      }
    }
    assert present[..n] == present;
    if presentCount < p.k {
      return Err("not enough symbols");
    }
    var working: seq<Bytes> := seq(n, _ => []);
    for i := 0 to n
      invariant |working| == n
      invariant forall j :: 0 <= j < i ==> working[j] == if present[j] then shards[j] else []
      invariant forall j :: 0 <= j < i && present[j] ==> |shards[j]| == p.s
    {
      if present[i] {
        if |shards[i]| != p.s {
          return Err("wrong shard size");
        }
        working := working[i := shards[i]];
      } else {
        working := working[i := []];
      }
    }
    assert working == Keep(shards, present);
    var full := lib.reconstruct(p.k, p.m, working);
    if full.None? || |full.value| < p.k {
      return Err("reconstruct failed");
    }
    if !lib.verify(p.k, p.m, full.value) {
      return Err("verify failed after reconstruct");
    }
    var decoded: Bytes := [];
    for i := 0 to p.k
      invariant decoded == Concat(full.value[..i])
    {
      assert full.value[..i + 1] == full.value[..i] + [full.value[i]];
      ConcatSnoc(full.value[..i], full.value[i]);
      decoded := decoded + full.value[i];
    }
    r := Ok(decoded);
  }

  lemma {:induction false} CountPresent(shards: seq<Bytes>, present: seq<bool>)
    requires |shards| == |present|
    requires forall i :: 0 <= i < |shards| && present[i] ==> shards[i] != []
    ensures |Present(Keep(shards, present))| == Count(present)
  {
    if present == [] {
      assert Present(Keep(shards, present)) == {};
    } else {
      var n := |present| - 1;
      var s', p' := shards[..n], present[..n];
      CountPresent(s', p');
      var all, front := Present(Keep(shards, present)), Present(Keep(s', p'));
      assert all == front + (if present[n] then {n} else {});
    }
  }

  /** Encoding, losing any symbols, with anything at all left in their places, and decoding:
      it succeeds exactly when K symbols are left, and gives the block back followed by zeros. */
  method CodecRoundTrip(lib: Library, p: Params, block: Bytes, present: seq<bool>, stray: seq<Bytes>)
      returns (r: Result<Bytes>)
    requires p.Valid() && AnyKOfN(lib, p.k, p.m)
    requires |block| <= p.BlockSize() && |present| == |stray| == p.N()
    ensures r.Ok? <==> Count(present) >= p.k
    ensures r.Ok? ==> ZeroFilled(r.value, block, p.BlockSize())
  {
    var encoded := EncodeBlock(lib, p, block);
    SymbolsShape(lib, p, block);
    var code := encoded.value;
    var received := seq(|code|, i requires 0 <= i < |code| => if present[i] then code[i] else stray[i]);
    ghost var got := Keep(received, present);
    CountPresent(received, present);
    assert Recovers(lib, p.k, p.m, p.s, DataShards(block, p.k, p.s), got);
    ShardsConcat(block, p.k, p.s);
    r := DecodeBlock(lib, p, received, present);
  }

  // ----- decoding from the sparse form

  /** n shards, empty where nothing was received. */
  function Dense(n: nat, shards: map<nat, Bytes>): (d: seq<Bytes>)
    ensures |d| == n
  {
    seq(n, i requires 0 <= i < n => if i in shards then shards[i] else [])
  }

  /** What the reconstruction helper answers for a pool of received symbols. */
  function Answer(lib: Library, k: nat, n: nat, shards: map<nat, Bytes>): Result<seq<Bytes>> {
    if k <= 0 || n <= k then Err("invalid dimensions")
    else if exists id :: id in shards && id >= n then Err("symbol out of range")
    else
      var full := lib.reconstruct(k, n - k, Dense(n, shards));
      if full.None? || |full.value| < k then Err("reconstruct failed")
      else Ok(full.value[..k])
  }

  /** A request's list of symbols as a pool: a repeated id keeps the later content. */
  function Pool(listed: seq<(nat, Bytes)>): map<nat, Bytes> {
    if listed == [] then map[]
    else
      var last := listed[|listed| - 1];
      Pool(listed[..|listed| - 1])[last.0 := last.1]
  }

  /** Expands the sparse list into the dense array, rejecting any id out of range,
      and reconstructs. */
  method FromRequest(lib: Library, k: nat, n: nat, listed: seq<(nat, Bytes)>) returns (r: Result<seq<Bytes>>)
    ensures r == Answer(lib, k, n, Pool(listed))
  {
    if k <= 0 || n <= k {
      return Err("invalid dimensions");
    }
    var shards: seq<Bytes> := seq(n, _ => []);
    for i := 0 to |listed|
      invariant shards == Dense(n, Pool(listed[..i]))
      invariant forall id :: id in Pool(listed[..i]) ==> id < n
    {
      var id := listed[i].0;
      assert listed[..i + 1][..i] == listed[..i];
      if id >= n {
        PoolKeeps(listed, i);
        return Err("symbol out of range");
      }
      shards := shards[id := listed[i].1];
      assert shards == Dense(n, Pool(listed[..i + 1]));
    }
    assert listed[..|listed|] == listed;
    var full := lib.reconstruct(k, n - k, shards);
    if full.None? || |full.value| < k {
      return Err("reconstruct failed");
    }
    r := Ok(full.value[..k]);
  }

  lemma {:induction false} PoolKeeps(listed: seq<(nat, Bytes)>, i: nat)
    requires i < |listed|
    ensures listed[i].0 in Pool(listed)
  {
    if i < |listed| - 1 {
      PoolKeeps(listed[..|listed| - 1], i);
    }
  }

  /** A repeated id keeps the content listed last. */
  lemma {:induction false} PoolLast(listed: seq<(nat, Bytes)>, i: nat)
    requires i < |listed| && forall j :: i < j < |listed| ==> listed[j].0 != listed[i].0
    ensures listed[i].0 in Pool(listed) && Pool(listed)[listed[i].0] == listed[i].1
  {
    if i == |listed| - 1 {
    } else {
      PoolLast(listed[..|listed| - 1], i);
    }
  }

  /** Nothing is in the pool that was not listed. */
  lemma {:induction false} PoolListed(listed: seq<(nat, Bytes)>, id: nat) returns (i: nat)
    requires id in Pool(listed)
    ensures i < |listed| && listed[i] == (id, Pool(listed)[id])
  {
    var n := |listed| - 1;
    if listed[n].0 == id {
      i := n;
    } else {
      i := PoolListed(listed[..n], id);
    }
  }

  /** Listing a pool in any order gives that pool back. */
  lemma {:induction false} PoolOfListing(listed: seq<(nat, Bytes)>, shards: map<nat, Bytes>)
    requires forall i, j :: 0 <= i < j < |listed| ==> listed[i].0 != listed[j].0
    requires forall i :: 0 <= i < |listed| ==> listed[i].0 in shards && shards[listed[i].0] == listed[i].1
    requires |listed| == |shards|
    ensures Pool(listed) == shards
  {
    if listed == [] {
      assert shards == map[];
    } else {
      var front, last := listed[..|listed| - 1], listed[|listed| - 1];
      var rest := shards - {last.0};
      assert rest.Keys == shards.Keys - {last.0};
      assert |rest| == |rest.Keys| && |shards| == |shards.Keys|;
      PoolOfListing(front, rest);
      assert shards == rest[last.0 := last.1];
    }
  }

  /** k or more true symbols of a block are answered with that block's data shards. */
  lemma AnswerRecovers(lib: Library, p: Params, block: Bytes, shards: map<nat, Bytes>)
    requires p.Valid() && AnyKOfN(lib, p.k, p.m) && |block| <= p.BlockSize()
    requires |Symbols(lib, p, block)| == p.N()
    requires forall id :: id in shards ==> id < p.N() && shards[id] == Symbols(lib, p, block)[id]
    requires |shards| >= p.k
    ensures Answer(lib, p.k, p.N(), shards) == Ok(DataShards(block, p.k, p.s))
  {
    var code := Symbols(lib, p, block);
    var dense := Dense(p.N(), shards);
    SymbolsShape(lib, p, block);
    assert Present(dense) == shards.Keys;
    assert Recovers(lib, p.k, p.m, p.s, DataShards(block, p.k, p.s), dense);
  }

  /** Bad dimensions and ids out of range are refused, whatever the library. */
  lemma AnswerRejects(lib: Library, k: nat, n: nat, shards: map<nat, Bytes>)
    requires k == 0 || n <= k || exists id :: id in shards && id >= n
    ensures Answer(lib, k, n, shards).Err?
  {
  }

  /** Fewer than k symbols are refused. */
  lemma AnswerRefuses(lib: Library, p: Params, shards: map<nat, Bytes>)
    requires p.Valid() && AnyKOfN(lib, p.k, p.m)
    requires |shards| < p.k
    ensures Answer(lib, p.k, p.N(), shards).Err?
  {
    var dense := Dense(p.N(), shards);
    assert Present(dense) <= shards.Keys;
    SubsetSize(Present(dense), shards.Keys);
    assert Refuses(lib, p.k, p.m, dense);
  }
}
