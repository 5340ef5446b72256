/** Cutting a file into blocks on the sending side and trimming the padding off
    again on the receiving side. */
module Partition {
  import opened Basics

  /** How many blocks the sender announces. */
  function BlockCount(size: nat, blockSize: nat): nat
    requires blockSize > 0
  {
    CeilDiv(size, blockSize)
  }

  /** Reads up to `chunkSize` bytes at an offset; past the end is end-of-file. */
  function ReadChunk(file: Bytes, offset: nat, chunkSize: nat): Option<Bytes> {
    if offset >= |file| then None
    else
      var remaining := |file| - offset;
      var toRead := if remaining < chunkSize then remaining else chunkSize;
      Some(file[offset..offset + toRead])
  }

  /** Python's bytes[:n], which counts from the end when n is negative. */
  function PrefixSlice(b: Bytes, n: int): (r: Bytes)
    ensures r <= b
    ensures n >= 0 ==> |r| == Min(n, |b|)
    ensures n < 0 ==> |r| == if |b| + n < 0 then 0 else |b| + n
  {
    if n >= |b| then b
    else if n >= 0 then b[..n]
    else if |b| + n >= 0 then b[..|b| + n]
    else []
  }

  /** The receiver keeps `fileSize - (totalBlocks - 1) * blockSize` bytes of the last
      block and all of every other one. */
  function TrimBlock(joined: Bytes, blockId: nat, totalBlocks: nat, fileSize: nat, blockSize: nat): Bytes {
    if blockId == totalBlocks - 1 then
      PrefixSlice(joined, fileSize - (totalBlocks - 1) * blockSize)
    else joined
  }

  function Pad(block: Bytes, blockSize: nat): (p: Bytes)
    requires |block| <= blockSize
    ensures |p| == blockSize
  {
    block + Zeros(blockSize - |block|)
  }

  /** Block b of a file, as the sender reads it. */
  ghost function Block(file: Bytes, blockSize: nat, b: nat): (r: Bytes)
    requires blockSize > 0 && b < BlockCount(|file|, blockSize)
    ensures 0 < |r| <= blockSize
  {
    BlockBounds(|file|, blockSize, b);
    ReadChunk(file, b * blockSize, blockSize).value
  }

  ghost function Blocks(file: Bytes, blockSize: nat): (r: seq<Bytes>)
    requires blockSize > 0
    ensures |r| == BlockCount(|file|, blockSize)
  {
    seq(BlockCount(|file|, blockSize), b requires 0 <= b < BlockCount(|file|, blockSize) => Block(file, blockSize, b))
  }

  lemma BlockBounds(size: nat, blockSize: nat, b: nat)
    requires blockSize > 0 && b < BlockCount(size, blockSize)
    ensures b * blockSize < size
    ensures b + 1 < BlockCount(size, blockSize) ==> b * blockSize + blockSize < size
    ensures b + 1 == BlockCount(size, blockSize) ==> size <= b * blockSize + blockSize
  {
    var t := BlockCount(size, blockSize);
    assert t * blockSize <= size + blockSize - 1 < t * blockSize + blockSize;
    MulMono(b + 1, t, blockSize);
    assert (b + 1) * blockSize == b * blockSize + blockSize;
    if b + 2 <= t {
      MulMono(b + 2, t, blockSize);
      assert (b + 2) * blockSize == b * blockSize + 2 * blockSize;
    }
  }

  /** The blocks cover the file, with less than one block to spare. */
  lemma BlockCover(size: nat, blockSize: nat)
    requires blockSize > 0
    ensures size <= BlockCount(size, blockSize) * blockSize < size + blockSize
  {
    var t := BlockCount(size, blockSize);
    assert t * blockSize <= size + blockSize - 1 < t * blockSize + blockSize;
  }

  /** There is no block past the last one. */
  lemma NoFurtherBlock(file: Bytes, blockSize: nat, b: nat)
    requires blockSize > 0
    ensures ReadChunk(file, b * blockSize, blockSize) == None <==> b >= BlockCount(|file|, blockSize)
  {
    var t := BlockCount(|file|, blockSize);
    BlockCover(|file|, blockSize);
    if b >= t {
      MulMono(t, b, blockSize);
    } else {
      BlockBounds(|file|, blockSize, b);
    }
  }

  /** Only the last block can be short. */
  lemma BlockLength(file: Bytes, blockSize: nat, b: nat)
    requires blockSize > 0 && b < BlockCount(|file|, blockSize)
    ensures |Block(file, blockSize, b)| ==
            if b + 1 < BlockCount(|file|, blockSize) then blockSize
            else |file| - (BlockCount(|file|, blockSize) - 1) * blockSize
  {
    BlockBounds(|file|, blockSize, b);
  }

  lemma BlockSlice(file: Bytes, blockSize: nat, b: nat)
    requires blockSize > 0 && b < BlockCount(|file|, blockSize)
    ensures b * blockSize < |file|
    ensures file[..b * blockSize] + Block(file, blockSize, b) == file[..Min((b + 1) * blockSize, |file|)]
  {
    BlockBounds(|file|, blockSize, b);
    var start := b * blockSize;
    assert (b + 1) * blockSize == start + blockSize;
    var end := Min(start + blockSize, |file|);
    assert Block(file, blockSize, b) == file[start..end];
    assert file[..start] + file[start..end] == file[..end];
  }

  lemma {:induction false} BlocksPrefix(file: Bytes, blockSize: nat, n: nat)
    requires blockSize > 0 && n <= BlockCount(|file|, blockSize)
    ensures Concat(Blocks(file, blockSize)[..n]) == file[..Min(n * blockSize, |file|)]
  {
    var blocks := Blocks(file, blockSize);
    if n == 0 {
      assert blocks[..0] == [];
    } else {
      BlocksPrefix(file, blockSize, n - 1);
      BlockSlice(file, blockSize, n - 1);
      assert blocks[..n] == blocks[..n - 1] + [blocks[n - 1]];
      ConcatSnoc(blocks[..n - 1], blocks[n - 1]);
    }
  }

  /** The sender's blocks concatenate to the file, for every file and block size. */
  lemma BlocksConcat(file: Bytes, blockSize: nat)
    requires blockSize > 0
    ensures Concat(Blocks(file, blockSize)) == file
  {
    var blocks := Blocks(file, blockSize);
    BlocksPrefix(file, blockSize, |blocks|);
    BlockCover(|file|, blockSize);
    assert blocks[..|blocks|] == blocks && file[..|file|] == file;
  }

  /** Trimming undoes padding, block by block. */
  lemma TrimUndoesPad(file: Bytes, blockSize: nat, b: nat)
    requires blockSize > 0 && b < BlockCount(|file|, blockSize)
    ensures TrimBlock(Pad(Block(file, blockSize, b), blockSize), b, BlockCount(|file|, blockSize), |file|, blockSize)
            == Block(file, blockSize, b)
  {
    var block := Block(file, blockSize, b);
    BlockLength(file, blockSize, b);
    assert Pad(block, blockSize)[..|block|] == block;
  }

  /** Whatever the metadata says, a prefix is kept: all of every block but the last, and of the
      last one what the file has left, counted from the end where that is negative. */
  lemma TrimAnyway(joined: Bytes, b: nat, total: nat, fileSize: nat, blockSize: nat)
    ensures var r := TrimBlock(joined, b, total, fileSize, blockSize);
            var keep := fileSize - b * blockSize;
            && r <= joined
            && (b + 1 != total ==> r == joined)
            && (b + 1 == total ==> |r| == if keep >= 0 then Min(keep, |joined|)
                                          else if |joined| + keep < 0 then 0 else |joined| + keep)
  {
    assert b + 1 == total ==> (total - 1) * blockSize == b * blockSize;
  }

  /** The trim length of the last block lies in 1..blockSize and is that block's length. */
  lemma TrimLength(file: Bytes, blockSize: nat)
    requires blockSize > 0 && file != []
    ensures BlockCount(|file|, blockSize) > 0
    ensures var t := BlockCount(|file|, blockSize);
            var keep := |file| - (t - 1) * blockSize;
            1 <= keep <= blockSize && keep == |Block(file, blockSize, t - 1)|
  {
    BlockCover(|file|, blockSize);
    BlockLength(file, blockSize, BlockCount(|file|, blockSize) - 1);
  }

  /** Joining trimmed, padded blocks in order restores the file. */
  lemma PartitionRoundTrip(file: Bytes, blockSize: nat, restored: seq<Bytes>)
    requires blockSize > 0 && |restored| == BlockCount(|file|, blockSize)
    requires forall b :: 0 <= b < |restored| ==>
      restored[b] == TrimBlock(Pad(Block(file, blockSize, b), blockSize), b, |restored|, |file|, blockSize)
    ensures Concat(restored) == file
  {
    forall b | 0 <= b < |restored|
      ensures restored[b] == Blocks(file, blockSize)[b]
    {
      TrimUndoesPad(file, blockSize, b);
    }
    assert restored == Blocks(file, blockSize);
    BlocksConcat(file, blockSize);
  }
}
