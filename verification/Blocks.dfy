/**
 Cutting a file into blocks and choosing which to fetch: internal/delta/manifest.go,
 internal/delta/patch.go and the block half of internal/p2p/syncengine/decision.go.
 A file is its bytes; SHA-256 is a parameter.
 */
module Blocks {
  import opened Basics
  import opened Manifests

  const DefaultBlockSize := 64 * 1024
  const MediumBlockSize := 512 * 1024
  const LargeBlockSize := 2 * 1024 * 1024
  const MediumFileThreshold := 20 * 1024 * 1024
  const LargeFileThreshold := 100 * 1024 * 1024

  function BlockSizeFor(fileSize: int): (size: int)
    ensures size == LargeBlockSize <==> fileSize > LargeFileThreshold
    ensures size == DefaultBlockSize <==> fileSize <= MediumFileThreshold
    ensures size in {DefaultBlockSize, MediumBlockSize, LargeBlockSize}
  {
    if fileSize > LargeFileThreshold then LargeBlockSize
    else if fileSize > MediumFileThreshold then MediumBlockSize
    else DefaultBlockSize
  }

  /** Go's 64-bit signed arithmetic. */
  function Wrap64(x: int): (r: int)
    ensures -0x8000_0000_0000_0000 <= r < 0x8000_0000_0000_0000
    ensures -0x8000_0000_0000_0000 <= x < 0x8000_0000_0000_0000 ==> r == x
  {
    (x + 0x8000_0000_0000_0000) % 0x1_0000_0000_0000_0000 - 0x8000_0000_0000_0000
  }

  const MaxInt64 := 0x7FFF_FFFF_FFFF_FFFF

  // ----- Blocks of a file

  function Offset(blockSize: int, index: int): int {
    index * blockSize
  }

  lemma OffsetStep(blockSize: int, index: int)
    ensures Offset(blockSize, index + 1) == Offset(blockSize, index) + blockSize
    ensures Offset(blockSize, 0) == 0
  {
  }

  lemma {:induction false} OffsetMonotone(blockSize: int, i: nat, j: nat)
    requires i <= j && blockSize > 0
    ensures 0 <= Offset(blockSize, i) <= Offset(blockSize, j)
    ensures i < j ==> Offset(blockSize, i) + blockSize <= Offset(blockSize, j)
    decreases j
  {
    OffsetStep(blockSize, i);
    if j > 0 {
      OffsetStep(blockSize, j - 1);
      if i < j {
        OffsetMonotone(blockSize, i, j - 1);
      } else {
        OffsetMonotone(blockSize, i - 1, j - 1);
        OffsetStep(blockSize, i - 1);
      }
    }
  }

  function BlockCount(size: nat, blockSize: int): nat
    requires blockSize > 0
  {
    if size == 0 then 0 else if size <= blockSize then 1 else 1 + BlockCount(size - blockSize, blockSize)
  }

  /** Block i exists exactly when its offset lies inside the file. */
  lemma {:induction false} BlockCountBounds(size: nat, blockSize: int, index: nat)
    requires blockSize > 0
    ensures index < BlockCount(size, blockSize) <==> Offset(blockSize, index) < size
    decreases size
  {
    if size > blockSize && index > 0 {
      BlockCountBounds(size - blockSize, blockSize, index - 1);
      OffsetStep(blockSize, index - 1);
    } else {
      OffsetMonotone(blockSize, if index == 0 then 0 else 1, index);
      OffsetStep(blockSize, 0);
    }
  }

  /** The bytes of block `index`; empty past the end. */
  function BlockAt(content: bytes, blockSize: int, index: nat): bytes
    requires blockSize > 0
  {
    var from := Offset(blockSize, index);
    if from < 0 || from >= |content| then []
    else content[from..if from + blockSize > |content| then |content| else from + blockSize]
  }

  /** Every byte of the file lies in some block. */
  lemma {:induction false} ByteHasBlock(size: nat, blockSize: int, k: nat) returns (index: nat)
    requires blockSize > 0 && k < size
    ensures index < BlockCount(size, blockSize)
    ensures Offset(blockSize, index) <= k < Offset(blockSize, index) + blockSize
    decreases k
  {
    if k < blockSize {
      index := 0;
    } else {
      var before := ByteHasBlock(size - blockSize, blockSize, k - blockSize);
      OffsetStep(blockSize, before);
      index := before + 1;
    }
  }

  function BlockOf(sha: bytes -> string, content: bytes, blockSize: int, index: nat): Block
    requires blockSize > 0
  {
    Block(index, sha(BlockAt(content, blockSize, index)), |BlockAt(content, blockSize, index)|)
  }

  function BlocksOf(sha: bytes -> string, content: bytes, blockSize: int): seq<Block>
    requires blockSize > 0
  {
    seq(BlockCount(|content|, blockSize), i requires 0 <= i => BlockOf(sha, content, blockSize, i))
  }

  function EntryOf(sha: bytes -> string, content: bytes, mtimeMs: int): FileEntry {
    var blockSize := BlockSizeFor(|content|);
    FileEntry(|content|, sha(content), BlocksOf(sha, content, blockSize), blockSize, mtimeMs)
  }

  /** Read a buffer at a time until a read comes back short. */
  method HashFile(sha: bytes -> string, content: bytes, mtimeMs: int) returns (entry: FileEntry)
    ensures entry == EntryOf(sha, content, mtimeMs)
  {
    var blockSize := BlockSizeFor(|content|);
    var blocks: seq<Block> := [];
    var index: nat := 0;
    var pos: nat := 0;
    var done := false;
    while !done
      invariant index == |blocks| <= BlockCount(|content|, blockSize)
      invariant forall i :: 0 <= i < |blocks| ==> blocks[i] == BlockOf(sha, content, blockSize, i)
      invariant !done ==> pos == Offset(blockSize, index) <= |content|
      invariant done ==> index == BlockCount(|content|, blockSize)
      decreases |content| - pos, !done
    {
      var n := if |content| - pos < blockSize then |content| - pos else blockSize;
      BlockCountBounds(|content|, blockSize, index);
      BlockCountBounds(|content|, blockSize, index + 1);
      OffsetStep(blockSize, index);
      if n > 0 {
        var chunk := content[pos..pos + n];
        assert chunk == BlockAt(content, blockSize, index);
        blocks := blocks + [Block(index, sha(chunk), n)];
        index := index + 1;
        pos := pos + n;
      }
      if n < blockSize {
        done := true;
      }
    }
    assert blocks == BlocksOf(sha, content, blockSize);
    entry := FileEntry(|content|, sha(content), blocks, blockSize, mtimeMs);
  }

  // ----- Which blocks to fetch

  ghost predicate NeedsFetch(local: Option<FileEntry>, remote: FileEntry, i: nat)
    requires i < |remote.blocks|
  {
    || local.None? || local.value.blockSize != remote.blockSize
    || i >= |local.value.blocks| || local.value.blocks[i].hash != remote.blocks[i].hash
  }

  ghost predicate Increasing(indices: seq<int>) {
    forall i, j :: 0 <= i < j < |indices| ==> indices[i] < indices[j]
  }

  method DifferentBlockIndices(local: Option<FileEntry>, remote: FileEntry) returns (indices: seq<int>)
    ensures Increasing(indices)
    ensures forall i :: i in indices <==> 0 <= i < |remote.blocks| && NeedsFetch(local, remote, i)
  {
    if local.None? || local.value.blockSize != remote.blockSize {
      indices := seq(|remote.blocks|, i => i);
      forall i ensures i in indices <==> 0 <= i < |remote.blocks| {
        assert 0 <= i < |indices| ==> indices[i] == i;
      }
      return;
    }
    var maxBlocks := |remote.blocks|;
    if |local.value.blocks| > maxBlocks {
      maxBlocks := |local.value.blocks|;
    }
    indices := [];
    var i := 0;
    while i < maxBlocks
      invariant 0 <= i <= |remote.blocks| <= maxBlocks
      invariant Increasing(indices)
      invariant forall k :: 0 <= k < |indices| ==> indices[k] < i
      invariant forall k :: k in indices <==> 0 <= k < i && NeedsFetch(local, remote, k)
    {
      if i >= |remote.blocks| {
        break;
      }
      if i >= |local.value.blocks| || local.value.blocks[i].hash != remote.blocks[i].hash {
        indices := indices + [i];
      }
      i := i + 1;
    }
  }

  /**
   Up to 20 MiB a file is cut into at most 320 blocks of 64 KiB, up to 100 MiB into 41 to 200 blocks
   of 512 KiB, and beyond into at least 51 blocks of 2 MiB.
   */
  lemma BlocksOfAnyFile(size: nat)
    ensures
      var blockSize := BlockSizeFor(size);
      var n := BlockCount(size, blockSize);
      && (size <= 20_971_520 ==> blockSize == 65_536 && n <= 320)
      && (20_971_520 < size <= 104_857_600 ==> blockSize == 524_288 && 41 <= n <= 200)
      && (104_857_600 < size ==> blockSize == 2_097_152 && n >= 51)
  {
    var blockSize := BlockSizeFor(size);
    BlockCountBounds(size, blockSize, 320);
    BlockCountBounds(size, blockSize, 40);
    BlockCountBounds(size, blockSize, 200);
    BlockCountBounds(size, blockSize, 50);
  }

  // ----- Batches

  const TargetBatchBytes := 0x20_0000

  function BatchSize(blockSize: int, isWan: bool): (n: nat)
    ensures 1 <= n <= 32
  {
    var size := if blockSize <= 0 then 64 * 1024 else blockSize;
    var calculated := if TargetBatchBytes / size < 1 then 1 else TargetBatchBytes / size;
    var most := if isWan then 16 else 32;
    if calculated > most then most else calculated
  }

  /** Requests of one file that are under way at a time. */
  function ConcurrencyFor(isWan: bool): nat {
    if isWan then 8 else 8
  }

  /**
   A batch has as many blocks as 2 MiB hold, but no more than 16 over the relay and 32 otherwise, and
   one at least; a block size that is missing counts as 64 KiB. Eight batches are under way at a time.
   */
  lemma BatchSizeIs(blockSize: int, isWan: bool)
    ensures
      var n, size, most := BatchSize(blockSize, isWan), if blockSize <= 0 then 65_536 else blockSize,
          if isWan then 16 else 32;
      && 1 <= n <= most && (n == 1 || n * size <= 2_097_152)
      && (n < most ==> (n + 1) * size > 2_097_152)
    ensures ConcurrencyFor(isWan) == 8
  {
    var size := if blockSize <= 0 then 65_536 else blockSize;
    QuotientBounds(2_097_152, size);
    var n, most := 2_097_152 / size, if isWan then 16 else 32;
    if n > most {
      FewerBlocks(most, n, size);
    } else if n < 1 {
      FewerBlocks(1, 2, size);
    }
  }

  lemma QuotientBounds(total: nat, size: nat)
    requires size > 0
    ensures total / size * size <= total < (total / size + 1) * size
  {
  }

  lemma FewerBlocks(m: nat, n: nat, size: nat)
    requires m <= n
    ensures m * size <= n * size
  {
  }

  function Concat<T>(parts: seq<seq<T>>): seq<T> {
    if parts == [] then [] else Concat(parts[..|parts| - 1]) + parts[|parts| - 1]
  }

  method BatchIndices(indices: seq<int>, blockSize: int, isWan: bool) returns (batches: seq<seq<int>>)
    ensures Concat(batches) == indices
    ensures forall i :: 0 <= i < |batches| ==> 1 <= |batches[i]| <= BatchSize(blockSize, isWan)
    ensures forall i :: 0 <= i < |batches| - 1 ==> |batches[i]| == BatchSize(blockSize, isWan)
  {
    var size := if blockSize <= 0 then 64 * 1024 else blockSize;
    var calculated := TargetBatchBytes / size;
    if calculated < 1 {
      calculated := 1;
    }
    var most := 32;
    if isWan {
      most := 16;
    }
    var batchSize := calculated;
    if batchSize > most {
      batchSize := most;
    }
    batches := Split(indices, batchSize);
  }

  lemma ConcatAppend(parts: seq<seq<int>>, part: seq<int>)
    ensures Concat(parts + [part]) == Concat(parts) + part
  {
    assert (parts + [part])[..|parts|] == parts;
  }

  method Split(indices: seq<int>, batchSize: nat) returns (batches: seq<seq<int>>)
    requires batchSize >= 1
    ensures Concat(batches) == indices
    ensures forall i :: 0 <= i < |batches| ==> 1 <= |batches[i]| <= batchSize
    ensures forall i :: 0 <= i < |batches| - 1 ==> |batches[i]| == batchSize
  {
    batches := [];
    var i := 0;
    ghost var done: nat := 0;
    assert Concat(batches) == indices[..done];
    hide Concat;
    while i < |indices|
      invariant 0 <= i && done == if i < |indices| then i else |indices|
      invariant Concat(batches) == indices[..done]
      invariant forall k :: 0 <= k < |batches| ==> 1 <= |batches[k]| <= batchSize
      invariant i < |indices| ==> forall k :: 0 <= k < |batches| ==> |batches[k]| == batchSize
      invariant forall k :: 0 <= k < |batches| - 1 ==> |batches[k]| == batchSize
    {
      var end := i + batchSize;
      if end > |indices| {
        end := |indices|;
      }
      ConcatAppend(batches, indices[i..end]);
      assert indices[..i] + indices[i..end] == indices[..end];
      batches := batches + [indices[i..end]];
      i := i + batchSize;
      done := end;
    }
    assert indices[..done] == indices;
  }

  // ----- Reading blocks for a peer

  datatype BlockSource = BlockSource(index: int, data: bytes)

  /** What a peer holding `content` sends for one index: nothing when the offset is past the end. */
  function ServedOne(content: bytes, blockSize: int, index: int): seq<BlockSource>
    requires blockSize > 0
  {
    var offset := Wrap64(Offset(blockSize, index));
    if offset < 0 || offset >= |content| then []
    else [BlockSource(index, content[offset..if offset + blockSize > |content| then |content| else offset + blockSize])]
  }

  function Served(content: bytes, blockSize: int, indices: seq<int>): seq<BlockSource>
    requires blockSize > 0
  {
    if indices == [] then []
    else Served(content, blockSize, indices[..|indices| - 1]) + ServedOne(content, blockSize, indices[|indices| - 1])
  }

  /** An index that a manifest of this file lists gets exactly that block. */
  lemma ServedOneIsBlock(content: bytes, blockSize: int, index: int)
    requires blockSize > 0 && |content| <= MaxInt64 && 0 <= index < BlockCount(|content|, blockSize)
    ensures ServedOne(content, blockSize, index) == [BlockSource(index, BlockAt(content, blockSize, index))]
  {
    BlockCountBounds(|content|, blockSize, index);
    OffsetMonotone(blockSize, 0, index);
  }

  /** Only an index whose block the file has is answered at all. */
  lemma ServedIff(content: bytes, blockSize: int, index: nat)
    requires blockSize > 0 && |content| <= MaxInt64 && Offset(blockSize, index) <= MaxInt64
    ensures ServedOne(content, blockSize, index) != [] <==> index < BlockCount(|content|, blockSize)
  {
    BlockCountBounds(|content|, blockSize, index);
    OffsetMonotone(blockSize, 0, index);
    OffsetStep(blockSize, 0);
  }

  /** Blocks past the end are left out; a negative offset is a read error. */
  method ReadBlocks(content: bytes, indices: seq<int>, requestedBlockSize: int)
    returns (blocks: Result<seq<BlockSource>>)
    ensures
      var blockSize := if requestedBlockSize <= 0 then DefaultBlockSize else requestedBlockSize;
      blocks == if exists i :: i in indices && Wrap64(Offset(blockSize, i)) < 0
                then Error else Ok(Served(content, blockSize, indices))
  {
    hide Offset, Wrap64;
    var blockSize := if requestedBlockSize <= 0 then DefaultBlockSize else requestedBlockSize;
    var out: seq<BlockSource> := [];
    for n := 0 to |indices|
      invariant forall i :: i in indices[..n] ==> Wrap64(Offset(blockSize, i)) >= 0
      invariant out == Served(content, blockSize, indices[..n])
    {
      var idx := indices[n];
      assert indices[..n + 1] == indices[..n] + [idx];
      assert indices[..n + 1][..n] == indices[..n];
      var offset := Wrap64(Offset(blockSize, idx));
      if offset >= |content| {
        continue;
      }
      if offset < 0 {
        assert idx in indices;
        return Error;
      }
      var length := blockSize;
      if offset + length > |content| {
        length := |content| - offset;
      }
      out := out + [BlockSource(idx, content[offset..offset + length])];
    }
    assert indices[..|indices|] == indices;
    blocks := Ok(out);
  }
}
